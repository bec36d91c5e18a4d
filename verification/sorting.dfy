/** `Array.prototype.sort` with a comparator, as the ECMAScript standard has required
    since its 2019 edition: the result is ordered by the comparator and the sort is
    stable. The comparator is modelled by the relation `le(a, b)` ("a may come before b",
    i.e. `compare(a, b) <= 0`), which must be a total preorder for the result to be
    determined. */
module Sorting {
  import opened Seqs

  ghost predicate TotalPreorder<T(!new)>(le: (T, T) -> bool) {
    && (forall a, b :: le(a, b) || le(b, a))
    && (forall a, b, c :: le(a, b) && le(b, c) ==> le(a, c))
  }

  ghost predicate Sorted<T>(s: seq<T>, le: (T, T) -> bool) {
    forall i, j :: 0 <= i < j < |s| ==> le(s[i], s[j])
  }

  lemma Transitive<T(!new)>(le: (T, T) -> bool, a: T, b: T, c: T)
    requires TotalPreorder(le)
    ensures le(a, b) && le(b, c) ==> le(a, c)
  {
  }

  /** The elements the comparator cannot tell apart from `k`. */
  function EquivTo<T>(le: (T, T) -> bool, k: T): T -> bool {
    y => le(y, k) && le(k, y)
  }

  /** Inserts `x` in front of the first element it may precede. */
  function Insert<T>(x: T, s: seq<T>, le: (T, T) -> bool): (r: seq<T>)
    ensures multiset(r) == multiset(s) + multiset{x}
    ensures |r| == |s| + 1
  {
    if s == [] then [x]
    else if le(x, s[0]) then [x] + s
    else
      assert s == [s[0]] + s[1..];
      [s[0]] + Insert(x, s[1..], le)
  }

  /** Stable insertion sort: each element goes in front of the sorted rest. */
  function Sort<T>(s: seq<T>, le: (T, T) -> bool): (r: seq<T>)
    ensures multiset(r) == multiset(s)
    ensures |r| == |s|
  {
    if s == [] then []
    else
      assert s == [s[0]] + s[1..];
      Insert(s[0], Sort(s[1..], le), le)
  }

  lemma {:induction false} InsertSorted<T(!new)>(x: T, s: seq<T>, le: (T, T) -> bool)
    requires TotalPreorder(le)
    requires Sorted(s, le)
    ensures Sorted(Insert(x, s, le), le)
  {
    if s != [] && !le(x, s[0]) {
      var rest := Insert(x, s[1..], le);
      InsertSorted(x, s[1..], le);
      forall y | y in rest
        ensures le(s[0], y)
      {
        assert y in multiset(rest);
        if y != x {
          assert y in s[1..];
        }
      }
    }
  }

  /** The sorted result is ordered by the comparator. */
  lemma {:induction false} SortSorted<T(!new)>(s: seq<T>, le: (T, T) -> bool)
    requires TotalPreorder(le)
    ensures Sorted(Sort(s, le), le)
  {
    if s != [] {
      SortSorted(s[1..], le);
      InsertSorted(s[0], Sort(s[1..], le), le);
    }
  }

  /** `x` goes past a head it may not precede. */
  lemma InsertPastHead<T>(x: T, s: seq<T>, le: (T, T) -> bool)
    requires s != [] && !le(x, s[0])
    ensures Insert(x, s, le) == [s[0]] + Insert(x, s[1..], le)
  {
  }

  /** Two blocks of which at least one is empty may be swapped. */
  lemma SwapWithEmpty<T>(head: seq<T>, mid: seq<T>, tail: seq<T>)
    requires head == [] || mid == []
    ensures head + (mid + tail) == mid + (head + tail)
  {
    if head == [] {
      assert head + (mid + tail) == mid + tail;
      assert head + tail == tail;
    } else {
      assert mid + tail == tail;
      assert mid + (head + tail) == head + tail;
    }
  }

  /** One step of `InsertStable`: `x` passes over a head that strictly precedes it, so
      the head and `x` are never both equivalent to `k`. */
  lemma {:induction false} InsertStableStep<T(!new)>(x: T, s: seq<T>, le: (T, T) -> bool, k: T)
    requires s != [] && !le(x, s[0])
    requires le(x, k) && le(k, s[0]) ==> le(x, s[0])
    ensures Filter(Insert(x, s[1..], le), EquivTo(le, k))
              == (if EquivTo(le, k)(x) then [x] else []) + Filter(s[1..], EquivTo(le, k)) ==>
            Filter(Insert(x, s, le), EquivTo(le, k))
              == (if EquivTo(le, k)(x) then [x] else []) + Filter(s, EquivTo(le, k))
  {
    var p := EquivTo(le, k);
    var head := if p(s[0]) then [s[0]] else [];
    var mid := if p(x) then [x] else [];
    var tail := Filter(s[1..], p);
    InsertPastHead(x, s, le);
    FilterCons(s[0], Insert(x, s[1..], le), p);
    assert Filter(s, p) == head + tail;
    assert head == [] || mid == [] by {
      assert p(s[0]) ==> le(s[0], k) && le(k, s[0]);
      assert p(x) ==> le(x, k) && le(k, x);
    }
    SwapWithEmpty(head, mid, tail);
  }

  lemma {:induction false} InsertStable<T(!new)>(x: T, s: seq<T>, le: (T, T) -> bool, k: T)
    requires TotalPreorder(le)
    ensures Filter(Insert(x, s, le), EquivTo(le, k))
         == (if EquivTo(le, k)(x) then [x] else []) + Filter(s, EquivTo(le, k))
  {
    if s == [] {
    } else if le(x, s[0]) {
      assert Insert(x, s, le) == [x] + s;
      assert ([x] + s)[1..] == s;
    } else {
      InsertStable(x, s[1..], le, k);
      Transitive(le, x, k, s[0]);
      InsertStableStep(x, s, le, k);
    }
  }

  /** Stability: the elements equivalent to any `k` keep their original relative order. */
  lemma {:induction false} SortStable<T(!new)>(s: seq<T>, le: (T, T) -> bool, k: T)
    requires TotalPreorder(le)
    ensures Filter(Sort(s, le), EquivTo(le, k)) == Filter(s, EquivTo(le, k))
  {
    if s != [] {
      SortStable(s[1..], le, k);
      InsertStable(s[0], Sort(s[1..], le), le, k);
    }
  }

  /** A comparator that never separates two elements leaves the order unchanged. */
  lemma {:induction false} SortKeepsEquivalent<T>(s: seq<T>, le: (T, T) -> bool)
    requires forall a, b :: a in s && b in s ==> le(a, b)
    ensures Sort(s, le) == s
  {
    if s != [] {
      SortKeepsEquivalent(s[1..], le);
      if s[1..] != [] {
        assert s[1] in s;
      }
    }
  }

  /** Sorting a sequence that is already in order changes nothing. */
  lemma {:induction false} SortSortedIsIdentity<T>(s: seq<T>, le: (T, T) -> bool)
    requires Sorted(s, le)
    ensures Sort(s, le) == s
  {
    if s != [] {
      assert Sorted(s[1..], le) by {
        assert forall i :: 0 <= i < |s[1..]| ==> s[1..][i] == s[i + 1];
      }
      SortSortedIsIdentity(s[1..], le);
      if s[1..] != [] {
        assert le(s[0], s[1]);
      }
      assert [s[0]] + s[1..] == s;
    }
  }
}
