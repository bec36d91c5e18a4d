/** Grouping by a string key, as done with `reduce` into a plain object:
    `acc[k] ||= []; acc[k].push(x)`. The object is an association list whose entries
    are in the order their keys were first met. */
module Grouping {
  import opened Seqs

  datatype Group<T> = Group(key: string, items: seq<T>)

  function Keys<T>(gs: seq<Group<T>>): (r: seq<string>)
    ensures |r| == |gs|
    ensures forall i :: 0 <= i < |gs| ==> r[i] == gs[i].key
  {
    if gs == [] then [] else [gs[0].key] + Keys(gs[1..])
  }

  /** The number of items over all groups. */
  function TotalSize<T>(gs: seq<Group<T>>): nat {
    if gs == [] then 0 else |gs[0].items| + TotalSize(gs[1..])
  }

  function KeyIs<T>(key: T -> string, k: string): T -> bool {
    x => key(x) == k
  }

  /** The position of `k` in `keys`. */
  function IndexOf(keys: seq<string>, k: string): (j: nat)
    requires k in keys
    ensures j < |keys| && keys[j] == k
  {
    if keys[0] == k then 0 else 1 + IndexOf(keys[1..], k)
  }

  lemma {:induction false} TotalSizeUpdate<T>(gs: seq<Group<T>>, j: nat, g: Group<T>)
    requires j < |gs|
    ensures TotalSize(gs[j := g]) == TotalSize(gs) - |gs[j].items| + |g.items|
  {
    if j > 0 {
      TotalSizeUpdate(gs[1..], j - 1, g);
      assert gs[j := g][1..] == gs[1..][j - 1 := g];
    }
  }

  lemma {:induction false} TotalSizeAppend<T>(gs: seq<Group<T>>, g: Group<T>)
    ensures TotalSize(gs + [g]) == TotalSize(gs) + |g.items|
  {
    if gs != [] {
      TotalSizeAppend(gs[1..], g);
      assert (gs + [g])[1..] == gs[1..] + [g];
    }
  }

  /** One step of the reduction: `x` is appended to the group for `k`, which is created
      at the end when there is none yet. */
  function Add<T>(gs: seq<Group<T>>, k: string, x: T): (r: seq<Group<T>>)
    requires NoDuplicates(Keys(gs))
    ensures Keys(r) == if k in Keys(gs) then Keys(gs) else Keys(gs) + [k]
    ensures forall i :: 0 <= i < |gs| ==>
      r[i].items == if gs[i].key == k then gs[i].items + [x] else gs[i].items
    ensures k !in Keys(gs) ==> r[|gs|].items == [x]
    ensures TotalSize(r) == TotalSize(gs) + 1
  {
    if k in Keys(gs) then
      var j := IndexOf(Keys(gs), k);
      var r := gs[j := Group(k, gs[j].items + [x])];
      TotalSizeUpdate(gs, j, Group(k, gs[j].items + [x]));
      assert Keys(r) == Keys(gs);
      r
    else
      var r := gs + [Group(k, [x])];
      TotalSizeAppend(gs, Group(k, [x]));
      assert Keys(r) == Keys(gs) + [k];
      r
  }

  /** `gs` is the grouping of `s`: keys are distinct, every element's key has a group,
      and each group holds exactly the elements with its key, in input order. */
  ghost predicate Groups<T>(gs: seq<Group<T>>, s: seq<T>, key: T -> string) {
    && NoDuplicates(Keys(gs))
    && (forall x :: x in s ==> key(x) in Keys(gs))
    && (forall i :: 0 <= i < |gs| ==> gs[i].items == Filter(s, KeyIs(key, gs[i].key)))
    && (forall i :: 0 <= i < |gs| ==> gs[i].items != [])
  }

  lemma AddDistinct<T>(gs: seq<Group<T>>, k: string, x: T)
    requires NoDuplicates(Keys(gs))
    ensures NoDuplicates(Keys(Add(gs, k, x)))
  {
    var r := Add(gs, k, x);
    if k !in Keys(gs) {
      forall i, j | 0 <= i < j < |Keys(r)| ensures Keys(r)[i] != Keys(r)[j] {
        if j == |gs| {
          assert Keys(r)[i] == Keys(gs)[i];
        }
      }
    }
  }

  lemma AddItems<T>(gs: seq<Group<T>>, init: seq<T>, x: T, key: T -> string)
    requires NoDuplicates(Keys(gs))
    requires forall i :: 0 <= i < |gs| ==> gs[i].items == Filter(init, KeyIs(key, gs[i].key))
    requires forall y :: y in init ==> key(y) in Keys(gs)
    ensures forall i :: 0 <= i < |Add(gs, key(x), x)| ==>
      Add(gs, key(x), x)[i].items == Filter(init + [x], KeyIs(key, Add(gs, key(x), x)[i].key))
  {
    var k := key(x);
    var r := Add(gs, k, x);
    forall i | 0 <= i < |r|
      ensures r[i].items == Filter(init + [x], KeyIs(key, r[i].key))
    {
      FilterSnoc(init, x, KeyIs(key, r[i].key));
      if i == |gs| {
        assert r[i].key == Keys(r)[i] == k;
        FilterNone(init, KeyIs(key, k));
      } else {
        assert r[i].key == Keys(r)[i] == gs[i].key;
      }
    }
  }

  lemma AddCovers<T>(gs: seq<Group<T>>, init: seq<T>, x: T, key: T -> string)
    requires NoDuplicates(Keys(gs))
    requires forall y :: y in init ==> key(y) in Keys(gs)
    ensures forall y :: y in init + [x] ==> key(y) in Keys(Add(gs, key(x), x))
  {
    forall y | y in init + [x] ensures key(y) in Keys(Add(gs, key(x), x)) {
      if y != x {
        assert y in init;
      }
    }
  }

  lemma AddNonEmpty<T>(gs: seq<Group<T>>, k: string, x: T)
    requires NoDuplicates(Keys(gs))
    requires forall i :: 0 <= i < |gs| ==> gs[i].items != []
    ensures forall i :: 0 <= i < |Add(gs, k, x)| ==> Add(gs, k, x)[i].items != []
  {
    var r := Add(gs, k, x);
    forall i | 0 <= i < |r| ensures r[i].items != [] {
      if i < |gs| {
        assert gs[i].items != [];
      }
    }
  }

  /** Adding the next element keeps the grouping exact. */
  lemma AddGroups<T>(gs: seq<Group<T>>, init: seq<T>, x: T, key: T -> string)
    requires Groups(gs, init, key)
    ensures Groups(Add(gs, key(x), x), init + [x], key)
  {
    AddDistinct(gs, key(x), x);
    AddItems(gs, init, x, key);
    AddCovers(gs, init, x, key);
    AddNonEmpty(gs, key(x), x);
  }

  /** The position of the first element of `s` whose key is `k`, or `|s|` when there is
      none. */
  function FirstWith<T>(s: seq<T>, key: T -> string, k: string): (n: nat)
    ensures n <= |s|
    ensures n < |s| ==> key(s[n]) == k
    ensures forall m :: 0 <= m < n ==> key(s[m]) != k
  {
    if s == [] then 0 else if key(s[0]) == k then 0 else 1 + FirstWith(s[1..], key, k)
  }

  /** Where in `s` the key of each group first occurs. */
  function FirstPositions<T>(gs: seq<Group<T>>, s: seq<T>, key: T -> string): (r: seq<int>)
    ensures |r| == |gs|
    ensures forall i :: 0 <= i < |gs| ==> r[i] == FirstWith(s, key, gs[i].key)
  {
    seq(|gs|, i requires 0 <= i < |gs| => FirstWith(s, key, gs[i].key))
  }

  predicate Increasing(p: seq<int>) {
    forall i, j :: 0 <= i < j < |p| ==> p[i] < p[j]
  }

  /** The groups come in the order in which their keys first occur in `s`. */
  predicate InFirstOccurrenceOrder<T>(gs: seq<Group<T>>, s: seq<T>, key: T -> string) {
    Increasing(FirstPositions(gs, s, key))
  }

  /** Appending an element moves no key's first occurrence, and places that of a new key
      at the end. */
  lemma FirstWithSnoc<T>(init: seq<T>, x: T, key: T -> string, k: string)
    ensures FirstWith(init, key, k) < |init| ==> FirstWith(init + [x], key, k) == FirstWith(init, key, k)
    ensures FirstWith(init, key, k) == |init| && key(x) == k ==> FirstWith(init + [x], key, k) == |init|
  {
    var s := init + [x];
    var a, b := FirstWith(init, key, k), FirstWith(s, key, k);
    if a < |init| {
      assert s[a] == init[a];
    } else if key(x) == k {
      assert s[|init|] == x;
    }
  }

  /** A key of the grouping of `init` first occurs inside `init`. */
  lemma KeyOccurs<T>(gs: seq<Group<T>>, init: seq<T>, key: T -> string, i: int)
    requires Groups(gs, init, key) && 0 <= i < |gs|
    ensures FirstWith(init, key, gs[i].key) < |init|
  {
    var y := gs[i].items[0];
    assert y in Filter(init, KeyIs(key, gs[i].key));
    var m :| 0 <= m < |init| && init[m] == y;
    assert key(init[m]) == gs[i].key;
  }

  /** Adding the next element keeps the groups in first-occurrence order. */
  lemma AddKeepsOrder<T>(gs: seq<Group<T>>, init: seq<T>, x: T, key: T -> string)
    requires Groups(gs, init, key) && InFirstOccurrenceOrder(gs, init, key)
    ensures InFirstOccurrenceOrder(Add(gs, key(x), x), init + [x], key)
  {
    var s, r := init + [x], Add(gs, key(x), x);
    var a, b := FirstPositions(gs, init, key), FirstPositions(r, s, key);
    forall i | 0 <= i < |gs| ensures b[i] == a[i] < |init| {
      OldKeyStays(gs, init, x, key, i);
    }
    if key(x) in Keys(gs) {
      assert |r| == |Keys(r)| == |gs|;
    } else {
      NewKeyLast(gs, init, x, key);
    }
    IncreasingStep(a, b, |init|);
  }

  /** Positions that stay below `n`, followed by at most the position `n` itself, keep
      increasing. */
  lemma IncreasingStep(a: seq<int>, b: seq<int>, n: int)
    requires |b| == |a| || (|b| == |a| + 1 && b[|a|] == n)
    requires forall i :: 0 <= i < |a| ==> b[i] == a[i] < n
    requires Increasing(a)
    ensures Increasing(b)
  {
    forall i, j | 0 <= i < j < |b| ensures b[i] < b[j] {
      if j < |a| {
        assert a[i] < a[j];
      }
    }
  }

  lemma OldKeyStays<T>(gs: seq<Group<T>>, init: seq<T>, x: T, key: T -> string, i: int)
    requires Groups(gs, init, key) && 0 <= i < |gs|
    ensures Add(gs, key(x), x)[i].key == gs[i].key
    ensures FirstWith(init + [x], key, gs[i].key) == FirstWith(init, key, gs[i].key) < |init|
  {
    var r := Add(gs, key(x), x);
    assert r[i].key == Keys(r)[i] == Keys(gs)[i] == gs[i].key;
    KeyOccurs(gs, init, key, i);
    FirstWithSnoc(init, x, key, gs[i].key);
  }

  lemma NewKeyLast<T>(gs: seq<Group<T>>, init: seq<T>, x: T, key: T -> string)
    requires Groups(gs, init, key) && key(x) !in Keys(gs)
    ensures |Add(gs, key(x), x)| == |gs| + 1
    ensures Add(gs, key(x), x)[|gs|].key == key(x)
    ensures FirstWith(init + [x], key, key(x)) == |init|
  {
    var r := Add(gs, key(x), x);
    assert r[|gs|].key == Keys(r)[|gs|] == key(x);
    FirstWithSnoc(init, x, key, key(x));
  }

  /** The reduction over all of `s`. */
  function GroupBy<T>(s: seq<T>, key: T -> string): (r: seq<Group<T>>)
    ensures Groups(r, s, key)
    ensures InFirstOccurrenceOrder(r, s, key)
    ensures TotalSize(r) == |s|
  {
    if s == [] then []
    else
      var init, x := s[..|s| - 1], s[|s| - 1];
      assert s == init + [x];
      var gs := GroupBy(init, key);
      AddGroups(gs, init, x, key);
      AddKeepsOrder(gs, init, x, key);
      Add(gs, key(x), x)
  }

  /** Every element lands in the group of its own key and in no other. */
  lemma InExactlyOneGroup<T>(s: seq<T>, key: T -> string, x: T, i: int)
    requires x in s && 0 <= i < |GroupBy(s, key)|
    ensures x in GroupBy(s, key)[i].items <==> GroupBy(s, key)[i].key == key(x)
  {
  }

  /** The keys are exactly the distinct keys of the elements. */
  lemma KeysAreElementKeys<T>(s: seq<T>, key: T -> string)
    ensures forall k :: k in Keys(GroupBy(s, key)) <==> exists x :: x in s && key(x) == k
  {
    GroupsHaveElementKeys(GroupBy(s, key), s, key);
  }

  lemma GroupsHaveElementKeys<T>(gs: seq<Group<T>>, s: seq<T>, key: T -> string)
    requires Groups(gs, s, key)
    ensures forall k :: k in Keys(gs) <==> exists x :: x in s && key(x) == k
  {
    forall k | k in Keys(gs)
      ensures exists x :: x in s && key(x) == k
    {
      var i :| 0 <= i < |gs| && Keys(gs)[i] == k;
      var x := gs[i].items[0];
      assert x in s && key(x) == k;
    }
  }
}
