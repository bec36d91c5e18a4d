/** Locale-aware string comparison (`a.localeCompare(b)` and `a.localeCompare(b, 'tr')`)
    is a parameter of the model: any function returning a negative number, zero or a
    positive number. `Collation` states the consistency the ECMAScript standard requires
    of `localeCompare` (section 22.1.3.12 of ECMA-262): it orders all strings. The
    code-point order is one such collation. */
module Collation {
  import opened Sorting
  import opened Text

  type Compare = (string, string) -> int

  ghost predicate IsCollation(c: Compare) {
    && (forall a, b :: c(a, b) < 0 <==> c(b, a) > 0)
    && (forall a, b, x :: c(a, b) <= 0 && c(b, x) <= 0 ==> c(a, x) <= 0)
  }

  /** "`a` may come before `b`" when the comparator's answer is not positive. */
  function LeBy<T>(c: Compare, name: T -> string): (T, T) -> bool {
    (a, b) => c(name(a), name(b)) <= 0
  }

  lemma LeByTotalPreorder<T(!new)>(c: Compare, name: T -> string)
    requires IsCollation(c)
    ensures TotalPreorder(LeBy(c, name))
  {
    var le := LeBy(c, name);
    forall a: T, b: T ensures le(a, b) || le(b, a) {
      assert c(name(a), name(b)) > 0 ==> c(name(b), name(a)) < 0;
    }
    forall a: T, b: T, x: T | le(a, b) && le(b, x) ensures le(a, x) {
      assert c(name(a), name(b)) <= 0 && c(name(b), name(x)) <= 0;
    }
  }

  /** The order of the default `sort()` on strings: by character codes. */
  function DefaultOrder(): (string, string) -> bool {
    (a: string, b: string) => StrLe(a, b)
  }

  lemma DefaultOrderTotalPreorder()
    ensures TotalPreorder(DefaultOrder())
  {
    forall a: string, b: string ensures StrLe(a, b) || StrLe(b, a) {
      StrLeTotal(a, b);
    }
    forall a: string, b: string, x: string | StrLe(a, b) && StrLe(b, x) ensures StrLe(a, x) {
      StrLeTransitive(a, b, x);
    }
  }

  /** Comparison by character codes. */
  function CodePointCompare(a: string, b: string): (r: int)
    ensures r == 0 <==> a == b
    ensures r <= 0 <==> StrLe(a, b)
  {
    if a == b then
      StrLeReflexive(a);
      0
    else if StrLe(a, b) then -1
    else 1
  }

  /** The code-point order meets the requirements, so `Collation` can be met. */
  lemma CodePointIsCollation()
    ensures IsCollation(CodePointCompare)
  {
    forall a, b ensures CodePointCompare(a, b) < 0 <==> CodePointCompare(b, a) > 0 {
      StrLeTotal(a, b);
      if StrLe(a, b) && StrLe(b, a) {
        StrLeAntisymmetric(a, b);
      }
    }
    forall a, b, x | CodePointCompare(a, b) <= 0 && CodePointCompare(b, x) <= 0
      ensures CodePointCompare(a, x) <= 0
    {
      StrLeTransitive(a, b, x);
    }
  }
}
