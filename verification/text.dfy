/** The string operations the components use: case mapping (`toLowerCase`,
    `toUpperCase`), `includes`, `startsWith`, string comparison, `split` and `join`,
    and the "first letter of every word" initials. Strings are sequences of characters. */
module Text {

  // ---------------------------------------------------------------- case mapping

  /** Lower-case mapping of one character: ASCII and Latin-1 capitals, and the Turkish
      capitals Ğ, Ş and İ. Dotted capital İ becomes "i" followed by U+0307, as the
      locale-independent JavaScript mapping does. Every other character is unchanged. */
  function LowerChar(c: char): (r: string)
    ensures |r| >= 1
  {
    if 'A' <= c <= 'Z' then [(c as int + 32) as char]
    else if '\U{00C0}' <= c <= '\U{00DE}' && c != '\U{00D7}' then [(c as int + 32) as char]
    else if c == '\U{011E}' || c == '\U{015E}' then [(c as int + 1) as char]
    else if c == '\U{0130}' then ['i', '\U{0307}']
    else [c]
  }

  /** Upper-case mapping of one character: ASCII and Latin-1 small letters (ß becomes
      "SS", ÿ becomes Ÿ U+0178 and the micro sign µ the Greek capital mu U+039C), and the
      Turkish ğ, ş and dotless ı (which becomes I). */
  function UpperChar(c: char): (r: string)
    ensures |r| >= 1
  {
    if 'a' <= c <= 'z' then [(c as int - 32) as char]
    else if '\U{00E0}' <= c <= '\U{00FE}' && c != '\U{00F7}' then [(c as int - 32) as char]
    else if c == '\U{00DF}' then "SS"
    else if c == '\U{00FF}' then ['\U{0178}']
    else if c == '\U{00B5}' then ['\U{039C}']
    else if c == '\U{011F}' || c == '\U{015F}' then [(c as int - 1) as char]
    else if c == '\U{0131}' then "I"
    else [c]
  }

  function Lower(s: string): (r: string)
    ensures |r| >= |s|
  {
    if s == [] then [] else LowerChar(s[0]) + Lower(s[1..])
  }

  function Upper(s: string): (r: string)
    ensures |r| >= |s|
  {
    if s == [] then [] else UpperChar(s[0]) + Upper(s[1..])
  }

  // ------------------------------------------------------- prefixes and substrings

  /** `s.startsWith(prefix)`. */
  predicate StartsWith(s: string, prefix: string) {
    |prefix| <= |s| && s[..|prefix|] == prefix
  }

  /** `needle` occurs in `s` starting at position `i`. */
  predicate OccursAt(s: string, needle: string, i: int) {
    0 <= i <= |s| - |needle| && s[i..i + |needle|] == needle
  }

  /** `s.includes(needle)`: `needle` occurs at some position of `s`. */
  predicate Contains(s: string, needle: string) {
    exists i | 0 <= i <= |s| - |needle| :: OccursAt(s, needle, i)
  }

  /** The positions at which `needle` occurs in `s`. */
  function Occurrences(s: string, needle: string): set<int> {
    set i | 0 <= i <= |s| - |needle| && OccursAt(s, needle, i)
  }

  /** Every string includes the empty string. */
  lemma ContainsEmpty(s: string)
    ensures Contains(s, "")
  {
    assert OccursAt(s, "", 0);
  }

  /** A prefix of a prefix is a prefix; two prefixes of one string are ordered by length. */
  lemma PrefixTransitive(s: string, a: string, b: string)
    requires StartsWith(s, a) && StartsWith(a, b)
    ensures StartsWith(s, b)
  {
    assert s[..|b|] == a[..|b|];
  }

  lemma PrefixesComparable(s: string, a: string, b: string)
    requires StartsWith(s, a) && StartsWith(s, b) && |a| <= |b|
    ensures StartsWith(b, a)
  {
    assert b[..|a|] == s[..|b|][..|a|];
  }

  // ------------------------------------------------------------------ comparison

  /** Lexicographic order on character codes: the order in which the default `sort()`
      puts strings. */
  predicate StrLe(a: string, b: string) {
    if a == [] then true
    else if b == [] then false
    else if a[0] != b[0] then a[0] < b[0]
    else StrLe(a[1..], b[1..])
  }

  /** The strict version of `StrLe`. */
  predicate StrLt(a: string, b: string) {
    StrLe(a, b) && a != b
  }

  lemma {:induction false} StrLeReflexive(a: string)
    ensures StrLe(a, a)
  {
    if a != [] {
      StrLeReflexive(a[1..]);
    }
  }

  lemma {:induction false} StrLeTotal(a: string, b: string)
    ensures StrLe(a, b) || StrLe(b, a)
  {
    if a != [] && b != [] && a[0] == b[0] {
      StrLeTotal(a[1..], b[1..]);
    }
  }

  lemma {:induction false} StrLeAntisymmetric(a: string, b: string)
    requires StrLe(a, b) && StrLe(b, a)
    ensures a == b
  {
    if a != [] && b != [] {
      StrLeAntisymmetric(a[1..], b[1..]);
      assert a == [a[0]] + a[1..];
      assert b == [b[0]] + b[1..];
    }
  }

  lemma {:induction false} StrLeTransitive(a: string, b: string, c: string)
    requires StrLe(a, b) && StrLe(b, c)
    ensures StrLe(a, c)
  {
    if a != [] && b != [] && c != [] && a[0] == b[0] && b[0] == c[0] {
      StrLeTransitive(a[1..], b[1..], c[1..]);
    }
  }

  // ------------------------------------------------------------- split and join

  /** `parts.join(sep)`. */
  function Join(parts: seq<string>, sep: string): string
    requires |parts| >= 1
  {
    if |parts| == 1 then parts[0] else parts[0] + sep + Join(parts[1..], sep)
  }

  /** `Join` puts the first piece at the front. */
  lemma JoinStartsWithFirst(parts: seq<string>, sep: string)
    requires |parts| >= 1
    ensures StartsWith(Join(parts, sep), parts[0])
  {
    if |parts| > 1 {
      assert Join(parts, sep) == parts[0] + (sep + Join(parts[1..], sep));
    }
  }

  /** `c + t` does not contain `needle` when the longer string `s` it begins does not
      start with `needle` and `t` does not contain it. */
  lemma NotContainsCons(s: string, c: char, t: string, needle: string)
    requires |needle| > 0 && StartsWith(s, [c] + t) && !StartsWith(s, needle)
    requires !Contains(t, needle)
    ensures !Contains([c] + t, needle)
  {
    var u := [c] + t;
    forall i | 0 <= i <= |u| - |needle|
      ensures !OccursAt(u, needle, i)
    {
      if i == 0 {
        assert u[..|needle|] == s[..|needle|];
      } else {
        assert u[i..i + |needle|] == t[i - 1..i - 1 + |needle|];
        assert !OccursAt(t, needle, i - 1);
      }
    }
  }

  /** Joining with an extra character in front of the first piece puts it in front of
      the result. */
  lemma JoinExtendFirst(c: char, parts: seq<string>, sep: string)
    requires |parts| >= 1
    ensures Join([[c] + parts[0]] + parts[1..], sep) == [c] + Join(parts, sep)
  {
    var q := [[c] + parts[0]] + parts[1..];
    assert q[1..] == parts[1..];
  }

  /** Joining with an empty first piece puts the separator in front. */
  lemma JoinEmptyFirst(parts: seq<string>, sep: string)
    requires |parts| >= 1
    ensures Join([""] + parts, sep) == sep + Join(parts, sep)
  {
    assert ([""] + parts)[1..] == parts;
  }

  /** `s.split(sep)` for a non-empty separator: the pieces between the occurrences of
      `sep`, found left to right without overlapping. Joining them with `sep` gives `s`
      back, and no piece contains `sep`. */
  function Split(s: string, sep: string): (parts: seq<string>)
    requires |sep| > 0
    ensures |parts| >= 1
    ensures Join(parts, sep) == s
    ensures forall i :: 0 <= i < |parts| ==> !Contains(parts[i], sep)
    decreases |s|
  {
    if StartsWith(s, sep) then
      var rest := Split(s[|sep|..], sep);
      JoinEmptyFirst(rest, sep);
      assert s == sep + s[|sep|..];
      assert !Contains("", sep);
      assert forall i :: 1 <= i < |rest| + 1 ==> ([""] + rest)[i] == rest[i - 1];
      [""] + rest
    else if s == [] then
      assert !Contains("", sep);
      [""]
    else
      var rest := Split(s[1..], sep);
      var parts := [[s[0]] + rest[0]] + rest[1..];
      JoinExtendFirst(s[0], rest, sep);
      assert s == [s[0]] + s[1..];
      JoinStartsWithFirst(rest, sep);
      NotContainsCons(s, s[0], rest[0], sep);
      assert forall i :: 1 <= i < |parts| ==> parts[i] == rest[i];
      parts
  }

  /** Two pieces: `s` is the first, then `sep`, then the second. */
  lemma SplitInTwo(s: string, sep: string)
    requires |sep| > 0 && |Split(s, sep)| == 2
    ensures s == Split(s, sep)[0] + sep + Split(s, sep)[1]
  {
    var parts := Split(s, sep);
    assert Join(parts[1..], sep) == parts[1];
  }

  /** `sep` does not start anywhere else inside itself: its first character does not
      occur again in it. Such a separator cannot overlap a second copy of itself. */
  predicate UniqueHead(sep: string) {
    |sep| > 0 && forall j :: 0 < j < |sep| ==> sep[j] != sep[0]
  }

  /** With a separator that cannot overlap itself, `s == a + sep + b` with `sep` in
      neither `a` nor `b` has exactly one occurrence of `sep`, right after `a`. */
  lemma OneOccurrence(a: string, b: string, sep: string)
    requires UniqueHead(sep) && !Contains(a, sep) && !Contains(b, sep)
    ensures Occurrences(a + sep + b, sep) == {|a|}
  {
    var s := a + sep + b;
    assert s[|a|..|a| + |sep|] == sep;
    assert OccursAt(s, sep, |a|);
    forall i | 0 <= i <= |s| - |sep| && i != |a|
      ensures !OccursAt(s, sep, i)
    {
      if i + |sep| <= |a| {
        assert a[i..i + |sep|] == s[i..i + |sep|];
        assert !OccursAt(a, sep, i);
      } else if i < |a| {
        // an occurrence here would put sep[0] at offset |a| - i > 0 of sep
        assert s[|a|] == sep[0];
        assert s[i..i + |sep|][|a| - i] == s[|a|];
      } else if i < |a| + |sep| {
        assert s[i] == sep[i - |a|];
        assert s[i..i + |sep|][0] == s[i];
      } else {
        assert b[i - |a| - |sep|..i - |a|] == s[i..i + |sep|];
        assert !OccursAt(b, sep, i - |a| - |sep|);
      }
    }
  }

  /** One piece means no occurrence; three or more mean at least two occurrences. */
  lemma PiecesAndOccurrences(s: string, sep: string)
    requires |sep| > 0
    ensures |Split(s, sep)| == 1 ==> Occurrences(s, sep) == {}
    ensures |Split(s, sep)| > 2 ==> |Occurrences(s, sep)| >= 2
  {
    var parts := Split(s, sep);
    if |parts| == 1 {
      assert s == parts[0];
      NoOccurrence(s, sep);
    } else if |parts| > 2 {
      var p0, p1, rest := parts[0], parts[1], Join(parts[2..], sep);
      assert Join(parts[1..], sep) == p1 + sep + rest;
      assert s == p0 + sep + p1 + sep + rest;
      TwoOccurrences(p0, p1, rest, sep);
    }
  }

  /** A string that does not contain `sep` has no occurrence of it. */
  lemma NoOccurrence(s: string, sep: string)
    requires !Contains(s, sep)
    ensures Occurrences(s, sep) == {}
  {
    forall i | 0 <= i <= |s| - |sep|
      ensures !OccursAt(s, sep, i)
    {
    }
  }

  /** Two copies of `sep` with pieces around them are two occurrences. */
  lemma TwoOccurrences(p0: string, p1: string, rest: string, sep: string)
    requires |sep| > 0
    ensures |Occurrences(p0 + sep + p1 + sep + rest, sep)| >= 2
  {
    var s := p0 + sep + p1 + sep + rest;
    var i, j := |p0|, |p0| + |sep| + |p1|;
    assert s[i..i + |sep|] == sep;
    assert s[j..j + |sep|] == sep;
    assert OccursAt(s, sep, i) && OccursAt(s, sep, j);
    var occ := Occurrences(s, sep);
    assert {i, j} <= occ;
    assert occ == {i, j} + (occ - {i, j});
  }

  /** Conversely, `split` yields exactly two pieces whenever `sep` occurs exactly once. */
  lemma TwoPiecesOfOneOccurrence(s: string, sep: string, k: int)
    requires |sep| > 0 && Occurrences(s, sep) == {k}
    ensures |Split(s, sep)| == 2
  {
    PiecesAndOccurrences(s, sep);
  }

  // ------------------------------------------------------------------- initials

  /** `parts.map(n => n[0]).join('')`: the first character of every piece; an empty
      piece gives `undefined`, which `join` writes as nothing. */
  function FirstChars(parts: seq<string>): string {
    if parts == [] then ""
    else (if parts[0] == "" then "" else [parts[0][0]]) + FirstChars(parts[1..])
  }

  /** The characters of `s` that start a word: not a space, and at the beginning or
      right after a space. `afterSpace` says whether the previous character was a space
      (or there was none). */
  function WordStarts(s: string, afterSpace: bool): string {
    if s == [] then ""
    else (if afterSpace && s[0] != ' ' then [s[0]] else "") + WordStarts(s[1..], s[0] == ' ')
  }

  /** The initials built from `split(' ')` are exactly the characters that start a word. */
  lemma {:induction false} InitialsAreWordStarts(s: string)
    ensures FirstChars(Split(s, " ")) == WordStarts(s, true)
    decreases |s|, 1
  {
    if s != [] {
      if s[0] == ' ' {
        assert StartsWith(s, " ");
        assert Split(s, " ") == [""] + Split(s[1..], " ");
        assert (["" ] + Split(s[1..], " "))[1..] == Split(s[1..], " ");
        InitialsAreWordStarts(s[1..]);
      } else {
        assert !StartsWith(s, " ");
        var r := Split(s[1..], " ");
        assert Split(s, " ") == [[s[0]] + r[0]] + r[1..];
        assert ([[s[0]] + r[0]] + r[1..])[1..] == r[1..];
        LaterWordStarts(s[1..]);
      }
    }
  }

  /** The pieces after the first contribute the word starts after position 0. */
  lemma {:induction false} LaterWordStarts(s: string)
    ensures FirstChars(Split(s, " ")[1..]) == WordStarts(s, false)
    decreases |s|, 0
  {
    if s != [] {
      if s[0] == ' ' {
        assert StartsWith(s, " ");
        assert Split(s, " ")[1..] == Split(s[1..], " ");
        InitialsAreWordStarts(s[1..]);
      } else {
        assert !StartsWith(s, " ");
        var r := Split(s[1..], " ");
        assert Split(s, " ")[1..] == r[1..];
        LaterWordStarts(s[1..]);
      }
    }
  }

  /** No character starts a word exactly when every character is a space. */
  lemma {:induction false} NoWordStartsIffBlank(s: string)
    ensures WordStarts(s, true) == "" <==> forall i :: 0 <= i < |s| ==> s[i] == ' '
  {
    if s != [] {
      if s[0] == ' ' {
        NoWordStartsIffBlank(s[1..]);
        assert forall i :: 1 <= i < |s| ==> s[i] == s[1..][i - 1];
      }
    }
  }

  /** A word without spaces starts a word with its first character only, and only after
      a space. */
  lemma {:induction false} WordStartsOfWord(w: string, afterSpace: bool)
    requires forall i :: 0 <= i < |w| ==> w[i] != ' '
    ensures WordStarts(w, afterSpace) == if afterSpace && w != [] then [w[0]] else ""
  {
    if w != [] {
      WordStartsOfWord(w[1..], false);
    }
  }

  /** The word starts of `a + b` are those of `a` followed by those of `b`, read after the
      last character of `a`. */
  lemma {:induction false} WordStartsAppend(a: string, b: string, afterSpace: bool)
    ensures WordStarts(a + b, afterSpace) ==
            WordStarts(a, afterSpace) + WordStarts(b, if a == [] then afterSpace else a[|a| - 1] == ' ')
  {
    if a != [] {
      assert (a + b)[0] == a[0] && (a + b)[1..] == a[1..] + b;
      WordStartsAppend(a[1..], b, a[0] == ' ');
    } else {
      assert a + b == b;
    }
  }

  /** Lower-casing works character by character, so it distributes over concatenation. */
  lemma {:induction false} LowerAppend(a: string, b: string)
    ensures Lower(a + b) == Lower(a) + Lower(b)
  {
    if a != [] {
      assert (a + b)[0] == a[0] && (a + b)[1..] == a[1..] + b;
      LowerAppend(a[1..], b);
    } else {
      assert a + b == b;
    }
  }

  /** Upper-casing works character by character, so it distributes over concatenation. */
  lemma {:induction false} UpperAppend(a: string, b: string)
    ensures Upper(a + b) == Upper(a) + Upper(b)
  {
    if a != [] {
      assert (a + b)[0] == a[0] && (a + b)[1..] == a[1..] + b;
      UpperAppend(a[1..], b);
    } else {
      assert a + b == b;
    }
  }
}
