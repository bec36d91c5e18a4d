/** The access-token dialog: when it opens, the value of the `auth_token` cookie is read
    from the page's cookie string and shown. The cookie string (`document.cookie`) is a
    parameter. */
module TokenModal {
  import opened Wrappers
  import opened Text

  /** What precedes the token in `"; " + cookie`. */
  const Marker := "; auth_token="

  /** The token read from the cookie string: present only when the marker splits
      `"; " + cookie` into exactly two pieces; it is the second piece up to its first `;`. */
  function ReadCookie(cookie: string): (r: Option<string>)
    ensures r.Some? ==> !Contains(r.value, ";")
  {
    var parts := Split("; " + cookie, Marker);
    if |parts| == 2 then Some(Split(parts[1], ";")[0]) else None
  }

  /** The token field after the dialog's open state becomes `open`: read from the cookie
      when opening and the cookie holds one token, otherwise the field as it was. */
  function OnOpenChange(open: bool, cookie: string, previous: string): (token: string)
    ensures !open ==> token == previous
    ensures open && ReadCookie(cookie).None? ==> token == previous
    ensures open && ReadCookie(cookie).Some? ==> token == ReadCookie(cookie).value
  {
    if open then ReadCookie(cookie).GetOr(previous) else previous
  }

  lemma MarkerUniqueHead()
    ensures UniqueHead(Marker)
  {
  }

  /** A token is read exactly when the marker occurs once in `"; " + cookie`: no
      `auth_token` cookie, or more than one, leaves the field unchanged. */
  lemma ReadIffOneOccurrence(cookie: string)
    ensures ReadCookie(cookie).Some? <==> |Occurrences("; " + cookie, Marker)| == 1
  {
    var value := "; " + cookie;
    var parts := Split(value, Marker);
    PiecesAndOccurrences(value, Marker);
    if |parts| == 2 {
      SplitInTwo(value, Marker);
      MarkerUniqueHead();
      OneOccurrence(parts[0], parts[1], Marker);
    }
  }

  /** The token read is what follows the marker up to the next `;` or the end of the
      string, and the marker occurs nowhere else. */
  lemma ReadTokenFollowsMarker(cookie: string)
    requires ReadCookie(cookie).Some?
    ensures var value := "; " + cookie;
            var parts := Split(value, Marker);
            var token := ReadCookie(cookie).value;
            && value == parts[0] + Marker + parts[1]
            && !Contains(parts[0], Marker) && !Contains(parts[1], Marker)
            && StartsWith(parts[1], token)
            && (|parts[1]| == |token| || parts[1][|token|] == ';')
  {
    var value := "; " + cookie;
    var parts := Split(value, Marker);
    SplitInTwo(value, Marker);
    var pieces := Split(parts[1], ";");
    JoinStartsWithFirst(pieces, ";");
    if |pieces| > 1 {
      assert parts[1] == pieces[0] + ";" + Join(pieces[1..], ";");
      assert parts[1][|pieces[0]|] == ';';
    }
  }

  /** The first `;`-separated piece of `t` is `t` up to its first `;`. */
  lemma FirstPieceUpToSemicolon(t: string, k: int)
    requires 0 <= k < |t| && t[k] == ';' && forall j :: 0 <= j < k ==> t[j] != ';'
    ensures Split(t, ";")[0] == t[..k]
  {
    var pieces := Split(t, ";");
    var first := pieces[0];
    JoinStartsWithFirst(pieces, ";");
    if |pieces| > 1 {
      assert t == first + ";" + Join(pieces[1..], ";");
      assert t[|first|] == ';';
    }
    if |first| > k {
      assert first[k] == t[k];
      assert OccursAt(first, ";", k);
    }
  }

  /** A cookie string that begins with the token cookie, with no second one after it,
      yields that cookie's value up to the next `;`. */
  lemma LeadingTokenCookie(rest: string)
    requires !Contains(rest, Marker)
    ensures ReadCookie("auth_token=" + rest) == Some(Split(rest, ";")[0])
  {
    var value := "; " + ("auth_token=" + rest);
    assert value == "" + Marker + rest;
    MarkerUniqueHead();
    assert !Contains("", Marker);
    OneOccurrence("", rest, Marker);
    TwoPiecesOfOneOccurrence(value, Marker, 0);
    SplitInTwo(value, Marker);
    var parts := Split(value, Marker);
    assert |parts[0]| == 0 by {
      if |parts[0]| > 0 {
        assert OccursAt(value, Marker, |parts[0]|);
        assert |parts[0]| in Occurrences(value, Marker);
      }
    }
    assert parts[1] == rest;
  }

  /** A cookie string `auth_token=v; ...` whose token cookie comes first and only once
      yields `v`. */
  lemma LeadingTokenValue(v: string, more: string)
    requires forall j :: 0 <= j < |v| ==> v[j] != ';'
    requires !Contains(v + ";" + more, Marker)
    ensures ReadCookie("auth_token=" + (v + ";" + more)) == Some(v)
  {
    var rest := v + ";" + more;
    LeadingTokenCookie(rest);
    FirstPieceUpToSemicolon(rest, |v|);
    assert rest[..|v|] == v;
  }

  /** A cookie whose name merely ends in `auth_token` does not match: the marker needs
      the `"; "` in front of the name. */
  lemma SuffixNameDoesNotMatch(v: string)
    requires forall j :: 0 <= j < |v| ==> v[j] != ';'
    ensures ReadCookie("my_auth_token=" + v).None?
  {
    var value := "; " + ("my_auth_token=" + v);
    forall i | 0 <= i <= |value| - |Marker|
      ensures !OccursAt(value, Marker, i)
    {
      if i == 0 {
        assert value[i..i + |Marker|][2] == 'm' != Marker[2];
      } else if i < 16 {
        assert value[i..i + |Marker|][0] == value[i] != ';';
      } else {
        assert value[i] == v[i - 16];
        assert value[i..i + |Marker|][0] == value[i];
      }
    }
    assert Occurrences(value, Marker) == {};
    ReadIffOneOccurrence("my_auth_token=" + v);
  }
}
