/** The people directory: users grouped under the upper-cased first letter of their last
    name, the groups shown in ascending key order, and a jump bar of the letters A to Z. */
module PeopleDirectory {
  import opened Wrappers
  import opened Seqs
  import opened Sorting
  import opened Text
  import opened Api
  import opened Grouping
  import opened Collation

  const Letters := "ABCDEFGHIJKLMNOPQRSTUVWXYZ"

  /** `"ABC…Z".split('')`: each letter as a string of its own. */
  function Alphabet(): (r: seq<string>)
    ensures |r| == 26
    ensures forall i :: 0 <= i < 26 ==> r[i] == [('A' as int + i) as char]
  {
    seq(|Letters|, i requires 0 <= i < |Letters| => [Letters[i]])
  }

  predicate IsLatinLetter(c: char) {
    'A' <= c <= 'Z' || 'a' <= c <= 'z'
  }

  /** The group of a user: the upper-cased first character of the last name, or "#"
      when the last name is empty. */
  function LetterKey(u: User): (k: string)
    ensures k != ""
    ensures u.lastName == "" ==> k == "#"
    ensures u.lastName != "" ==> k == UpperChar(u.lastName[0])
    ensures k == "#" <==> u.lastName == "" || u.lastName[0] == '#'
  {
    if u.lastName == "" then "#"
    else
      UpperOfOne(u.lastName[0]);
      Upper([u.lastName[0]])
  }

  lemma UpperOfOne(c: char)
    ensures Upper([c]) == UpperChar(c)
    ensures Upper([c]) == "#" <==> c == '#'
  {
    assert Upper([c]) == UpperChar(c) + Upper([]);
  }

  /** A user whose last name starts with a Latin letter is filed under that letter in
      capitals, which is on the jump bar. */
  lemma LatinLettersOnJumpBar(u: User)
    requires u.lastName != "" && IsLatinLetter(u.lastName[0])
    ensures 'A' <= u.lastName[0] <= 'Z' ==> LetterKey(u) == [u.lastName[0]]
    ensures 'a' <= u.lastName[0] <= 'z' ==> LetterKey(u) == [(u.lastName[0] as int - 32) as char]
    ensures LetterKey(u) in Alphabet()
  {
    var c := u.lastName[0];
    assert Upper([c]) == UpperChar(c) + Upper([]);
    var i := if 'a' <= c <= 'z' then c as int - 'a' as int else c as int - 'A' as int;
    assert Alphabet()[i] == LetterKey(u);
  }

  datatype Section = Section(letter: string, users: seq<User>)

  function SectionLetters(sections: seq<Section>): seq<string> {
    Map(sections, (s: Section) => s.letter)
  }

  /** The users of the group with key `k`. */
  function ItemsOf(gs: seq<Group<User>>, k: string): seq<User>
    requires k in Keys(gs)
  {
    gs[IndexOf(Keys(gs), k)].items
  }

  /** The rendered groups: the keys of the grouping object, sorted, each with its users. */
  function Sections(users: seq<User>): (r: seq<Section>)
    ensures multiset(SectionLetters(r)) == multiset(Keys(GroupBy(users, LetterKey)))
  {
    var gs := GroupBy(users, LetterKey);
    var letters := Sort(Keys(gs), DefaultOrder());
    forall i | 0 <= i < |letters| ensures letters[i] in Keys(gs) {
      assert letters[i] in multiset(Keys(gs));
    }
    SectionsOf(gs, letters)
  }

  /** One section per letter, in the order of `letters`. */
  function SectionsOf(gs: seq<Group<User>>, letters: seq<string>): (r: seq<Section>)
    requires forall i :: 0 <= i < |letters| ==> letters[i] in Keys(gs)
    ensures SectionLetters(r) == letters
  {
    seq(|letters|, i requires 0 <= i < |letters| => Section(letters[i], ItemsOf(gs, letters[i])))
  }

  /** A section lists exactly the users filed under its letter, in input order, and is
      never empty. */
  lemma SectionUsers(users: seq<User>, i: int)
    ensures 0 <= i < |Sections(users)| ==>
              Sections(users)[i].users == Filter(users, KeyIs(LetterKey, Sections(users)[i].letter))
    ensures 0 <= i < |Sections(users)| ==> Sections(users)[i].users != []
  {
    if 0 <= i < |Sections(users)| {
      var gs := GroupBy(users, LetterKey);
      var k := Sections(users)[i].letter;
      assert SectionLetters(Sections(users))[i] == k;
      assert k in multiset(Keys(gs));
      var j := IndexOf(Keys(gs), k);
      assert gs[j].key == k;
    }
  }

  /** The sections are in strictly ascending letter order. */
  lemma SectionsAscending(users: seq<User>)
    ensures Sorted(SectionLetters(Sections(users)), DefaultOrder())
    ensures NoDuplicates(SectionLetters(Sections(users)))
  {
    var gs := GroupBy(users, LetterKey);
    var letters := Sort(Keys(gs), DefaultOrder());
    DefaultOrderTotalPreorder();
    SortSorted(Keys(gs), DefaultOrder());
    PermutationNoDuplicates(Keys(gs), letters);
    assert SectionLetters(Sections(users)) == letters;
  }

  /** Every user is listed in exactly one section: the one of its own letter. */
  lemma InExactlyOneSection(users: seq<User>, u: User, i: int)
    requires u in users
    ensures LetterKey(u) in SectionLetters(Sections(users))
    ensures 0 <= i < |Sections(users)| ==>
              (u in Sections(users)[i].users <==> Sections(users)[i].letter == LetterKey(u))
  {
    var gs := GroupBy(users, LetterKey);
    assert LetterKey(u) in multiset(Keys(gs));
    SectionUsers(users, i);
  }

  /** `handleLetterClick`: the section to scroll to, or nothing when no section has that
      letter. */
  function JumpTarget(sections: seq<Section>, letter: string): (r: Option<nat>)
    ensures r.None? <==> letter !in SectionLetters(sections)
    ensures r.Some? ==> r.value < |sections| && sections[r.value].letter == letter
  {
    if letter in SectionLetters(sections) then Some(IndexOf(SectionLetters(sections), letter)) else None
  }

  /** A table row: first name, last name, and e-mail and title with "-" for a missing
      value. */
  datatype Row = Row(firstName: string, lastName: string, email: string, title: string)

  function RenderRow(u: User): (r: Row)
    ensures r.firstName == u.firstName && r.lastName == u.lastName
    ensures r.email == "-" <==> u.email == "" || u.email == "-"
    ensures u.email != "" ==> r.email == u.email
    ensures r.title == "-" <==> u.title.None? || u.title.value == "" || u.title.value == "-"
    ensures r.title != "-" ==> u.title == Some(r.title)
  {
    Row(u.firstName, u.lastName,
        if u.email == "" then "-" else u.email,
        if u.title.None? || u.title.value == "" then "-" else u.title.value)
  }
}
