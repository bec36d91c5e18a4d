/** A person's detail card: two-letter initials, the title with a fallback, and the
    contact rows shown only for the fields that are filled in. */
module PersonDetail {
  import opened Wrappers
  import opened Text
  import opened Api

  /** `s[0] || ''`: the first character, nothing for an empty string. */
  function FirstLetter(s: string): (r: string)
    ensures |r| <= 1
    ensures r == "" <==> s == ""
    ensures r != "" ==> r[0] == s[0]
  {
    if s == "" then "" else [s[0]]
  }

  /** The first letters of the first and the last name, upper-cased. */
  function Initials(u: User): (r: string)
    ensures r == Upper(FirstLetter(u.firstName)) + Upper(FirstLetter(u.lastName))
  {
    UpperAppend(FirstLetter(u.firstName), FirstLetter(u.lastName));
    Upper(FirstLetter(u.firstName) + FirstLetter(u.lastName))
  }

  /** An empty name contributes nothing; each non-empty one contributes the upper-case
      form of its first character. */
  lemma InitialsParts(u: User)
    ensures u.firstName == "" && u.lastName == "" ==> Initials(u) == ""
    ensures u.firstName == "" && u.lastName != "" ==> Initials(u) == UpperChar(u.lastName[0])
    ensures u.firstName != "" && u.lastName == "" ==> Initials(u) == UpperChar(u.firstName[0])
    ensures u.firstName != "" && u.lastName != "" ==> Initials(u) == UpperChar(u.firstName[0]) + UpperChar(u.lastName[0])
    ensures |Initials(u)| >= (if u.firstName == "" then 0 else 1) + (if u.lastName == "" then 0 else 1)
  {
    var f, l := FirstLetter(u.firstName), FirstLetter(u.lastName);
    assert f != "" ==> Upper(f) == UpperChar(f[0]) + Upper(f[1..]) && f[1..] == "";
    assert l != "" ==> Upper(l) == UpperChar(l[0]) + Upper(l[1..]) && l[1..] == "";
  }

  const NoTitle := "Unvan belirtilmemiş"

  /** The title under the name, "Unvan belirtilmemiş" ("no title given") when it is
      missing or empty. */
  function TitleText(u: User): (r: string)
    ensures r != ""
    ensures Filled(u.title) ==> r == u.title.value
    ensures !Filled(u.title) ==> r == NoTitle
  {
    if Filled(u.title) then u.title.value else NoTitle
  }

  /** A row of the contact list. */
  datatype Contact = EmailRow(address: string, href: string) | PhoneRow(number: string) | LocationRow(place: string)

  /** A text field counts as filled in when present and not empty. */
  predicate Filled(field: Option<string>) {
    field.Some? && field.value != ""
  }

  /** The contact rows: e-mail (linked with `mailto:`), phone and location, in that
      order, each only when its field is filled in. */
  function Contacts(u: User): (r: seq<Contact>)
    ensures |r| == (if u.email != "" then 1 else 0) + (if Filled(u.phone) then 1 else 0) +
                   (if Filled(u.location) then 1 else 0)
    ensures u.email != "" <==> EmailRow(u.email, "mailto:" + u.email) in r
    ensures Filled(u.phone) <==> PhoneRow(u.phone.GetOr("")) in r
    ensures Filled(u.location) <==> LocationRow(u.location.GetOr("")) in r
    ensures forall c :: c in r && c.EmailRow? ==> c.address == u.email && c.href == "mailto:" + u.email
    ensures forall c :: c in r && c.PhoneRow? ==> Some(c.number) == u.phone
    ensures forall c :: c in r && c.LocationRow? ==> Some(c.place) == u.location
    ensures forall i, j :: 0 <= i < j < |r| ==> Rank(r[i]) < Rank(r[j])
  {
    var email := if u.email != "" then [EmailRow(u.email, "mailto:" + u.email)] else [];
    var phone := if Filled(u.phone) then [PhoneRow(u.phone.value)] else [];
    var location := if Filled(u.location) then [LocationRow(u.location.value)] else [];
    email + phone + location
  }

  /** The position of a kind of row in the list. */
  function Rank(c: Contact): int {
    match c
    case EmailRow(_, _) => 0
    case PhoneRow(_) => 1
    case LocationRow(_) => 2
  }

  /** The card: initials, full name, title and contact rows. */
  datatype Card = Card(initials: string, fullName: string, title: string, contacts: seq<Contact>)

  function Render(u: User): (c: Card)
    ensures c.initials == Initials(u) && c.title == TitleText(u) && c.contacts == Contacts(u)
    ensures c.fullName == u.firstName + " " + u.lastName
  {
    Card(Initials(u), u.firstName + " " + u.lastName, TitleText(u), Contacts(u))
  }
}
