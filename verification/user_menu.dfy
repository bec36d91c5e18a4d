/** The account menu in the dashboard header: the signed-in user is restored from the
    browser's stored copy, and the trigger shows an avatar with initials and the name.
    The stored text and the JSON parser are parameters; logging out (a request and a
    redirect) is not modelled. */
module UserMenu {
  import opened Wrappers
  import opened Text

  /** The stored user; any field may be missing from the stored JSON. */
  datatype StoredUser = StoredUser(name: Option<string>, email: Option<string>, photo: Option<string>)

  /** What `JSON.parse` does with the stored text: throw, or give a user (`None` for `null`). */
  datatype Parsed = Threw | Value(user: Option<StoredUser>)

  /** The restored user, and whether the stored copy was deleted. */
  datatype Restored = Restored(user: Option<StoredUser>, removed: bool)

  /** The mount effect: nothing stored (or an empty string) leaves no user; text that
      does not parse is deleted and leaves no user; otherwise the parsed value is the
      user. */
  function Restore(stored: Option<string>, parse: string -> Parsed): (r: Restored)
    ensures r.removed <==> stored.Some? && stored.value != "" && parse(stored.value).Threw?
    ensures r.user.Some? ==> stored.Some? && parse(stored.value) == Value(r.user)
    ensures stored.Some? && stored.value != "" && parse(stored.value).Value? ==> r.user == parse(stored.value).user
  {
    match stored
    case None => Restored(None, false)
    case Some(text) =>
      if text == "" then Restored(None, false)
      else match parse(text)
        case Threw => Restored(None, true)
        case Value(u) => Restored(u, false)
  }

  /** The name as `user?.name` reads it: absent without a user or without a name. */
  function NameOf(user: Option<StoredUser>): Option<string> {
    if user.Some? then user.value.name else None
  }

  /** The avatar fallback: the upper-cased first letter of every space-separated word of
      the name, or "U" when that is empty. */
  function AvatarInitials(user: Option<StoredUser>): (r: string)
    ensures r != ""
    ensures NameOf(user).None? ==> r == "U"
    ensures NameOf(user).Some? && Upper(WordStarts(NameOf(user).value, true)) != "" ==>
              r == Upper(WordStarts(NameOf(user).value, true))
  {
    var name := NameOf(user);
    if name.None? then "U"
    else
      var letters := Upper(FirstChars(Split(name.value, " ")));
      InitialsAreWordStarts(name.value);
      if letters == "" then "U" else letters
  }

  /** The fallback "U" shows exactly when there is no name or the name is blank (only
      spaces), unless the initials themselves happen to be "U". */
  lemma FallbackForBlankName(user: Option<StoredUser>)
    ensures var name := NameOf(user);
            (name.None? || forall i :: 0 <= i < |name.value| ==> name.value[i] == ' ') ==>
              AvatarInitials(user) == "U"
    ensures var name := NameOf(user);
            name.Some? && (exists i :: 0 <= i < |name.value| && name.value[i] != ' ') ==>
              AvatarInitials(user) == Upper(WordStarts(name.value, true))
  {
    var name := NameOf(user);
    if name.Some? {
      NoWordStartsIffBlank(name.value);
      InitialsAreWordStarts(name.value);
      var w := WordStarts(name.value, true);
      if w != "" {
        assert |Upper(w)| >= 1;
      }
    }
  }

  /** The "first last" name of a person gives the same initials as the person page's
      two-letter initials: the upper-cased first letters of both names. */
  lemma TwoWordInitials(first: string, last: string)
    requires first != "" && last != ""
    requires forall i :: 0 <= i < |first| ==> first[i] != ' '
    requires forall i :: 0 <= i < |last| ==> last[i] != ' '
    ensures AvatarInitials(Some(StoredUser(Some(first + " " + last), None, None))) ==
            Upper([first[0]]) + Upper([last[0]])
  {
    var name := first + " " + last;
    WordStartsAppend(first + " ", last, true);
    WordStartsAppend(first, " ", true);
    WordStartsOfWord(first, true);
    WordStartsOfWord(last, true);
    assert WordStarts(" ", false) == "";
    assert WordStarts(name, true) == [first[0]] + [last[0]];
    UpperAppend([first[0]], [last[0]]);
    assert |Upper([first[0]]) + Upper([last[0]])| >= 2;
  }

  /** The name beside the avatar, "Kullanıcı" ("user") when there is none. */
  function DisplayName(user: Option<StoredUser>): (r: string)
    ensures r != ""
    ensures NameOf(user).Some? && NameOf(user).value != "" ==> r == NameOf(user).value
    ensures NameOf(user).None? || NameOf(user).value == "" ==> r == "Kullanıcı"
  {
    var name := NameOf(user);
    if name.Some? && name.value != "" then name.value else "Kullanıcı"
  }

  /** The trigger and the menu header: the avatar (a photo only when one is set), the
      display name, and the name and e-mail lines (empty when absent). */
  datatype Menu = Skeleton | Menu(photo: Option<string>, initials: string, displayName: string,
                                  headerName: string, headerEmail: string)

  function Render(mounted: bool, user: Option<StoredUser>): (v: Menu)
    ensures !mounted <==> v.Skeleton?
    ensures v.Menu? ==> v.initials == AvatarInitials(user) && v.displayName == DisplayName(user)
    ensures v.Menu? ==> (v.photo.Some? <==> user.Some? && user.value.photo.Some? && user.value.photo.value != "")
    ensures v.Menu? && v.photo.Some? ==> v.photo == user.value.photo
    ensures v.Menu? ==> v.headerName == NameOf(user).GetOr("")
    ensures v.Menu? ==> v.headerEmail == (if user.Some? then user.value.email.GetOr("") else "")
  {
    if !mounted then Skeleton
    else
      var photo := if user.Some? && user.value.photo.Some? && user.value.photo.value != "" then user.value.photo else None;
      Menu(photo, AvatarInitials(user), DisplayName(user), NameOf(user).GetOr(""),
           if user.Some? then user.value.email.GetOr("") else "")
  }
}
