/** The project team popover: a search box narrows the member list by name, and the
    surviving members are shown as two name-sorted lists, administrators first. Names
    are ordered by a locale comparison `Compare` (see `Collation`). */
module TeamPopover {
  import opened Seqs
  import opened Sorting
  import opened Text
  import opened Api
  import opened Collation
  import opened Decimal

  /** The member's lowercased name contains the lowercased search term. */
  function Survives(term: string): Member -> bool {
    (m: Member) => Contains(Lower(m.name), Lower(term))
  }

  function ByName(compare: Compare): (Member, Member) -> bool {
    LeBy(compare, MemberName)
  }

  datatype Lists = Lists(admins: seq<Member>, others: seq<Member>)

  /** The memoised `admins` and `otherMembers`: the surviving members split by role, each
      part sorted by name. */
  function Partition(members: seq<Member>, term: string, compare: Compare): (r: Lists)
    ensures multiset(r.admins) == multiset(Filter(Filter(members, Survives(term)), IsAdmin))
    ensures multiset(r.admins) + multiset(r.others) == multiset(Filter(members, Survives(term)))
    ensures |r.admins| + |r.others| == |Filter(members, Survives(term))|
  {
    var found := Filter(members, Survives(term));
    var admins, others := Filter(found, IsAdmin), Filter(found, Not(IsAdmin));
    FilterPartition(found, IsAdmin);
    Lists(Sort(admins, ByName(compare)), Sort(others, ByName(compare)))
  }

  /** `admins` holds exactly the surviving administrators and `otherMembers` exactly the
      surviving members of any other role. */
  lemma PartitionMembers(members: seq<Member>, term: string, compare: Compare, m: Member)
    ensures m in Partition(members, term, compare).admins <==> m in members && Survives(term)(m) && IsAdmin(m)
    ensures m in Partition(members, term, compare).others <==> m in members && Survives(term)(m) && !IsAdmin(m)
  {
    var found := Filter(members, Survives(term));
    SortedPartMembers(found, IsAdmin, ByName(compare), m);
    SortedPartMembers(found, Not(IsAdmin), ByName(compare), m);
  }

  /** A sorted part holds exactly the members of the whole that pass its test. */
  lemma SortedPartMembers(found: seq<Member>, p: Member -> bool, le: (Member, Member) -> bool, m: Member)
    ensures m in Sort(Filter(found, p), le) <==> m in found && p(m)
  {
    assert m in Sort(Filter(found, p), le) <==> m in multiset(Sort(Filter(found, p), le));
  }

  /** An empty search term keeps every member. */
  lemma EmptyTermKeepsAll(members: seq<Member>)
    ensures Filter(members, Survives("")) == members
  {
    forall m | m in members ensures Survives("")(m) {
      ContainsEmpty(Lower(m.name));
    }
    FilterAll(members, Survives(""));
  }

  /** Both lists are ordered by name, and members with names the comparison cannot tell
      apart keep the order of the input. */
  lemma PartitionSorted(members: seq<Member>, term: string, compare: Compare, k: Member)
    requires IsCollation(compare)
    ensures Sorted(Partition(members, term, compare).admins, ByName(compare))
    ensures Sorted(Partition(members, term, compare).others, ByName(compare))
    ensures var found := Filter(members, Survives(term));
            Filter(Partition(members, term, compare).admins, EquivTo(ByName(compare), k)) ==
            Filter(Filter(found, IsAdmin), EquivTo(ByName(compare), k))
    ensures var found := Filter(members, Survives(term));
            Filter(Partition(members, term, compare).others, EquivTo(ByName(compare), k)) ==
            Filter(Filter(found, Not(IsAdmin)), EquivTo(ByName(compare), k))
  {
    var found := Filter(members, Survives(term));
    LeByTotalPreorder(compare, MemberName);
    SortSorted(Filter(found, IsAdmin), ByName(compare));
    SortSorted(Filter(found, Not(IsAdmin)), ByName(compare));
    SortStable(Filter(found, IsAdmin), ByName(compare), k);
    SortStable(Filter(found, Not(IsAdmin)), ByName(compare), k);
  }

  /** The list area: a "no member" message, or the administrators, an optional separator
      and the other members. */
  datatype Content = NoMembers | Listing(admins: seq<Member>, separator: bool, others: seq<Member>)

  const NoMembersText := "Üye bulunamadı."

  datatype Popover = Popover(trigger: string, content: Content)

  function Show(members: seq<Member>, term: string, compare: Compare): (v: Popover)
    ensures v.content.NoMembers? <==> Filter(members, Survives(term)) == []
    ensures v.content.Listing? ==>
              v.content.admins == Partition(members, term, compare).admins &&
              v.content.others == Partition(members, term, compare).others
    ensures v.content.Listing? ==> (v.content.separator <==> v.content.admins != [] && v.content.others != [])
  {
    var lists := Partition(members, term, compare);
    var content :=
      if |lists.admins| == 0 && |lists.others| == 0 then NoMembers
      else Listing(lists.admins, |lists.admins| > 0 && |lists.others| > 0, lists.others);
    Popover(IntToString(|members|) + " Üye", content)
  }

  /** The trigger shows the number of all members, whatever the search term. */
  lemma TriggerIgnoresSearch(members: seq<Member>, t1: string, t2: string, compare: Compare)
    ensures Show(members, t1, compare).trigger == Show(members, t2, compare).trigger
    ensures StartsWith(Show(members, t1, compare).trigger, IntToString(|members|))
  {
  }
}
