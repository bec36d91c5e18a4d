/** The project organisation chart: one node per project, listing its members with the
    administrators first and an avatar made of the initials of the member's name. */
module ProjectChart {
  import opened Wrappers
  import opened Seqs
  import opened Text
  import opened Api

  /** `name.split(' ').map(n => n[0]).join('')`. */
  function Initials(name: string): (r: string)
    ensures r == WordStarts(name, true)
  {
    InitialsAreWordStarts(name);
    FirstChars(Split(name, " "))
  }

  /** The order in which a project node lists its members: the administrators, then the
      others; each member is listed as often as it occurs. */
  function RenderOrder(members: seq<Member>): (r: seq<Member>)
    ensures |r| == |members|
    ensures multiset(r) == multiset(members)
  {
    FilterPartition(members, IsAdmin);
    Filter(members, IsAdmin) + Filter(members, Not(IsAdmin))
  }

  /** Administrators come before every other member. */
  lemma AdminsFirst(members: seq<Member>, i: int, j: int)
    requires 0 <= i < j < |RenderOrder(members)| && IsAdmin(RenderOrder(members)[j])
    ensures IsAdmin(RenderOrder(members)[i])
  {
    var admins, others := Filter(members, IsAdmin), Filter(members, Not(IsAdmin));
    var r := RenderOrder(members);
    assert forall k :: |admins| <= k < |r| ==> r[k] == others[k - |admins|];
    assert forall k :: 0 <= k < |admins| ==> r[k] == admins[k];
  }

  /** Both groups keep the members' input order. */
  lemma RenderOrderKeepsInputOrder(members: seq<Member>)
    ensures Filter(RenderOrder(members), IsAdmin) == Filter(members, IsAdmin)
    ensures Filter(RenderOrder(members), Not(IsAdmin)) == Filter(members, Not(IsAdmin))
  {
    var admins, others := Filter(members, IsAdmin), Filter(members, Not(IsAdmin));
    FilterAppend(admins, others, IsAdmin);
    FilterAppend(admins, others, Not(IsAdmin));
    FilterAll(admins, IsAdmin);
    FilterNone(others, IsAdmin);
    FilterNone(admins, Not(IsAdmin));
    FilterAll(others, Not(IsAdmin));
  }

  /** A member row: avatar initials, name, and the administrator badge. */
  datatype UserRow = UserRow(id: int, initials: string, name: string, adminBadge: bool)

  function RenderUser(m: Member): (u: UserRow)
    ensures u.id == m.id && u.name == m.name
    ensures u.initials == WordStarts(m.name, true)
    ensures u.adminBadge <==> m.role == "admin"
  {
    UserRow(m.id, Initials(m.name), m.name, IsAdmin(m))
  }

  /** A project node; the member section is absent when the project has no member. */
  datatype Node = Node(title: string, description: string, slug: string, section: Option<seq<UserRow>>)

  function RenderProjectNode(p: Project): (n: Node)
    ensures n.title == p.title && n.slug == p.shortNameSlug
    ensures n.section.Some? <==> |p.members| > 0
    ensures n.section.Some? ==> |n.section.value| == |p.members|
    ensures n.section.Some? ==>
              forall i :: 0 <= i < |p.members| ==> n.section.value[i] == RenderUser(RenderOrder(p.members)[i])
  {
    var order := RenderOrder(p.members);
    Node(p.title, p.description, p.shortNameSlug,
         if |p.members| > 0 then Some(Map(order, RenderUser)) else None)
  }

  const NotFoundText := "Proje bulunamadı."

  datatype View = NoProjects | Chart(nodes: seq<Node>)

  function Render(projects: seq<Project>): (v: View)
    ensures v.NoProjects? <==> projects == []
    ensures v.Chart? ==> |v.nodes| == |projects|
    ensures v.Chart? ==> forall i :: 0 <= i < |projects| ==> v.nodes[i] == RenderProjectNode(projects[i])
  {
    if |projects| == 0 then NoProjects else Chart(Map(projects, RenderProjectNode))
  }
}
