/** The records exchanged with the portal's back end and the shapes the views consume.
    Optional and nullable fields are `Option`s; a field that may be absent or `null`
    and is read with `|| []` is an `Option` of a sequence. */
module Api {
  import opened Wrappers

  /** A person as the back end sends it. */
  datatype User = User(
    id: int,
    firstName: string,
    lastName: string,
    email: string,
    title: Option<string>,
    phone: Option<string>,
    location: Option<string>)

  /** A membership entry of a project; `user` is `None` when the back end sends `null`. */
  datatype ProjectMember = ProjectMember(user: Option<User>, role: string)

  /** A piece of correspondence; the back end and the views use the same six fields. */
  datatype Communication = Communication(
    id: int,
    title: string,
    institution: string,
    direction: string,
    code: string,
    communicatedAt: string)

  /** A project as the back end sends it. */
  datatype ApiProject = ApiProject(
    id: int,
    name: string,
    shortName: string,
    shortNameSlug: string,
    members: Option<seq<ProjectMember>>,
    alterProjectNo: string,
    employer: string,
    location: string,
    country: string,
    communications: Option<seq<Communication>>,
    description: string)

  /** A project member as the views show it. */
  datatype Member = Member(id: int, name: string, role: string)

  /** The role value that marks a project administrator. */
  const AdminRole := "admin"

  predicate IsAdmin(m: Member) {
    m.role == AdminRole
  }

  function MemberName(m: Member): string {
    m.name
  }

  /** A project as the views consume it. */
  datatype Project = Project(
    id: string,
    title: string,
    shortNameSlug: string,
    members: seq<Member>,
    alterProjectNo: string,
    employer: string,
    location: string,
    country: string,
    communications: seq<Communication>,
    description: string)

  /** An organisational unit; `parentId` is `None` for a top-level unit. */
  datatype Unit = Unit(
    id: int,
    name: string,
    slug: string,
    parentId: Option<int>,
    createdAt: string,
    updatedAt: string,
    deletedAt: Option<string>,
    users: seq<User>)
}
