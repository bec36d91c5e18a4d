/** The data service: the mapping of back-end projects to view projects, the collection
    of distinct users over all project members, and the shape checks `fetchData` performs
    on the response. The request itself is an input: a `Response` value. */
module DataService {
  import opened Wrappers
  import opened Seqs
  import opened Api
  import opened Decimal

  // ---------------------------------------------------------------------------------
  // Mapping

  /** The full name shown for a member: first name, one space, last name. */
  function FullName(u: User): string {
    u.firstName + " " + u.lastName
  }

  /** A member entry in view form; reading `user.id` of a `null` user throws, which is
      `None` here. */
  function MapMember(m: ProjectMember): (r: Option<Member>)
    ensures r.Some? <==> m.user.Some?
    ensures r.Some? ==> r.value.id == m.user.value.id && r.value.role == m.role
    ensures r.Some? ==> r.value.name == m.user.value.firstName + " " + m.user.value.lastName
  {
    if m.user.None? then None else Some(Member(m.user.value.id, FullName(m.user.value), m.role))
  }

  /** All members in view form, or `None` as soon as one of them has no user. */
  function MapMembers(ms: seq<ProjectMember>): (r: Option<seq<Member>>)
    ensures r.Some? <==> forall i :: 0 <= i < |ms| ==> ms[i].user.Some?
    ensures r.Some? ==> |r.value| == |ms| &&
                        forall i :: 0 <= i < |ms| ==> Some(r.value[i]) == MapMember(ms[i])
  {
    if ms == [] then Some([])
    else
      var head, rest := MapMember(ms[0]), MapMembers(ms[1..]);
      assert forall i :: 0 < i < |ms| ==> ms[i] == ms[1..][i - 1];
      if head.Some? && rest.Some? then
        var r := [head.value] + rest.value;
        assert forall i :: 0 < i < |ms| ==> r[i] == rest.value[i - 1];
        Some(r)
      else None
  }

  /** `mapApiProjectToAppProject`; absent members or communications count as empty. */
  function MapProject(p: ApiProject): (r: Option<Project>)
    ensures r.Some? <==> forall i :: 0 <= i < |p.members.GetOr([])| ==> p.members.GetOr([])[i].user.Some?
    ensures r.Some? ==> |r.value.members| == |p.members.GetOr([])|
    ensures r.Some? ==> forall i :: 0 <= i < |r.value.members| ==>
                          Some(r.value.members[i]) == MapMember(p.members.GetOr([])[i])
    ensures r.Some? ==> r.value.id == IntToString(p.id) && r.value.title == p.name
    ensures r.Some? ==> r.value.communications == p.communications.GetOr([])
    ensures r.Some? ==> r.value.description == p.description && r.value.shortNameSlug == p.shortNameSlug
    ensures r.Some? ==> r.value.alterProjectNo == p.alterProjectNo && r.value.employer == p.employer
    ensures r.Some? ==> r.value.location == p.location && r.value.country == p.country
  {
    match MapMembers(p.members.GetOr([]))
    case None => None
    case Some(members) =>
      Some(Project(
        id := IntToString(p.id),
        title := p.name,
        shortNameSlug := p.shortNameSlug,
        members := members,
        alterProjectNo := p.alterProjectNo,
        employer := p.employer,
        location := p.location,
        country := p.country,
        communications := p.communications.GetOr([]),
        description := p.description))
  }

  /** Every project mapped, or `None` when one of them throws. */
  function MapProjects(ps: seq<ApiProject>): (r: Option<seq<Project>>)
    ensures r.Some? <==> forall i :: 0 <= i < |ps| ==> MapProject(ps[i]).Some?
    ensures r.Some? ==> |r.value| == |ps| &&
                        forall i :: 0 <= i < |ps| ==> Some(r.value[i]) == MapProject(ps[i])
  {
    if ps == [] then Some([])
    else
      var head, rest := MapProject(ps[0]), MapProjects(ps[1..]);
      assert forall i :: 0 < i < |ps| ==> ps[i] == ps[1..][i - 1];
      if head.Some? && rest.Some? then
        var r := [head.value] + rest.value;
        assert forall i :: 0 < i < |ps| ==> r[i] == rest.value[i - 1];
        Some(r)
      else None
  }

  // ---------------------------------------------------------------------------------
  // Distinct users

  function UserId(u: User): int { u.id }

  function UserIds(us: seq<User>): (r: seq<int>)
    ensures |r| == |us| && forall i :: 0 <= i < |us| ==> r[i] == us[i].id
  {
    Map(us, UserId)
  }

  lemma IdInUserIds(us: seq<User>, u: User)
    requires u in us
    ensures u.id in UserIds(us)
  {
    var i :| 0 <= i < |us| && us[i] == u;
    assert UserIds(us)[i] == u.id;
  }

  /** The non-null users of a member list, in order. */
  function PresentUsers(ms: seq<ProjectMember>): (r: seq<User>)
    ensures forall u :: u in r <==> exists i :: 0 <= i < |ms| && ms[i].user == Some(u)
  {
    if ms == [] then []
    else
      var rest := PresentUsers(ms[1..]);
      assert forall i :: 0 < i < |ms| ==> ms[i] == ms[1..][i - 1];
      (if ms[0].user.Some? then [ms[0].user.value] else []) + rest
  }

  /** The member users of all projects: project order, then member order. */
  function MemberUsers(ps: seq<ApiProject>): (r: seq<User>)
    ensures forall u :: u in r <==> exists i :: 0 <= i < |ps| && u in PresentUsers(ps[i].members.GetOr([]))
  {
    if ps == [] then []
    else
      var rest := MemberUsers(ps[1..]);
      assert forall i :: 0 < i < |ps| ==> ps[i] == ps[1..][i - 1];
      PresentUsers(ps[0].members.GetOr([])) + rest
  }

  /** The users as an insertion-ordered map keyed by id, filled in order, where an id
      already present is not overwritten (`if (!map.has(id)) map.set(id, user)`). */
  function FirstById(us: seq<User>): (r: seq<User>)
    ensures NoDuplicates(UserIds(r))
    ensures forall v :: v in r ==> v in us
    ensures forall id :: id in UserIds(r) <==> id in UserIds(us)
  {
    if us == [] then []
    else
      var init, last := us[..|us| - 1], us[|us| - 1];
      assert us == init + [last];
      var r := FirstById(init);
      FirstByIdStep(r, init, last);
      if last.id in UserIds(r) then r else r + [last]
  }

  lemma UserIdsSnoc(us: seq<User>, u: User)
    ensures UserIds(us + [u]) == UserIds(us) + [u.id]
  {
  }

  lemma FirstByIdStep(r: seq<User>, init: seq<User>, last: User)
    requires NoDuplicates(UserIds(r))
    requires forall v :: v in r ==> v in init
    requires forall id :: id in UserIds(r) <==> id in UserIds(init)
    ensures var r' := if last.id in UserIds(r) then r else r + [last];
            && NoDuplicates(UserIds(r'))
            && (forall v :: v in r' ==> v in init + [last])
            && (forall id :: id in UserIds(r') <==> id in UserIds(init + [last]))
  {
    UserIdsSnoc(init, last);
    UserIdsSnoc(r, last);
  }

  /** The reference: a user is kept exactly when no earlier user has its id. */
  function FirstOccurrences(us: seq<User>): seq<User> {
    if us == [] then []
    else
      var init, last := us[..|us| - 1], us[|us| - 1];
      FirstOccurrences(init) + (if last.id in UserIds(init) then [] else [last])
  }

  /** Filling the map keeps, in order, exactly the users whose id has not occurred
      earlier: the first user with each id, in the order the ids first occur. */
  lemma {:induction false} FirstByIdKeepsFirstOccurrences(us: seq<User>)
    ensures FirstById(us) == FirstOccurrences(us)
  {
    if us != [] {
      FirstByIdKeepsFirstOccurrences(us[..|us| - 1]);
    }
  }

  /** A user whose id does not occur earlier is kept. */
  lemma {:induction false} FirstOccurrenceKept(us: seq<User>, i: nat)
    requires i < |us| && us[i].id !in UserIds(us[..i])
    ensures us[i] in FirstOccurrences(us)
    decreases |us|
  {
    var init, last := us[..|us| - 1], us[|us| - 1];
    if i < |us| - 1 {
      assert init[..i] == us[..i] && init[i] == us[i];
      FirstOccurrenceKept(init, i);
    } else {
      assert us[..i] == init;
    }
  }

  /** Every kept user sits at a position where its id has not occurred before. */
  lemma {:induction false} OnlyFirstOccurrences(us: seq<User>, v: User)
    requires v in FirstOccurrences(us)
    ensures exists i :: 0 <= i < |us| && us[i] == v && v.id !in UserIds(us[..i])
    decreases |us|
  {
    var init, last := us[..|us| - 1], us[|us| - 1];
    if v in FirstOccurrences(init) {
      OnlyFirstOccurrences(init, v);
      var i :| 0 <= i < |init| && init[i] == v && v.id !in UserIds(init[..i]);
      assert us[..i] == init[..i] && us[i] == init[i];
    } else {
      assert us[..|us| - 1] == init;
    }
  }

  /** The users collected by `fetchData`. */
  function UniqueUsers(ps: seq<ApiProject>): seq<User> {
    FirstById(MemberUsers(ps))
  }

  /** No two collected users share an id, and every present member user of every project
      has its id among them; a collected user is the first member user with that id. */
  lemma UniqueUsersSound(ps: seq<ApiProject>, i: int, j: int)
    requires 0 <= i < |ps| && 0 <= j < |ps[i].members.GetOr([])| && ps[i].members.GetOr([])[j].user.Some?
    ensures NoDuplicates(UserIds(UniqueUsers(ps)))
    ensures ps[i].members.GetOr([])[j].user.value.id in UserIds(UniqueUsers(ps))
  {
    var u := ps[i].members.GetOr([])[j].user.value;
    assert u in PresentUsers(ps[i].members.GetOr([]));
    assert u in MemberUsers(ps);
  }

  // ---------------------------------------------------------------------------------
  // Fetching

  /** The `projects` field of a parsed body. */
  datatype ProjectsField = Absent | NotAnArray | Projects(projects: seq<ApiProject>)

  /** The parsed body: JSON `null`, or an object with a `projects` field. */
  datatype Payload = NullPayload | Payload(projects: ProjectsField)

  /** What the request produced: a non-2xx status, a parsed body, or a thrown error
      (network failure or unparseable body). */
  datatype Response = NotOk(status: int) | Ok(body: Payload) | Failed

  datatype FetchResult = FetchResult(projects: seq<Project>, users: seq<User>)

  const Empty := FetchResult([], [])

  /** `fetchData` after the request: any failure, a missing body, a missing or non-array
      `projects` field, or a member without a user (which throws while mapping) gives the
      empty result; otherwise the mapped projects and the distinct member users. */
  function FetchData(resp: Response): (r: FetchResult)
    ensures (resp.NotOk? || resp.Failed?) ==> r == Empty
    ensures resp.Ok? && !resp.body.Payload? ==> r == Empty
    ensures resp.Ok? && resp.body.Payload? && !resp.body.projects.Projects? ==> r == Empty
    ensures resp.Ok? && resp.body.Payload? && resp.body.projects.Projects? ==>
              var ps := resp.body.projects.projects;
              if forall i :: 0 <= i < |ps| ==> MapProject(ps[i]).Some?
              then |r.projects| == |ps| && (forall i :: 0 <= i < |ps| ==> Some(r.projects[i]) == MapProject(ps[i]))
                   && r.users == UniqueUsers(ps)
              else r == Empty
  {
    match resp
    case NotOk(_) => Empty
    case Failed => Empty
    case Ok(body) =>
      if !body.Payload? || !body.projects.Projects? then Empty
      else
        var ps := body.projects.projects;
        match MapProjects(ps)
        case None => Empty
        case Some(projects) => FetchResult(projects, UniqueUsers(ps))
  }

  /** Every member shown in a fetched project is a collected user: the user list holds an
      entry with the member's id. */
  lemma MembersAreUsers(resp: Response, i: int, j: int)
    ensures 0 <= i < |FetchData(resp).projects| && 0 <= j < |FetchData(resp).projects[i].members| ==>
            FetchData(resp).projects[i].members[j].id in UserIds(FetchData(resp).users)
  {
    if 0 <= i < |FetchData(resp).projects| && 0 <= j < |FetchData(resp).projects[i].members| {
      var ps := resp.body.projects.projects;
      var m := ps[i].members.GetOr([])[j];
      UniqueUsersSound(ps, i, j);
    }
  }
}
