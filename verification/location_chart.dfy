/** The location chart: the projects grouped under their location, projects without a
    location under "Belirtilmemiş" ("unspecified"). */
module LocationChart {
  import opened Seqs
  import opened Api
  import opened Grouping

  const Unspecified := "Belirtilmemiş"

  const NotFoundText := "Proje bulunamadı."

  /** `project.location || "Belirtilmemiş"`. */
  function LocationKey(p: Project): (k: string)
    ensures k != ""
    ensures p.location != "" ==> k == p.location
    ensures p.location == "" ==> k == Unspecified
  {
    if p.location == "" then Unspecified else p.location
  }

  /** The members every plain object `{}` inherits from `Object.prototype`. Reading one
      of them from the grouping object gives a function (or the prototype itself), which
      is truthy, so no array is created and the following `push` throws a TypeError. */
  const InheritedNames: set<string> := {
    "constructor", "hasOwnProperty", "isPrototypeOf", "propertyIsEnumerable",
    "toLocaleString", "toString", "valueOf", "__proto__",
    "__defineGetter__", "__defineSetter__", "__lookupGetter__", "__lookupSetter__"}

  /** What the chart shows: nothing to show, the location tree, or nothing at all
      because grouping threw. */
  datatype View = NoProjects | Tree(groups: seq<Group<Project>>) | Threw

  /** Grouping runs first, and throws as soon as a project's location names an inherited
      member. Otherwise: the not-found message for no project, and else one group per
      location holding exactly that location's projects in input order, the locations in
      the order they first occur. */
  function Render(projects: seq<Project>): (v: View)
    ensures v.Threw? <==> exists p :: p in projects && LocationKey(p) in InheritedNames
    ensures v.NoProjects? <==> projects == []
    ensures v.Tree? ==> Groups(v.groups, projects, LocationKey)
    ensures v.Tree? ==> InFirstOccurrenceOrder(v.groups, projects, LocationKey)
    ensures v.Tree? ==> TotalSize(v.groups) == |projects|
  {
    if exists p :: p in projects && LocationKey(p) in InheritedNames then Threw
    else if |projects| == 0 then NoProjects
    else Tree(GroupBy(projects, LocationKey))
  }

  /** A location called "constructor" breaks the chart. */
  lemma ConstructorLocationThrows(projects: seq<Project>, p: Project)
    requires p in projects && p.location == "constructor"
    ensures Render(projects).Threw?
  {
    assert LocationKey(p) in InheritedNames;
  }

  /** When the chart shows its tree, the group keys are exactly the distinct effective
      locations, and every project sits in the group of its own location and in no
      other. */
  lemma GroupsAreLocations(projects: seq<Project>, p: Project, i: int)
    requires p in projects
    ensures Render(projects).Tree? ==>
              forall k :: k in Keys(Render(projects).groups) <==>
                          exists q :: q in projects && LocationKey(q) == k
    ensures Render(projects).Tree? && 0 <= i < |Render(projects).groups| ==>
              (p in Render(projects).groups[i].items <==> Render(projects).groups[i].key == LocationKey(p))
  {
    var v := Render(projects);
    if v.Tree? {
      var gs := GroupBy(projects, LocationKey);
      assert v.groups == gs;
      KeysAreElementKeys(projects, LocationKey);
      if 0 <= i < |gs| {
        InExactlyOneGroup(projects, LocationKey, p, i);
      }
    }
  }
}
