/** The dashboard side bar: which navigation link is highlighted for the current path. */
module Nav {
  import opened Seqs
  import opened Text

  const Home := "/dashboard"

  /** The hrefs of the side-bar links, in order. */
  const NavLinks: seq<string> := [
    Home, "/dashboard/projects", "/dashboard/people", "/dashboard/correspondence",
    "/dashboard/schema", "/dashboard/tasks", "/dashboard/calendar", "/dashboard/forms"]

  /** A link is active when the path starts with its href; the home link only when the
      path is exactly its href. */
  predicate IsActive(pathname: string, href: string) {
    StartsWith(pathname, href) && (if href == Home then |pathname| == |href| else true)
  }

  function ActiveLinks(pathname: string): (r: seq<string>)
    ensures forall h :: h in r <==> h in NavLinks && IsActive(pathname, h)
  {
    Filter(NavLinks, (h: string) => IsActive(pathname, h))
  }

  /** The home link is active on the home path and nowhere else. */
  lemma HomeOnlyWhenExact(pathname: string)
    ensures IsActive(pathname, Home) <==> pathname == Home
  {
  }

  /** Other links match by plain prefix, not by path segment: "/dashboard/projectsX"
      activates the projects link. */
  lemma PrefixNotSegment()
    ensures IsActive("/dashboard/projectsX", "/dashboard/projects")
  {
    assert "/dashboard/projectsX"[..|"/dashboard/projects"|] == "/dashboard/projects";
  }

  /** No link other than home is a prefix of another link. */
  lemma LinksNotNested(i: int, j: int)
    requires 0 < i < |NavLinks| && 0 < j < |NavLinks| && i != j
    ensures !StartsWith(NavLinks[j], NavLinks[i])
  {
    var a, b := NavLinks[i], NavLinks[j];
    assert a[..11] == b[..11] == "/dashboard/";
    assert |a| <= |b| ==> b[..|a|][11] == b[11] && b[..|a|][12] == b[12] && b[..|a|][13] == b[13];
  }

  /** Every link starts with the home path. */
  lemma LinksUnderHome(i: int)
    requires 0 <= i < |NavLinks|
    ensures StartsWith(NavLinks[i], Home)
  {
  }

  /** At most one link is active, whatever the path. */
  lemma AtMostOneActive(pathname: string, i: int, j: int)
    requires 0 <= i < j < |NavLinks|
    ensures !(IsActive(pathname, NavLinks[i]) && IsActive(pathname, NavLinks[j]))
  {
    var a, b := NavLinks[i], NavLinks[j];
    if StartsWith(pathname, a) && StartsWith(pathname, b) {
      if i == 0 {
        assert |b| > |Home|;
      } else if |a| <= |b| {
        PrefixesComparable(pathname, a, b);
        LinksNotNested(i, j);
      } else {
        PrefixesComparable(pathname, b, a);
        LinksNotNested(j, i);
      }
    }
  }

  /** A path outside the dashboard activates no link. */
  lemma OutsideDashboardNoneActive(pathname: string, i: int)
    requires !StartsWith(pathname, Home) && 0 <= i < |NavLinks|
    ensures !IsActive(pathname, NavLinks[i])
  {
    if StartsWith(pathname, NavLinks[i]) {
      LinksUnderHome(i);
      PrefixTransitive(pathname, NavLinks[i], Home);
    }
  }
}
