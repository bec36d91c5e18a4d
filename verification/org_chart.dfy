/** The organisation chart: a flat list of units, each naming its parent by id, is linked
    into a forest (`buildTree` in the org-chart view). The forest is kept by id: `nodes`
    maps an id to its unit, `roots` lists the top-level ids and `children` lists, per
    id, the ids hung below it. Keying by id reproduces the source's shared node objects:
    two entries with the same id share one node and one children list. */
module OrgChart {
  import opened Wrappers
  import opened Seqs
  import opened Api

  datatype Forest = Forest(nodes: map<int, Unit>, roots: seq<int>, children: map<int, seq<int>>)

  /** What the view renders: the not-found text, or the forest under the company node. */
  datatype View = NoUnits | Chart(forest: Forest)

  const NotFoundText := "Birim bulunamadı."

  function IdOf(u: Unit): int { u.id }

  function IdsOf(us: seq<Unit>): (r: seq<int>)
    ensures |r| == |us|
    ensures forall i :: 0 <= i < |us| ==> r[i] == us[i].id
  {
    Map(us, IdOf)
  }

  function IdSet(us: seq<Unit>): set<int> {
    set u | u in us :: u.id
  }

  predicate DistinctIds(us: seq<Unit>) {
    NoDuplicates(IdsOf(us))
  }

  /** The unit stored under `id` after the indexing pass: the last one carrying it
      (see `FindIsLast`). */
  function Find(us: seq<Unit>, id: int): (r: Option<Unit>)
    ensures r.None? <==> id !in IdSet(us)
    ensures r.Some? ==> r.value in us && r.value.id == id
  {
    if us == [] then None
    else
      var init, last := us[..|us| - 1], us[|us| - 1];
      IdSetSnoc(init, last);
      if last.id == id then Some(last) else Find(init, id)
  }

  lemma IdSetSnoc(us: seq<Unit>, u: Unit)
    ensures IdSet(us + [u]) == IdSet(us) + {u.id}
  {
    assert forall w :: w in us + [u] <==> w in us || w == u;
  }

  lemma FindSnoc(us: seq<Unit>, u: Unit, id: int)
    ensures Find(us + [u], id) == if u.id == id then Some(u) else Find(us, id)
  {
    assert (us + [u])[..|us|] == us;
  }

  /** Later entries win: `Find` returns an entry with the id after which no entry has it. */
  lemma {:induction false} FindIsLast(us: seq<Unit>, id: int)
    requires id in IdSet(us)
    ensures exists i :: 0 <= i < |us| && us[i] == Find(us, id).value &&
                        forall j :: i < j < |us| ==> us[j].id != id
  {
    var init, last := us[..|us| - 1], us[|us| - 1];
    assert us == init + [last];
    if last.id != id {
      IdSetSnoc(init, last);
      FindIsLast(init, id);
      var i :| 0 <= i < |init| && init[i] == Find(init, id).value &&
               forall j :: i < j < |init| ==> init[j].id != id;
      assert us[i] == Find(us, id).value;
    } else {
      assert us[|us| - 1] == Find(us, id).value;
    }
  }

  /** A unit is placed at the top level when it has no parent id or its parent id is
      not the id of any unit. */
  function IsRootOf(items: seq<Unit>): Unit -> bool {
    (u: Unit) => u.parentId.None? || u.parentId.value !in IdSet(items)
  }

  function ChildOf(p: int): Unit -> bool {
    (u: Unit) => u.parentId == Some(p)
  }

  /** The top-level ids, in input order. */
  function RootIds(items: seq<Unit>): seq<int> {
    IdsOf(Filter(items, IsRootOf(items)))
  }

  /** The ids hung below `p`, in input order. */
  function ChildIds(items: seq<Unit>, p: int): seq<int> {
    IdsOf(Filter(items, ChildOf(p)))
  }

  lemma IdsOfSnoc(us: seq<Unit>, u: Unit)
    ensures IdsOf(us + [u]) == IdsOf(us) + [u.id]
  {
  }

  lemma FilterStep(items: seq<Unit>, i: nat, p: Unit -> bool)
    requires i < |items|
    ensures IdsOf(Filter(items[..i + 1], p)) ==
      IdsOf(Filter(items[..i], p)) + (if p(items[i]) then [items[i].id] else [])
  {
    assert items[..i + 1] == items[..i] + [items[i]];
    FilterSnoc(items[..i], items[i], p);
    if p(items[i]) {
      IdsOfSnoc(Filter(items[..i], p), items[i]);
    } else {
      assert Filter(items[..i], p) + [] == Filter(items[..i], p);
    }
  }

  /** The first pass: one node per id, holding the unit's fields and no children yet. */
  method IndexUnits(items: seq<Unit>) returns (nodes: map<int, Unit>, children: map<int, seq<int>>)
    ensures nodes.Keys == IdSet(items) && children.Keys == IdSet(items)
    ensures forall id :: id in nodes ==> Find(items, id) == Some(nodes[id])
    ensures forall id :: id in children ==> children[id] == []
  {
    nodes, children := map[], map[];
    var i := 0;
    while i < |items|
      invariant 0 <= i <= |items|
      invariant nodes.Keys == IdSet(items[..i]) && children.Keys == IdSet(items[..i])
      invariant forall id :: id in nodes ==> Find(items[..i], id) == Some(nodes[id])
      invariant forall id :: id in children ==> children[id] == []
    {
      assert items[..i + 1] == items[..i] + [items[i]];
      IdSetSnoc(items[..i], items[i]);
      forall id ensures Find(items[..i + 1], id) == if items[i].id == id then Some(items[i]) else Find(items[..i], id) {
        FindSnoc(items[..i], items[i], id);
      }
      nodes := nodes[items[i].id := items[i]];
      children := children[items[i].id := []];
      i := i + 1;
    }
    assert items[..i] == items;
  }

  /** Whether `u` is hung below a node: its parent id names one of `ids`. */
  predicate Hangs(u: Unit, ids: set<int>) {
    u.parentId.Some? && u.parentId.value in ids
  }

  /** The top-level ids after the first `i` units of the second pass. */
  function RootsUpTo(items: seq<Unit>, ids: set<int>, i: nat): seq<int>
    requires i <= |items|
  {
    if i == 0 then []
    else RootsUpTo(items, ids, i - 1) + (if Hangs(items[i - 1], ids) then [] else [items[i - 1].id])
  }

  /** The children of `p` after the first `i` units of the second pass. */
  function ChildrenUpTo(items: seq<Unit>, ids: set<int>, p: int, i: nat): seq<int>
    requires i <= |items|
  {
    if i == 0 then []
    else
      var u := items[i - 1];
      ChildrenUpTo(items, ids, p, i - 1) + (if Hangs(u, ids) && u.parentId.value == p then [u.id] else [])
  }

  lemma {:induction false} RootsUpToAreRoots(items: seq<Unit>, i: nat)
    requires i <= |items|
    ensures RootsUpTo(items, IdSet(items), i) == IdsOf(Filter(items[..i], IsRootOf(items)))
  {
    if i > 0 {
      RootsUpToAreRoots(items, i - 1);
      FilterStep(items, i - 1, IsRootOf(items));
    }
  }

  lemma {:induction false} ChildrenUpToAreChildren(items: seq<Unit>, p: int, i: nat)
    requires i <= |items| && p in IdSet(items)
    ensures ChildrenUpTo(items, IdSet(items), p, i) == ChildIds(items[..i], p)
  {
    if i > 0 {
      ChildrenUpToAreChildren(items, p, i - 1);
      FilterStep(items, i - 1, ChildOf(p));
    }
  }

  /** The second pass: in input order, a unit whose parent id names a node is appended to
      that node's children, and every other unit is appended to the top level. */
  method Link(items: seq<Unit>, nodes: map<int, Unit>, children0: map<int, seq<int>>)
    returns (roots: seq<int>, children: map<int, seq<int>>)
    requires nodes.Keys == IdSet(items) && children0.Keys == nodes.Keys
    requires forall id :: id in children0 ==> children0[id] == []
    ensures roots == RootIds(items)
    ensures children.Keys == nodes.Keys
    ensures forall p :: p in children ==> children[p] == ChildIds(items, p)
  {
    roots, children := [], children0;
    var i := 0;
    while i < |items|
      invariant 0 <= i <= |items|
      invariant roots == RootsUpTo(items, nodes.Keys, i)
      invariant children.Keys == nodes.Keys
      invariant forall p :: p in children ==> children[p] == ChildrenUpTo(items, nodes.Keys, p, i)
    {
      var u := items[i];
      if u.parentId.Some? && u.parentId.value in nodes {
        var p := u.parentId.value;
        children := children[p := children[p] + [u.id]];
      } else {
        roots := roots + [u.id];
      }
      i := i + 1;
    }
    assert items[..i] == items;
    RootsUpToAreRoots(items, i);
    forall p | p in children ensures children[p] == ChildIds(items, p) {
      ChildrenUpToAreChildren(items, p, i);
    }
  }

  /** `buildTree`: the two passes in sequence. */
  method BuildTree(items: seq<Unit>) returns (f: Forest)
    ensures f.nodes.Keys == IdSet(items) && f.children.Keys == IdSet(items)
    ensures forall id :: id in f.nodes ==> Find(items, id) == Some(f.nodes[id])
    ensures f.roots == RootIds(items)
    ensures forall p :: p in f.children ==> f.children[p] == ChildIds(items, p)
  {
    var nodes, children0 := IndexUnits(items);
    var roots, children := Link(items, nodes, children0);
    f := Forest(nodes, roots, children);
  }

  /** The view: a missing or empty unit list shows the not-found text and no tree. */
  method Render(units: Option<seq<Unit>>) returns (v: View)
    ensures v.NoUnits? <==> units.None? || units.value == []
    ensures v.Chart? ==> v.forest.roots == RootIds(units.value)
    ensures v.Chart? ==> forall p :: p in v.forest.children ==> v.forest.children[p] == ChildIds(units.value, p)
    ensures v.Chart? ==> v.forest.nodes.Keys == IdSet(units.value)
  {
    if units.None? || units.value == [] {
      return NoUnits;
    }
    var f := BuildTree(units.value);
    return Chart(f);
  }

  // ---------------------------------------------------------------------------------
  // Placement

  /** With distinct ids, an id names one unit. */
  lemma SameIdSameUnit(us: seq<Unit>, a: Unit, b: Unit)
    requires DistinctIds(us) && a in us && b in us
    ensures a.id == b.id ==> a == b
  {
    var i :| 0 <= i < |us| && us[i] == a;
    var j :| 0 <= j < |us| && us[j] == b;
    assert IdsOf(us)[i] == a.id && IdsOf(us)[j] == b.id;
  }

  lemma IdsOfFilterMember(us: seq<Unit>, p: Unit -> bool, u: Unit)
    requires DistinctIds(us) && u in us
    ensures u.id in IdsOf(Filter(us, p)) <==> p(u)
  {
    var r := Filter(us, p);
    if p(u) {
      assert u in r;
      var k :| 0 <= k < |r| && r[k] == u;
      assert IdsOf(r)[k] == u.id;
    }
    if u.id in IdsOf(r) {
      var k :| 0 <= k < |r| && IdsOf(r)[k] == u.id;
      SameIdSameUnit(us, r[k], u);
    }
  }

  lemma IdsOfFilterDistinct(us: seq<Unit>, p: Unit -> bool)
    requires DistinctIds(us)
    ensures NoDuplicates(IdsOf(Filter(us, p)))
  {
    var r := Filter(us, p);
    forall i, j | 0 <= i < j < |us| ensures us[i] != us[j] {
      assert IdsOf(us)[i] != IdsOf(us)[j];
    }
    FilterNoDuplicates(us, p);
    forall i, j | 0 <= i < j < |r| ensures IdsOf(r)[i] != IdsOf(r)[j] {
      SameIdSameUnit(us, r[i], r[j]);
    }
  }

  /** With distinct ids every unit is placed exactly once: at the top level when it has no
      parent id or its parent id names no unit, and otherwise in the children of exactly
      the unit its parent id names. No list holds an id twice. */
  lemma PlacedExactlyOnce(items: seq<Unit>, u: Unit)
    requires DistinctIds(items) && u in items
    ensures NoDuplicates(RootIds(items))
    ensures forall p :: NoDuplicates(ChildIds(items, p))
    ensures u.id in RootIds(items) <==> u.parentId.None? || u.parentId.value !in IdSet(items)
    ensures forall p :: p in IdSet(items) ==>
                          (u.id in ChildIds(items, p) <==> u.parentId == Some(p))
    ensures u.id in RootIds(items) ==> forall p :: p in IdSet(items) ==> u.id !in ChildIds(items, p)
  {
    IdsOfFilterDistinct(items, IsRootOf(items));
    forall p ensures NoDuplicates(ChildIds(items, p)) {
      IdsOfFilterDistinct(items, ChildOf(p));
    }
    IdsOfFilterMember(items, IsRootOf(items), u);
    forall p | p in IdSet(items) ensures u.id in ChildIds(items, p) <==> u.parentId == Some(p) {
      IdsOfFilterMember(items, ChildOf(p), u);
    }
  }

  /** A unit whose parent id names a unit is not at the top level, and no id but its
      parent's has it as a child. */
  lemma PlacedUnderParent(items: seq<Unit>, w: Unit, q: int)
    requires DistinctIds(items) && w in items
    requires w.parentId.Some? && w.parentId.value in IdSet(items)
    ensures w.id !in RootIds(items)
    ensures q != w.parentId.value ==> w.id !in ChildIds(items, q)
  {
    IdsOfFilterMember(items, IsRootOf(items), w);
    IdsOfFilterMember(items, ChildOf(q), w);
  }

  // ---------------------------------------------------------------------------------
  // Cycles

  /** The `n`-th ancestor of `u` by parent id, as far as the parent ids name units. */
  function Up(items: seq<Unit>, u: Unit, n: nat): Option<Unit>
    decreases n
  {
    if n == 0 then Some(u)
    else if u.parentId.None? then None
    else match Find(items, u.parentId.value)
      case None => None
      case Some(p) => Up(items, p, n - 1)
  }

  /** `u` lies on a parent cycle of length `k`; `k == 1` is a unit that is its own parent. */
  predicate OnCycle(items: seq<Unit>, u: Unit, k: nat) {
    k >= 1 && Up(items, u, k) == Some(u)
  }

  lemma {:induction false} UpAdd(items: seq<Unit>, u: Unit, a: nat, b: nat)
    requires Up(items, u, a).Some?
    ensures Up(items, u, a + b) == Up(items, Up(items, u, a).value, b)
    decreases a
  {
    if a > 0 {
      var p := Find(items, u.parentId.value).value;
      UpAdd(items, p, a - 1, b);
    }
  }

  lemma {:induction false} UpPrefix(items: seq<Unit>, u: Unit, m: nat, r: nat)
    requires Up(items, u, m).Some? && r <= m
    ensures Up(items, u, r).Some?
    decreases r
  {
    if r > 0 {
      var p := Find(items, u.parentId.value).value;
      UpPrefix(items, p, m - 1, r - 1);
    }
  }

  /** Every ancestor of a unit on a cycle exists: the chain never leaves the cycle. */
  lemma {:induction false} CycleAncestorsExist(items: seq<Unit>, u: Unit, k: nat, n: nat)
    requires OnCycle(items, u, k)
    ensures Up(items, u, n).Some?
    decreases n
  {
    if n <= k {
      UpPrefix(items, u, k, n);
    } else {
      UpAdd(items, u, k, n - k);
      CycleAncestorsExist(items, u, k, n - k);
    }
  }

  lemma {:induction false} UpInItems(items: seq<Unit>, u: Unit, n: nat)
    requires u in items && Up(items, u, n).Some?
    ensures Up(items, u, n).value in items
    decreases n
  {
    if n > 0 {
      var p := Find(items, u.parentId.value).value;
      UpInItems(items, p, n - 1);
    }
  }

  /** One step up the chain: the ancestor `j` of a unit on a cycle has a parent id that
      names ancestor `j + 1`. */
  lemma UpStep(items: seq<Unit>, u: Unit, k: nat, j: nat)
    requires u in items && OnCycle(items, u, k)
    ensures Up(items, u, j).Some? && Up(items, u, j + 1).Some?
    ensures Up(items, u, j).value in items
    ensures Up(items, u, j).value.parentId == Some(Up(items, u, j + 1).value.id)
    ensures Up(items, u, j + 1).value.id in IdSet(items)
  {
    CycleAncestorsExist(items, u, k, j);
    CycleAncestorsExist(items, u, k, j + 1);
    UpInItems(items, u, j);
    UpAdd(items, u, j, 1);
  }

  /** `path` starts at a top-level id and each next id is a child of the one before. */
  predicate IsPath(items: seq<Unit>, path: seq<int>) {
    && path != [] && path[0] in RootIds(items)
    && forall i :: 0 <= i < |path| - 1 ==> path[i + 1] in ChildIds(items, path[i])
  }

  /** Dropping the last id of a path leaves a path. */
  lemma PathPrefix(items: seq<Unit>, path: seq<int>)
    requires IsPath(items, path) && |path| > 1
    ensures IsPath(items, path[..|path| - 1])
  {
    var prefix := path[..|path| - 1];
    forall i | 0 <= i < |prefix| - 1 ensures prefix[i + 1] in ChildIds(items, prefix[i]) {
      assert prefix[i + 1] == path[i + 1] && prefix[i] == path[i];
    }
  }

  /** A path from a top-level id down the children lists never ends at an ancestor of a
      unit on a cycle. */
  lemma {:induction false} NoPathToCycle(items: seq<Unit>, u: Unit, k: nat, j: nat, path: seq<int>)
    requires DistinctIds(items) && u in items && OnCycle(items, u, k)
    requires IsPath(items, path)
    ensures Up(items, u, j).Some? && path[|path| - 1] != Up(items, u, j).value.id
    decreases |path|
  {
    UpStep(items, u, k, j);
    var w := Up(items, u, j).value;
    if |path| == 1 {
      PlacedUnderParent(items, w, 0);
      assert path[0] in RootIds(items);
    } else {
      var prefix := path[..|path| - 1];
      PathPrefix(items, path);
      NoPathToCycle(items, u, k, j + 1, prefix);
      var q := path[|path| - 2];
      assert q != Up(items, u, j + 1).value.id;
      PlacedUnderParent(items, w, q);
      assert path[|path| - 1] in ChildIds(items, q);
    }
  }

  /** A unit on a parent cycle, a self-parent included, is never placed at the top level
      and no path from the top level reaches it, so the chart never shows it. */
  lemma CycleUnreachable(items: seq<Unit>, u: Unit, k: nat, path: seq<int>)
    requires DistinctIds(items) && u in items && OnCycle(items, u, k)
    ensures u.id !in RootIds(items)
    ensures IsPath(items, path) ==> path[|path| - 1] != u.id
  {
    UpStep(items, u, k, 0);
    PlacedUnderParent(items, u, 0);
    if IsPath(items, path) {
      NoPathToCycle(items, u, k, 0, path);
    }
  }
}
