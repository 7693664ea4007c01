/** Layout order and edges, snapshot differences and the client that follows them:
    internal/graph/layout.go, apps/desktop/frontend/src/graph/patch.ts and RefreshProject of apps/desktop/app.go. */
module GraphPatch {
  import opened Common
  import Identity

  type Node = Identity.Node

  datatype Vec3 = Vec3(x: real, y: real, z: real)

  const ORIGIN := Vec3(0.0, 0.0, 0.0)

  datatype Placed = Placed(node: Node, position: Vec3)

  datatype Edge = Edge(source: string, target: string)

  datatype Snapshot = Snapshot(revision: int, nodes: seq<Placed>, edges: seq<Edge>)

  datatype Patch = Patch(revision: int, added: seq<Placed>, updated: seq<Placed>, removed: seq<string>, edges: seq<Edge>)

  // ----- layout -----

  /** Where a node goes, given all nodes in path order. */
  type Placing = (seq<Node>, Node) -> Vec3

  function PlaceOne(place: Placing, ordered: seq<Node>, n: Node): Placed {
    Placed(n, if n.kind == Identity.ROOT then ORIGIN else place(ordered, n))
  }

  function PlaceAll(place: Placing, ordered: seq<Node>): seq<Placed> {
    seq(|ordered|, i requires 0 <= i < |ordered| => PlaceOne(place, ordered, ordered[i]))
  }

  function IdsByPath(nodes: seq<Node>): map<string, string> {
    if nodes == [] then map[] else IdsByPath(nodes[..|nodes| - 1])[nodes[|nodes| - 1].path := nodes[|nodes| - 1].id]
  }

  function Links(nodes: seq<Node>, byPath: map<string, string>): seq<Edge> {
    if nodes == [] then []
    else
      var n := nodes[|nodes| - 1];
      Links(nodes[..|nodes| - 1], byPath)
      + if n.kind != Identity.ROOT && n.parentPath in byPath then [Edge(byPath[n.parentPath], n.id)] else []
  }

  function LayoutOf(place: Placing, nodes: seq<Node>, revision: int): Snapshot {
    var ordered := Sort(Identity.ByPath, nodes);
    Snapshot(revision, PlaceAll(place, ordered), Links(ordered, IdsByPath(ordered)))
  }

  method Layout(place: Placing, nodes: seq<Node>, revision: int) returns (snapshot: Snapshot)
    ensures snapshot == LayoutOf(place, nodes, revision)
  {
    var ordered := Sort(Identity.ByPath, nodes);
    assert ordered[..|ordered|] == ordered;
    var positioned: seq<Placed> := [];
    var byPath: map<string, string> := map[];
    for i := 0 to |ordered|
      invariant byPath == IdsByPath(ordered[..i])
      invariant positioned == PlaceAll(place, ordered)[..i]
    {
      assert ordered[..i + 1][..i] == ordered[..i];
      var node := ordered[i];
      byPath := byPath[node.path := node.id];
      var position := ORIGIN;
      if node.kind != Identity.ROOT {
        position := place(ordered, node);
      }
      positioned := positioned + [Placed(node, position)];
    }
    var edges: seq<Edge> := [];
    for i := 0 to |ordered|
      invariant edges == Links(ordered[..i], byPath)
    {
      assert ordered[..i + 1][..i] == ordered[..i];
      var node := ordered[i];
      if node.kind == Identity.ROOT {
        continue;
      }
      if node.parentPath in byPath {
        edges := edges + [Edge(byPath[node.parentPath], node.id)];
      }
    }
    snapshot := Snapshot(revision, positioned, edges);
  }

  /** The nodes stand in path order, the root in the middle and every other node where it is placed among them. */
  lemma LayoutPlaces(place: Placing, nodes: seq<Node>, revision: int)
    ensures var s := LayoutOf(place, nodes, revision);
            && s.revision == revision && |s.nodes| == |nodes|
            && forall i :: 0 <= i < |nodes| ==>
                 s.nodes[i].node == Sort(Identity.ByPath, nodes)[i]
                 && s.nodes[i].position == if s.nodes[i].node.kind == "root" then Vec3(0.0, 0.0, 0.0)
                                           else place(Sort(Identity.ByPath, nodes), s.nodes[i].node)
  {
    SortElements(Identity.ByPath, nodes);
    hide Sort, Links, IdsByPath;
  }

  lemma {:induction false} IdsByPathAt(nodes: seq<Node>)
    ensures forall p :: p in IdsByPath(nodes) <==> exists i :: 0 <= i < |nodes| && nodes[i].path == p
    ensures forall p :: p in IdsByPath(nodes) ==> exists i :: 0 <= i < |nodes| && nodes[i].path == p && nodes[i].id == IdsByPath(nodes)[p]
  {
    if nodes != [] {
      IdsByPathAt(nodes[..|nodes| - 1]);
    }
  }

  ghost predicate LinkFor(n: Node, byPath: map<string, string>, e: Edge) {
    n.kind != Identity.ROOT && n.parentPath in byPath && e == Edge(byPath[n.parentPath], n.id)
  }

  lemma {:induction false} LinksAre(nodes: seq<Node>, byPath: map<string, string>)
    ensures forall e :: e in Links(nodes, byPath) <==> exists i :: 0 <= i < |nodes| && LinkFor(nodes[i], byPath, e)
  {
    if nodes != [] {
      LinksAre(nodes[..|nodes| - 1], byPath);
    }
  }

  ghost predicate HasId(s: Snapshot, id: string) {
    exists i :: 0 <= i < |s.nodes| && s.nodes[i].node.id == id
  }

  ghost predicate EdgesAreInside(s: Snapshot) {
    forall e :: e in s.edges ==> HasId(s, e.source) && HasId(s, e.target)
  }

  /** Every edge of a layout joins two of its nodes. */
  lemma LayoutEdgesAreInside(place: Placing, nodes: seq<Node>, revision: int)
    ensures EdgesAreInside(LayoutOf(place, nodes, revision))
  {
    var s := LayoutOf(place, nodes, revision);
    var ordered := Sort(Identity.ByPath, nodes);
    var byPath := IdsByPath(ordered);
    forall e | e in s.edges ensures HasId(s, e.source) && HasId(s, e.target) {
      LinksAre(ordered, byPath);
      IdsByPathAt(ordered);
      var i :| 0 <= i < |ordered| && LinkFor(ordered[i], byPath, e);
      var j :| 0 <= j < |ordered| && ordered[j].path == ordered[i].parentPath && ordered[j].id == byPath[ordered[i].parentPath];
      assert s.nodes[i].node == ordered[i] && s.nodes[j].node == ordered[j];
    }
  }

  lemma IdsByPathOf(nodes: seq<Node>, a: Node)
    requires Identity.DistinctPaths(nodes) && a in nodes
    ensures a.path in IdsByPath(nodes) && IdsByPath(nodes)[a.path] == a.id
  {
    hide IdsByPath;
    IdsByPathAt(nodes);
  }

  /** Under distinct paths the edges are the parent relation: one from parent to child for each child whose parent is there. */
  lemma EdgesAreParenthood(place: Placing, nodes: seq<Node>, revision: int, a: Node, b: Node)
    requires Identity.DistinctPaths(nodes) && Identity.UniqueIds(nodes) && a in nodes && b in nodes
    ensures Edge(a.id, b.id) in LayoutOf(place, nodes, revision).edges <==> b.kind != Identity.ROOT && b.parentPath == a.path
  {
    var ordered := Sort(Identity.ByPath, nodes);
    SortMultiset(Identity.ByPath, nodes);
    SamePaths(nodes, ordered);
    Identity.UniqueByMultiset(nodes, ordered);
    assert a in Elements(nodes) && b in Elements(nodes);
    LinksAreParenthood(ordered, a, b);
  }

  lemma LinksAreParenthood(nodes: seq<Node>, a: Node, b: Node)
    requires Identity.DistinctPaths(nodes) && Identity.UniqueIds(nodes) && a in nodes && b in nodes
    ensures Edge(a.id, b.id) in Links(nodes, IdsByPath(nodes)) <==> b.kind != Identity.ROOT && b.parentPath == a.path
  {
    hide Links, IdsByPath;
    var byPath := IdsByPath(nodes);
    LinksAre(nodes, byPath);
    if b.kind != Identity.ROOT && b.parentPath == a.path {
      IdsByPathOf(nodes, a);
      var j :| 0 <= j < |nodes| && nodes[j] == b;
      assert LinkFor(nodes[j], byPath, Edge(a.id, b.id));
    }
    forall i | 0 <= i < |nodes| && LinkFor(nodes[i], byPath, Edge(a.id, b.id)) ensures b.kind != Identity.ROOT && b.parentPath == a.path {
      NoOtherLink(nodes, a, b, i);
    }
  }

  lemma NoOtherLink(nodes: seq<Node>, a: Node, b: Node, i: nat)
    requires Identity.DistinctPaths(nodes) && Identity.UniqueIds(nodes) && a in nodes && b in nodes && i < |nodes|
    requires LinkFor(nodes[i], IdsByPath(nodes), Edge(a.id, b.id))
    ensures b.kind != Identity.ROOT && b.parentPath == a.path
  {
    IdsByPathAt(nodes);
    var p := nodes[i].parentPath;
    var k :| 0 <= k < |nodes| && nodes[k].path == p && nodes[k].id == IdsByPath(nodes)[p];
    assert nodes[i] == b && nodes[k] == a;
  }

  lemma SamePaths(s: seq<Node>, t: seq<Node>)
    requires Identity.DistinctPaths(s) && multiset(s) == multiset(t)
    ensures Identity.DistinctPaths(t) && Elements(s) == Elements(t)
  {
    SameMultiset(s, t);
    DistinctByMultiset(s, t);
    forall i, j | 0 <= i < j < |t| ensures t[i].path != t[j].path {
      assert t[i] in multiset(t) && t[j] in multiset(t);
      assert t[i] in s && t[j] in s;
    }
  }

  /** The order in which a scan lists the nodes does not show. */
  lemma LayoutIgnoresOrder(place: Placing, s: seq<Node>, t: seq<Node>, revision: int)
    requires Identity.DistinctPaths(s) && multiset(s) == multiset(t)
    ensures LayoutOf(place, s, revision) == LayoutOf(place, t, revision)
  {
    SamePaths(s, t);
    Identity.ByPathOrders(s);
    DistinctByMultiset(s, t);
    SortSorted(Identity.ByPath, s);
    SortSorted(Identity.ByPath, t);
    SortElements(Identity.ByPath, s);
    SortElements(Identity.ByPath, t);
    SortedIsUnique(Identity.ByPath, Sort(Identity.ByPath, s), Sort(Identity.ByPath, t));
  }

  // ----- the difference of two snapshots -----

  function ById(nodes: seq<Placed>): (m: map<string, Placed>)
    ensures forall id :: id in m ==> m[id].node.id == id
  {
    if nodes == [] then map[] else ById(nodes[..|nodes| - 1])[nodes[|nodes| - 1].node.id := nodes[|nodes| - 1]]
  }

  predicate Changed(a: Placed, b: Placed) {
    a.node.path != b.node.path || a.node.kind != b.node.kind || a.position != b.position || a.node.activity != b.node.activity
  }

  predicate IdLess(a: Placed, b: Placed) {
    StringLess(a.node.id, b.node.id)
  }

  predicate IsAdded(before: map<string, Placed>, after: map<string, Placed>, id: string) {
    id in after && id !in before
  }

  predicate IsUpdated(before: map<string, Placed>, after: map<string, Placed>, id: string) {
    id in after && id in before && Changed(before[id], after[id])
  }

  predicate IsRemoved(before: map<string, Placed>, after: map<string, Placed>, id: string) {
    id in before && id !in after
  }

  /** What a patch between the two snapshots holds, each part in order of ID. */
  ghost predicate IsDiff(previous: Snapshot, current: Snapshot, patch: Patch) {
    var before, after := ById(previous.nodes), ById(current.nodes);
    && patch.revision == current.revision && patch.edges == current.edges
    && SortedBy(IdLess, patch.added) && SortedBy(IdLess, patch.updated) && SortedBy(StringLess, patch.removed)
    && (forall n :: n in patch.added <==> IsAdded(before, after, n.node.id) && after[n.node.id] == n)
    && (forall n :: n in patch.updated <==> IsUpdated(before, after, n.node.id) && after[n.node.id] == n)
    && (forall id :: id in patch.removed <==> IsRemoved(before, after, id))
  }

  ghost predicate UniquePlaced(nodes: seq<Placed>) {
    forall i, j :: 0 <= i < j < |nodes| ==> nodes[i].node.id != nodes[j].node.id
  }

  lemma IdLessOrders(nodes: seq<Placed>)
    requires UniquePlaced(nodes)
    ensures Orders(IdLess, Elements(nodes)) && Distinct(nodes)
  {
    StringLessOrders(set n <- nodes :: n.node.id);
  }

  lemma SortPlaced(nodes: seq<Placed>)
    requires UniquePlaced(nodes)
    ensures SortedBy(IdLess, Sort(IdLess, nodes))
    ensures forall n :: n in Sort(IdLess, nodes) <==> n in nodes
  {
    IdLessOrders(nodes);
    SortSorted(IdLess, nodes);
    SortElements(IdLess, nodes);
    assert forall n :: n in Sort(IdLess, nodes) <==> n in Elements(Sort(IdLess, nodes));
    assert forall n :: n in nodes <==> n in Elements(nodes);
  }

  lemma SortIds(ids: seq<string>)
    requires Distinct(ids)
    ensures SortedBy(StringLess, Sort(StringLess, ids))
    ensures forall id :: id in Sort(StringLess, ids) <==> id in ids
  {
    StringLessOrders(Elements(ids));
    SortSorted(StringLess, ids);
    SortElements(StringLess, ids);
    assert forall n :: n in Sort(StringLess, ids) <==> n in Elements(Sort(StringLess, ids));
    assert forall n :: n in ids <==> n in Elements(ids);
  }

  /** Though the maps are walked in no particular order, there is only one patch. */
  lemma DiffIsUnique(previous: Snapshot, current: Snapshot, p: Patch, q: Patch)
    requires IsDiff(previous, current, p) && IsDiff(previous, current, q)
    ensures p == q
  {
    SameSorted(p.added, q.added);
    SameSorted(p.updated, q.updated);
    assert Elements(p.removed) == Elements(q.removed);
    StringLessOrders(Elements(p.removed));
    SortedIsUnique(StringLess, p.removed, q.removed);
  }

  lemma SameSorted(s: seq<Placed>, t: seq<Placed>)
    requires SortedBy(IdLess, s) && SortedBy(IdLess, t) && forall n :: n in s <==> n in t
    ensures s == t
  {
    forall i, j | 0 <= i < j < |s| ensures s[i].node.id != s[j].node.id {
      StringLessIrreflexive(s[i].node.id);
      assert IdLess(s[i], s[j]);
    }
    IdLessOrders(s);
    assert Elements(s) == Elements(t);
    SortedIsUnique(IdLess, s, t);
  }

  method IndexById(nodes: seq<Placed>) returns (m: map<string, Placed>)
    ensures m == ById(nodes)
  {
    m := map[];
    for i := 0 to |nodes|
      invariant m == ById(nodes[..i])
    {
      assert nodes[..i + 1][..i] == nodes[..i];
      m := m[nodes[i].node.id := nodes[i]];
    }
    assert nodes[..|nodes|] == nodes;
  }

  method CollectNew(before: map<string, Placed>, after: map<string, Placed>) returns (added: seq<Placed>, updated: seq<Placed>)
    requires forall id :: id in after ==> after[id].node.id == id
    ensures UniquePlaced(added) && UniquePlaced(updated)
    ensures forall n :: n in added <==> IsAdded(before, after, n.node.id) && after[n.node.id] == n
    ensures forall n :: n in updated <==> IsUpdated(before, after, n.node.id) && after[n.node.id] == n
  {
    added, updated := [], [];
    var left := after.Keys;
    while left != {}
      invariant left <= after.Keys && UniquePlaced(added) && UniquePlaced(updated)
      invariant forall n :: n in added <==> n.node.id !in left && IsAdded(before, after, n.node.id) && after[n.node.id] == n
      invariant forall n :: n in updated <==> n.node.id !in left && IsUpdated(before, after, n.node.id) && after[n.node.id] == n
      decreases |left|
    {
      var id :| id in left;
      left := left - {id};
      var node := after[id];
      if id !in before {
        added := added + [node];
      } else if Changed(before[id], node) {
        updated := updated + [node];
      }
    }
  }

  method CollectRemoved(before: map<string, Placed>, after: map<string, Placed>) returns (removed: seq<string>)
    ensures Distinct(removed) && forall id :: id in removed <==> IsRemoved(before, after, id)
  {
    removed := [];
    var left := before.Keys;
    while left != {}
      invariant left <= before.Keys && Distinct(removed)
      invariant forall id :: id in removed <==> id !in left && IsRemoved(before, after, id)
      decreases |left|
    {
      var id :| id in left;
      left := left - {id};
      if id !in after {
        removed := removed + [id];
      }
    }
  }

  method Diff(previous: Snapshot, current: Snapshot) returns (patch: Patch)
    ensures IsDiff(previous, current, patch)
  {
    var before := IndexById(previous.nodes);
    var after := IndexById(current.nodes);
    var added, updated := CollectNew(before, after);
    var removed := CollectRemoved(before, after);
    SortPlaced(added);
    SortPlaced(updated);
    SortIds(removed);
    patch := Patch(current.revision, Sort(IdLess, added), Sort(IdLess, updated), Sort(StringLess, removed), current.edges);
  }
}
