/** The client that follows the graph by patches: applyGraphPatch of apps/desktop/frontend/src/graph/patch.ts,
    fed by RefreshProject of apps/desktop/app.go. */
module GraphClient {
  import opened Common
  import opened GraphPatch
  import Identity

  /** A node as sent to the client: not everything a node has. */
  datatype View = View(id: string, path: string, kind: string, position: Vec3, activity: Identity.Activity)

  datatype Client = Client(revision: Option<int>, nodes: seq<View>, edges: seq<Edge>)

  datatype ClientPatch = ClientPatch(revision: int, added: seq<View>, updated: seq<View>, removed: seq<string>, edges: seq<Edge>)

  function ToView(p: Placed): View {
    View(p.node.id, p.node.path, p.node.kind, p.position, p.node.activity)
  }

  function ToViews(nodes: seq<Placed>): seq<View> {
    seq(|nodes|, i requires 0 <= i < |nodes| => ToView(nodes[i]))
  }

  function ToClientPatch(p: Patch): ClientPatch {
    ClientPatch(p.revision, ToViews(p.added), ToViews(p.updated), p.removed, p.edges)
  }

  function ToClient(s: Snapshot): Client {
    Client(Some(s.revision), ToViews(s.nodes), s.edges)
  }

  // ----- applying a patch -----

  function SetAll(m: map<string, View>, nodes: seq<View>): map<string, View> {
    if nodes == [] then m else SetAll(m, nodes[..|nodes| - 1])[nodes[|nodes| - 1].id := nodes[|nodes| - 1]]
  }

  function DeleteAll(m: map<string, View>, ids: seq<string>): map<string, View> {
    m - Elements(ids)
  }

  function Patched(m: map<string, View>, patch: ClientPatch): map<string, View> {
    SetAll(DeleteAll(m, patch.removed), patch.added + patch.updated)
  }

  function Nodes(c: Client): map<string, View> {
    SetAll(map[], c.nodes)
  }

  predicate Inside(m: map<string, View>, e: Edge) {
    e.source in m && e.target in m
  }

  function InsideOnly(m: map<string, View>, edges: seq<Edge>): seq<Edge> {
    if edges == [] then []
    else InsideOnly(m, edges[..|edges| - 1]) + if Inside(m, edges[|edges| - 1]) then [edges[|edges| - 1]] else []
  }

  predicate Stale(c: Client, patch: ClientPatch) {
    c.revision.Some? && patch.revision <= c.revision.value
  }

  /** next is what applying patch to c gives; the order of the nodes is a display matter. */
  ghost predicate Applied(c: Client, patch: ClientPatch, next: Client) {
    if Stale(c, patch) then next == c
    else
      && next.revision == Some(patch.revision)
      && Nodes(next) == Patched(Nodes(c), patch)
      && |next.nodes| == |Nodes(next)|
      && next.edges == InsideOnly(Patched(Nodes(c), patch), patch.edges)
  }

  ghost predicate Filed(m: map<string, View>) {
    forall id :: id in m ==> m[id].id == id
  }

  lemma {:induction false} SetAllFiled(m: map<string, View>, nodes: seq<View>)
    requires Filed(m)
    ensures Filed(SetAll(m, nodes))
  {
    if nodes != [] {
      SetAllFiled(m, nodes[..|nodes| - 1]);
    }
  }

  ghost predicate UniqueViews(nodes: seq<View>) {
    forall i, j :: 0 <= i < j < |nodes| ==> nodes[i].id != nodes[j].id
  }

  ghost predicate HasView(nodes: seq<View>, id: string) {
    exists i :: 0 <= i < |nodes| && nodes[i].id == id
  }

  /** Nodes listed once each are found as listed; the rest stays as it was. */
  lemma {:induction false} SetAllAt(m: map<string, View>, nodes: seq<View>, id: string)
    requires UniqueViews(nodes)
    ensures id in SetAll(m, nodes) <==> id in m || HasView(nodes, id)
    ensures forall i :: 0 <= i < |nodes| && nodes[i].id == id ==> SetAll(m, nodes)[id] == nodes[i]
    ensures id in m && !HasView(nodes, id) ==> SetAll(m, nodes)[id] == m[id]
  {
    if nodes != [] {
      var front := nodes[..|nodes| - 1];
      SetAllAt(m, front, id);
      assert HasView(nodes, id) <==> HasView(front, id) || nodes[|nodes| - 1].id == id;
    }
  }

  method SetEach(m: map<string, View>, nodes: seq<View>) returns (r: map<string, View>)
    ensures r == SetAll(m, nodes)
  {
    r := m;
    for i := 0 to |nodes|
      invariant r == SetAll(m, nodes[..i])
    {
      assert nodes[..i + 1][..i] == nodes[..i];
      r := r[nodes[i].id := nodes[i]];
    }
    assert nodes[..|nodes|] == nodes;
  }

  /** The nodes of the map, each once, in some order. */
  method Values(m: map<string, View>) returns (nodes: seq<View>)
    requires Filed(m)
    ensures Lists(m, nodes) && |nodes| == |m|
  {
    nodes := [];
    var left := m.Keys;
    while left != {}
      invariant left <= m.Keys && UniqueViews(nodes) && |nodes| + |left| == |m.Keys|
      invariant forall n :: n in nodes <==> n.id in m && n.id !in left && m[n.id] == n
      decreases |left|
    {
      var id :| id in left;
      left := left - {id};
      nodes := nodes + [m[id]];
    }
    assert |m| == |m.Keys|;
  }

  ghost predicate Lists(m: map<string, View>, nodes: seq<View>) {
    UniqueViews(nodes) && |nodes| == |m| && forall n :: n in nodes <==> n.id in m && m[n.id] == n
  }

  lemma ListsIndexed(m: map<string, View>, nodes: seq<View>)
    requires Filed(m) && Lists(m, nodes)
    ensures SetAll(map[], nodes) == m
  {
    forall id ensures Same(SetAll(map[], nodes), m, id) {
      SetAllAt(map[], nodes, id);
      if id in m {
        assert m[id] in nodes;
        var i :| 0 <= i < |nodes| && nodes[i] == m[id];
        assert nodes[i].id == id;
      } else {
        assert forall i :: 0 <= i < |nodes| ==> nodes[i] in nodes;
      }
    }
    EqualIffSame(SetAll(map[], nodes), m);
  }

  lemma ListsSorted(m: map<string, View>, nodes: seq<View>, collate: (View, View) -> bool)
    requires Lists(m, nodes)
    ensures Lists(m, Sort(collate, nodes))
  {
    var sorted := Sort(collate, nodes);
    SortMultiset(collate, nodes);
    SameMultiset(nodes, sorted);
    assert forall n :: n in nodes <==> n in Elements(nodes);
    assert forall n :: n in sorted <==> n in Elements(sorted);
    DistinctByMultiset(nodes, sorted);
  }

  method DeleteEach(m: map<string, View>, ids: seq<string>) returns (r: map<string, View>)
    ensures r == DeleteAll(m, ids)
  {
    r := m;
    for i := 0 to |ids|
      invariant r == DeleteAll(m, ids[..i])
    {
      assert Elements(ids[..i + 1]) == Elements(ids[..i]) + {ids[i]};
      r := r - {ids[i]};
    }
    assert ids[..|ids|] == ids;
  }

  method KeepInside(m: map<string, View>, edges: seq<Edge>) returns (kept: seq<Edge>)
    ensures kept == InsideOnly(m, edges)
  {
    kept := [];
    for i := 0 to |edges|
      invariant kept == InsideOnly(m, edges[..i])
    {
      assert edges[..i + 1][..i] == edges[..i];
      if edges[i].source in m && edges[i].target in m {
        kept := kept + [edges[i]];
      }
    }
    assert edges[..|edges|] == edges;
  }

  /** collate stands for the browser's comparison of paths. */
  method ApplyGraphPatch(snapshot: Client, patch: ClientPatch, collate: (View, View) -> bool) returns (next: Client)
    ensures Applied(snapshot, patch, next)
    ensures !Stale(snapshot, patch) && Orders(collate, Elements(next.nodes)) ==> SortedBy(collate, next.nodes)
  {
    hide SetAll, DeleteAll, InsideOnly, Filed, Lists;
    if snapshot.revision.Some? && patch.revision <= snapshot.revision.value {
      return snapshot;
    }
    var nodes := SetEach(map[], snapshot.nodes);
    nodes := DeleteEach(nodes, patch.removed);
    nodes := SetEach(nodes, patch.added + patch.updated);
    PatchedFiled(snapshot, patch);
    var values := Values(nodes);
    ListsSorted(nodes, values, collate);
    ListsIndexed(nodes, Sort(collate, values));
    SortElements(collate, values);
    var edges := KeepInside(nodes, patch.edges);
    next := Client(Some(patch.revision), Sort(collate, values), edges);
    if Orders(collate, Elements(next.nodes)) {
      DistinctViews(nodes, values);
      SortSorted(collate, values);
    }
  }

  lemma DistinctViews(m: map<string, View>, nodes: seq<View>)
    requires Lists(m, nodes)
    ensures Distinct(nodes)
  {
  }

  lemma PatchedFiled(snapshot: Client, patch: ClientPatch)
    ensures Filed(Patched(Nodes(snapshot), patch))
  {
    SetAllFiled(map[], snapshot.nodes);
    SetAllFiled(DeleteAll(Nodes(snapshot), patch.removed), patch.added + patch.updated);
  }

  // ----- when a patch brings the client to the backend's state -----

  /** What the backend's snapshot shows of each node. */
  function Shown(s: Snapshot): map<string, View> {
    map id | id in ById(s.nodes) :: ToView(ById(s.nodes)[id])
  }

  predicate Same(m: map<string, View>, n: map<string, View>, id: string) {
    (id in m <==> id in n) && (id in m ==> m[id] == n[id])
  }

  lemma {:induction false} ShownIsSent(nodes: seq<Placed>)
    ensures SetAll(map[], ToViews(nodes)) == map id | id in ById(nodes) :: ToView(ById(nodes)[id])
  {
    if nodes != [] {
      var front := nodes[..|nodes| - 1];
      ShownIsSent(front);
      assert ToViews(nodes)[..|nodes| - 1] == ToViews(front);
    }
  }

  lemma InitialShown(s: Snapshot)
    ensures Nodes(ToClient(s)) == Shown(s)
  {
    ShownIsSent(s.nodes);
  }

  /** A patch sets what differs between its two snapshots and leaves the rest alone. */
  lemma PatchedAt(c: map<string, View>, previous: Snapshot, current: Snapshot, patch: Patch, id: string)
    requires IsDiff(previous, current, patch)
    ensures var p := Patched(c, ToClientPatch(patch));
            Same(p, if Same(Shown(previous), Shown(current), id) then c else Shown(current), id)
  {
    var sent := ToClientPatch(patch);
    SentUnique(previous, current, patch);
    SetAllAt(DeleteAll(c, sent.removed), sent.added + sent.updated, id);
    SentAt(previous, current, patch, id);
    SentAsShown(previous, current, id);
    hide IsUpdated;
    assert id in patch.removed <==> id in Elements(sent.removed);
  }

  lemma SentUnique(previous: Snapshot, current: Snapshot, patch: Patch)
    requires IsDiff(previous, current, patch)
    ensures UniqueViews(ToViews(patch.added) + ToViews(patch.updated))
  {
    SortedUnique(patch.added);
    SortedUnique(patch.updated);
    forall i, j | 0 <= i < |patch.added| && 0 <= j < |patch.updated| ensures patch.added[i].node.id != patch.updated[j].node.id {
      assert patch.added[i] in patch.added && patch.updated[j] in patch.updated;
    }
  }

  lemma SortedUnique(nodes: seq<Placed>)
    requires SortedBy(IdLess, nodes)
    ensures UniquePlaced(nodes)
  {
    forall i, j | 0 <= i < j < |nodes| ensures nodes[i].node.id != nodes[j].node.id {
      StringLessIrreflexive(nodes[i].node.id);
      assert IdLess(nodes[i], nodes[j]);
    }
  }

  lemma PartAt(part: seq<Placed>, after: map<string, Placed>, wanted: bool, id: string)
    requires forall n :: n in part && n.node.id == id ==> wanted && id in after && n == after[id]
    requires wanted ==> id in after && after[id] in part && after[id].node.id == id
    ensures HasView(ToViews(part), id) <==> wanted
    ensures forall i :: 0 <= i < |part| && ToViews(part)[i].id == id ==> id in after && ToViews(part)[i] == ToView(after[id])
  {
    assert forall i :: 0 <= i < |part| ==> part[i] in part;
    if wanted {
      var k :| 0 <= k < |part| && part[k] == after[id];
      assert ToViews(part)[k].id == id;
    }
  }

  lemma HasViewEither(a: seq<View>, b: seq<View>, id: string)
    ensures HasView(a + b, id) <==> HasView(a, id) || HasView(b, id)
  {
    if HasView(a, id) {
      var i :| 0 <= i < |a| && a[i].id == id;
      assert (a + b)[i].id == id;
    } else if HasView(b, id) {
      var i :| 0 <= i < |b| && b[i].id == id;
      assert (a + b)[|a| + i].id == id;
    }
  }

  /** Which IDs a patch sets, and to what. */
  lemma SentAt(previous: Snapshot, current: Snapshot, patch: Patch, id: string)
    requires IsDiff(previous, current, patch)
    ensures var sent := ToViews(patch.added) + ToViews(patch.updated);
            var before, after := ById(previous.nodes), ById(current.nodes);
            && (HasView(sent, id) <==> IsAdded(before, after, id) || IsUpdated(before, after, id))
            && (forall i :: 0 <= i < |sent| && sent[i].id == id ==> id in after && sent[i] == ToView(after[id]))
  {
    var before, after := ById(previous.nodes), ById(current.nodes);
    PartAt(patch.added, after, IsAdded(before, after, id), id);
    PartAt(patch.updated, after, IsUpdated(before, after, id), id);
    hide ToViews, ToView, HasView, ById;
    HasViewEither(ToViews(patch.added), ToViews(patch.updated), id);
  }

  /** Only what the client can see of a node decides whether it is sent. */
  lemma SentAsShown(previous: Snapshot, current: Snapshot, id: string)
    ensures var before, after := ById(previous.nodes), ById(current.nodes);
            IsAdded(before, after, id) || IsUpdated(before, after, id)
            <==> id in Shown(current) && !Same(Shown(previous), Shown(current), id)
  {
    hide ById;
  }

  /** Whatever the client holds, a patch brings it to the backend's nodes exactly when it already has all the patch leaves alone. */
  lemma PatchLandsIff(c: map<string, View>, previous: Snapshot, current: Snapshot, patch: Patch)
    requires IsDiff(previous, current, patch)
    ensures Patched(c, ToClientPatch(patch)) == Shown(current)
            <==> forall id :: Same(Shown(previous), Shown(current), id) ==> Same(c, Shown(current), id)
  {
    hide Patched, Shown, IsDiff, Same;
    var p := Patched(c, ToClientPatch(patch));
    forall id ensures Same(p, Shown(current), id) <==> (Same(Shown(previous), Shown(current), id) ==> Same(c, Shown(current), id)) {
      PatchedAt(c, previous, current, patch, id);
      SameChain(p, if Same(Shown(previous), Shown(current), id) then c else Shown(current), Shown(current), id);
    }
    EqualIffSame(p, Shown(current));
  }

  lemma SameChain(m: map<string, View>, n: map<string, View>, o: map<string, View>, id: string)
    requires Same(m, n, id)
    ensures Same(m, o, id) <==> Same(n, o, id)
    ensures Same(o, o, id)
  {
  }

  lemma EqualIffSame(m: map<string, View>, n: map<string, View>)
    ensures m == n <==> forall id :: Same(m, n, id)
  {
    if forall id :: Same(m, n, id) {
      assert forall id :: Same(m, n, id) ==> (id in m <==> id in n);
    }
  }

  /** Skipping a patch is not always made good by the next: the client keeps a node the backend has dropped. */
  lemma SkippedPatchMayLinger(a: Placed, p0: Patch, p1: Patch)
    requires var s0 := Snapshot(0, [a], []);
             var s1 := Snapshot(1, [], []);
             IsDiff(s0, s1, p0) && IsDiff(s1, Snapshot(2, [], []), p1)
    ensures Patched(Nodes(ToClient(Snapshot(0, [a], []))), ToClientPatch(p1)) != Shown(Snapshot(2, [], []))
  {
    var s0, s1, s2 := Snapshot(0, [a], []), Snapshot(1, [], []), Snapshot(2, [], []);
    InitialShown(s0);
    assert ById([a]).Keys == {a.node.id};
    assert Same(Shown(s1), Shown(s2), a.node.id) && !Same(Shown(s0), Shown(s2), a.node.id);
    PatchLandsIff(Shown(s0), s1, s2, p1);
  }

  lemma {:induction false} InsideOnlyAll(m: map<string, View>, edges: seq<Edge>)
    requires forall i :: 0 <= i < |edges| ==> Inside(m, edges[i])
    ensures InsideOnly(m, edges) == edges
  {
    hide Inside;
    if edges != [] {
      var last := |edges| - 1;
      InsideOnlyAll(m, edges[..last]);
      assert Inside(m, edges[last]);
      assert edges == edges[..last] + [edges[last]];
    }
  }

  // ----- whole histories -----

  ghost predicate InStep(c: Client, s: Snapshot) {
    c.revision == Some(s.revision) && Nodes(c) == Shown(s) && c.edges == s.edges
  }

  /** Each snapshot follows the last by one revision, as RefreshProject makes them. */
  ghost predicate IsHistory(history: seq<Snapshot>) {
    && 0 < |history|
    && (forall k :: 0 <= k < |history| ==> history[k].revision == history[0].revision + k && EdgesAreInside(history[k]))
  }

  ghost predicate ArePatches(history: seq<Snapshot>, patches: seq<Patch>) {
    |patches| + 1 == |history| && forall k :: 0 <= k < |patches| ==> IsDiff(history[k], history[k + 1], patches[k])
  }

  /** How many patches have come through after the deliveries. */
  function Reached(deliveries: seq<nat>): nat {
    if deliveries == [] then 0 else Max(Reached(deliveries[..|deliveries| - 1]), deliveries[|deliveries| - 1] + 1)
  }

  /** Each patch that has not come before comes in its turn; earlier ones may come again at any time. */
  ghost predicate InOrder(deliveries: seq<nat>, patches: nat) {
    forall i :: 0 <= i < |deliveries| ==> deliveries[i] <= Reached(deliveries[..i]) && deliveries[i] < patches
  }

  ghost predicate Follows(patches: seq<Patch>, deliveries: seq<nat>, states: seq<Client>)
    requires forall i :: 0 <= i < |deliveries| ==> deliveries[i] < |patches|
  {
    && |states| == |deliveries| + 1
    && (forall i :: 0 <= i < |deliveries| ==> Applied(states[i], ToClientPatch(patches[deliveries[i]]), states[i + 1]))
  }

  lemma ShownHasIds(s: Snapshot, id: string)
    requires HasId(s, id)
    ensures id in Shown(s)
  {
    ByIdHas(s.nodes);
  }

  lemma {:induction false} ByIdHas(nodes: seq<Placed>)
    ensures forall i :: 0 <= i < |nodes| ==> nodes[i].node.id in ById(nodes)
  {
    if nodes != [] {
      ByIdHas(nodes[..|nodes| - 1]);
    }
  }

  lemma NextPatchKeepsInStep(c: Client, previous: Snapshot, current: Snapshot, patch: Patch, next: Client)
    requires IsDiff(previous, current, patch) && EdgesAreInside(current) && InStep(c, previous)
    requires previous.revision < current.revision
    requires Applied(c, ToClientPatch(patch), next)
    ensures InStep(next, current)
  {
    hide Shown, Patched, InsideOnly;
    PatchLandsIff(Shown(previous), previous, current, patch);
    forall i | 0 <= i < |current.edges| ensures Inside(Shown(current), current.edges[i]) {
      assert current.edges[i] in current.edges;
      ShownHasIds(current, current.edges[i].source);
      ShownHasIds(current, current.edges[i].target);
    }
    InsideOnlyAll(Shown(current), current.edges);
  }

  /** A client that starts from a snapshot and gets the patches in order, with any of the earlier ones
      interleaved again anywhere, is always in step with the newest snapshot it has heard of. */
  lemma {:induction false} ClientStaysInStep(history: seq<Snapshot>, patches: seq<Patch>, deliveries: seq<nat>, states: seq<Client>, n: nat)
    requires IsHistory(history) && ArePatches(history, patches) && InOrder(deliveries, |patches|)
    requires Follows(patches, deliveries, states) && states[0] == ToClient(history[0])
    requires n <= |deliveries|
    ensures Reached(deliveries[..n]) < |history|
    ensures InStep(states[n], history[Reached(deliveries[..n])])
  {
    hide IsDiff, Applied, InStep, ArePatches, EdgesAreInside;
    if n == 0 {
      StartsInStep(history[0]);
    } else {
      ClientStaysInStep(history, patches, deliveries, states, n - 1);
      assert deliveries[..n][..n - 1] == deliveries[..n - 1];
      DeliveryKeepsInStep(history, patches, Reached(deliveries[..n - 1]), deliveries[n - 1], states[n - 1], states[n]);
    }
  }

  lemma DeliveryKeepsInStep(history: seq<Snapshot>, patches: seq<Patch>, reached: nat, d: nat, c: Client, next: Client)
    requires IsHistory(history) && ArePatches(history, patches)
    requires reached < |history| && d <= reached && d < |patches|
    requires InStep(c, history[reached]) && Applied(c, ToClientPatch(patches[d]), next)
    ensures Max(reached, d + 1) < |history| && InStep(next, history[Max(reached, d + 1)])
  {
    hide IsDiff, Applied, InStep, EdgesAreInside;
    if d == reached {
      NextPatchKeepsInStep(c, history[d], history[d + 1], patches[d], next);
    } else {
      StalePatchIsIgnored(c, history[reached], patches[d], history[d], history[d + 1], next);
    }
  }

  lemma StartsInStep(s: Snapshot)
    ensures InStep(ToClient(s), s)
  {
    InitialShown(s);
  }

  lemma StalePatchIsIgnored(c: Client, s: Snapshot, patch: Patch, previous: Snapshot, current: Snapshot, next: Client)
    requires InStep(c, s) && IsDiff(previous, current, patch) && current.revision <= s.revision
    requires Applied(c, ToClientPatch(patch), next)
    ensures InStep(next, s)
  {
  }

  /** The backend's side of a refresh. */
  class Backend {
    const registry: Identity.IdentityRegistry
    const place: Placing
    var snapshot: Snapshot

    constructor (registry: Identity.IdentityRegistry, place: Placing, snapshot: Snapshot)
      ensures this.registry == registry && this.place == place && this.snapshot == snapshot
    {
      this.registry, this.place, this.snapshot := registry, place, snapshot;
    }

    /** The next snapshot in the history, and the patch that leads to it. */
    method RefreshProject(scanned: seq<Node>) returns (patch: Patch)
      modifies this, registry
      ensures registry.View() == Identity.After(registry.f, old(registry.View()), Identity.Assigns(scanned))
      ensures snapshot.revision == old(snapshot).revision + 1 && EdgesAreInside(snapshot)
      ensures IsDiff(old(snapshot), snapshot, patch)
      ensures exists all :: Identity.IsRefresh(registry.f, registry.byPath, scanned, all) && snapshot == LayoutOf(place, all, snapshot.revision)
      ensures (Identity.DistinctIds(registry.View()) && Distinct(Identity.Keys(registry.f, scanned)) && Identity.NoTombstones(scanned))
              ==> UniquePlaced(snapshot.nodes)
    {
      var nodes := Identity.RefreshNodes(registry, scanned);
      var next := Layout(place, nodes, snapshot.revision + 1);
      LayoutEdgesAreInside(place, nodes, snapshot.revision + 1);
      patch := Diff(snapshot, next);
      if Identity.UniqueIds(nodes) {
        LayoutKeepsUnique(place, nodes, snapshot.revision + 1);
      }
      snapshot := next;
    }
  }

  lemma LayoutKeepsUnique(place: Placing, nodes: seq<Node>, revision: int)
    requires Identity.UniqueIds(nodes)
    ensures UniquePlaced(LayoutOf(place, nodes, revision).nodes)
  {
    SortMultiset(Identity.ByPath, nodes);
    Identity.UniqueByMultiset(nodes, Sort(Identity.ByPath, nodes));
  }
}
