/** Node identity across refreshes and renames: internal/graph/identity.go. */
module Identity {
  import opened Common

  const ROOT := "root"
  const TOMBSTONE := "tombstone"

  /** groupKey and lastCommitAt decide a node's place; rest is everything else an activity carries. */
  datatype Activity = Activity(groupKey: string, lastCommitAt: int, rest: string)

  datatype Node = Node(id: string, path: string, parentPath: string, name: string, kind: string, size: int, activity: Activity)

  /** The path functions of the host, and the hash of the project and a key. */
  datatype Names = Names(key: string -> string, stable: string -> string,
                         clean: string -> string, base: string -> string, dir: string -> string)

  datatype State = State(byPath: map<string, Node>, aliases: map<string, seq<string>>)

  datatype Step = Assign(node: Node) | Rename(previous: string, next: string) | Delete(path: string)

  function Named(f: Names, s: State, node: Node): Node {
    var key := f.key(node.path);
    node.(id := if key in s.byPath then s.byPath[key].id else f.stable(key))
  }

  function AliasesOf(s: State, id: string): seq<string> {
    if id in s.aliases then s.aliases[id] else []
  }

  function Moved(f: Names, node: Node, next: string): Node {
    node.(path := f.clean(next), name := f.base(next), parentPath := f.dir(next))
  }

  function Apply(f: Names, s: State, step: Step): State {
    match step
    case Assign(node) => s.(byPath := s.byPath[f.key(node.path) := Named(f, s, node)])
    case Rename(previous, next) =>
      var key := f.key(previous);
      if key !in s.byPath then s else
        var node := s.byPath[key];
        State((s.byPath - {key})[f.key(next) := Moved(f, node, next)], s.aliases[node.id := AliasesOf(s, node.id) + [node.path]])
    case Delete(path) =>
      var key := f.key(path);
      if key !in s.byPath then s else s.(byPath := s.byPath[key := s.byPath[key].(kind := TOMBSTONE)])
  }

  const EMPTY := State(map[], map[])

  function After(f: Names, s: State, steps: seq<Step>): State {
    if steps == [] then s else Apply(f, After(f, s, steps[..|steps| - 1]), steps[|steps| - 1])
  }

  function Run(f: Names, steps: seq<Step>): State {
    After(f, EMPTY, steps)
  }

  lemma AfterNone(f: Names, s: State)
    ensures After(f, s, []) == s
  {
  }

  lemma AfterSnoc(f: Names, s: State, steps: seq<Step>, n: nat)
    requires n < |steps|
    ensures After(f, s, steps[..n + 1]) == Apply(f, After(f, s, steps[..n]), steps[n])
  {
    assert steps[..n + 1][..n] == steps[..n];
  }

  ghost predicate DistinctIds(s: State) {
    forall a, b :: a in s.byPath && b in s.byPath && a != b ==> s.byPath[a].id != s.byPath[b].id
  }

  ghost predicate Injective(stable: string -> string) {
    forall a, b :: stable(a) == stable(b) ==> a == b
  }

  // ----- where each node was born, told from the steps alone -----

  /** For each key in use, the key under which the node now there was first assigned. */
  function Births(f: Names, steps: seq<Step>): map<string, string> {
    if steps == [] then map[] else BirthsAfter(f, Births(f, steps[..|steps| - 1]), steps[|steps| - 1])
  }

  function BirthsAfter(f: Names, births: map<string, string>, step: Step): map<string, string> {
    match step
    case Assign(node) => var key := f.key(node.path); if key in births then births else births[key := key]
    case Rename(previous, next) =>
      var key := f.key(previous); if key !in births then births else (births - {key})[f.key(next) := births[key]]
    case Delete(_) => births
  }

  lemma {:induction false} IdsAreBirths(f: Names, steps: seq<Step>)
    ensures Run(f, steps).byPath.Keys == Births(f, steps).Keys
    ensures forall k :: k in Births(f, steps) ==> Run(f, steps).byPath[k].id == f.stable(Births(f, steps)[k])
  {
    if steps != [] {
      var before := steps[..|steps| - 1];
      IdsAreBirths(f, before);
      IdsAreBirthsStep(f, Run(f, before), Births(f, before), steps[|steps| - 1]);
    }
  }

  lemma IdsAreBirthsStep(f: Names, s: State, births: map<string, string>, step: Step)
    requires s.byPath.Keys == births.Keys && forall k :: k in births ==> s.byPath[k].id == f.stable(births[k])
    ensures Apply(f, s, step).byPath.Keys == BirthsAfter(f, births, step).Keys
    ensures forall k :: k in BirthsAfter(f, births, step) ==> Apply(f, s, step).byPath[k].id == f.stable(BirthsAfter(f, births, step)[k])
  {
  }

  /** The step assigns a free key although the node born at that key lives on under another. */
  predicate Reborn(f: Names, births: map<string, string>, step: Step) {
    step.Assign? && f.key(step.node.path) !in births && f.key(step.node.path) in births.Values
  }

  ghost predicate DistinctBirths(births: map<string, string>) {
    forall a, b :: a in births && b in births && a != b ==> births[a] != births[b]
  }

  lemma BirthsStep(f: Names, births: map<string, string>, step: Step)
    requires DistinctBirths(births)
    ensures DistinctBirths(BirthsAfter(f, births, step)) <==> !Reborn(f, births, step)
  {
    if Reborn(f, births, step) {
      var key := f.key(step.node.path);
      var k :| k in births && births[k] == key;
      var after := BirthsAfter(f, births, step);
      assert k in after && key in after && after[k] == after[key];
    } else if step.Assign? {
      assert forall k :: k in births ==> births[k] in births.Values;
    }
  }

  /** IDs stay distinct all along exactly when no key is assigned anew while the node born there lives on. */
  lemma {:induction false} DistinctThroughoutIff(f: Names, steps: seq<Step>)
    requires Injective(f.stable)
    ensures (forall n :: 0 <= n <= |steps| ==> DistinctIds(Run(f, steps[..n])))
            <==> forall n :: 0 <= n < |steps| ==> !Reborn(f, Births(f, steps[..n]), steps[n])
  {
    forall n | 0 <= n <= |steps| ensures DistinctIds(Run(f, steps[..n])) <==> DistinctBirths(Births(f, steps[..n])) {
      DistinctAsBirths(f, steps[..n]);
    }
    BirthsThroughout(f, steps, |steps|);
  }

  lemma DistinctAsBirths(f: Names, steps: seq<Step>)
    requires Injective(f.stable)
    ensures DistinctIds(Run(f, steps)) <==> DistinctBirths(Births(f, steps))
  {
    hide Run, Births;
    IdsAreBirths(f, steps);
  }

  lemma {:induction false} BirthsThroughout(f: Names, steps: seq<Step>, m: nat)
    requires m <= |steps|
    ensures (forall n :: 0 <= n <= m ==> DistinctBirths(Births(f, steps[..n])))
            <==> forall n :: 0 <= n < m ==> !Reborn(f, Births(f, steps[..n]), steps[n])
  {
    hide BirthsAfter, Reborn, DistinctBirths, Births;
    if m == 0 {
      NoBirths(f);
      assert steps[..0] == [];
    } else {
      BirthsThroughout(f, steps, m - 1);
      if DistinctBirths(Births(f, steps[..m - 1])) {
        BirthsSnoc(f, steps, m - 1);
        BirthsStep(f, Births(f, steps[..m - 1]), steps[m - 1]);
      }
    }
  }

  lemma NoBirths(f: Names)
    ensures DistinctBirths(Births(f, []))
  {
  }

  lemma BirthsSnoc(f: Names, steps: seq<Step>, n: nat)
    requires n < |steps|
    ensures Births(f, steps[..n + 1]) == BirthsAfter(f, Births(f, steps[..n]), steps[n])
  {
    assert steps[..n + 1][..n] == steps[..n];
  }

  ghost predicate RenamedAway(f: Names, steps: seq<Step>, key: string) {
    exists i :: 0 <= i < |steps| && steps[i].Rename? && f.key(steps[i].previous) == key && key in Births(f, steps[..i])
  }

  lemma RenamedAwayStays(f: Names, steps: seq<Step>, n: nat, key: string)
    requires n <= |steps| && RenamedAway(f, steps[..n], key)
    ensures RenamedAway(f, steps, key)
  {
    var i :| 0 <= i < n && steps[i].Rename? && f.key(steps[i].previous) == key && key in Births(f, steps[..n][..i]);
    assert steps[..n][..i] == steps[..i];
  }

  /** A node living elsewhere than where it was born left a key that was renamed away. */
  lemma {:induction false} MovedMeansRenamed(f: Names, steps: seq<Step>, k: string)
    requires k in Births(f, steps)
    ensures Births(f, steps)[k] == k || RenamedAway(f, steps, Births(f, steps)[k])
  {
    var last := |steps| - 1;
    var before := steps[..last];
    var births := Births(f, before);
    var step := steps[last];
    var from := if step.Rename? && f.key(step.previous) in births && k == f.key(step.next) then f.key(step.previous) else k;
    if from in births {
      MovedMeansRenamed(f, before, from);
      if births[from] != from {
        RenamedAwayStays(f, steps, last, births[from]);
      } else if from != k {
        assert steps[last].Rename? && f.key(steps[last].previous) == from;
      }
    }
  }

  /** IDs stay distinct in every run in which no key once renamed away is assigned again. */
  lemma NoReuseKeepsDistinct(f: Names, steps: seq<Step>)
    requires Injective(f.stable)
    requires forall n :: 0 <= n < |steps| && steps[n].Assign? ==> !RenamedAway(f, steps[..n], f.key(steps[n].node.path))
    ensures forall n :: 0 <= n <= |steps| ==> DistinctIds(Run(f, steps[..n]))
  {
    forall n | 0 <= n < |steps| ensures !Reborn(f, Births(f, steps[..n]), steps[n]) {
      if Reborn(f, Births(f, steps[..n]), steps[n]) {
        var key := f.key(steps[n].node.path);
        var k :| k in Births(f, steps[..n]) && Births(f, steps[..n])[k] == key;
        MovedMeansRenamed(f, steps[..n], k);
        assert false;
      }
    }
    DistinctThroughoutIff(f, steps);
  }

  /** Renaming a path away and creating it anew gives two nodes one ID, however good the hash. */
  lemma ReusedPathClashes(f: Names, a: Node, b: string)
    requires f.key(a.path) != f.key(b)
    ensures var steps := [Assign(a), Rename(a.path, b), Assign(a)];
            && f.key(b) in Run(f, steps).byPath && f.key(a.path) in Run(f, steps).byPath
            && !DistinctIds(Run(f, steps))
            && Run(f, steps).byPath[f.key(b)].id == Run(f, steps).byPath[f.key(a.path)].id
  {
    var steps := [Assign(a), Rename(a.path, b), Assign(a)];
    assert steps[..2][..1] == [Assign(a)] && steps[..2] == [Assign(a), Rename(a.path, b)];
    var one := Apply(f, EMPTY, Assign(a));
    var two := Apply(f, one, Rename(a.path, b));
    var three := Apply(f, two, Assign(a));
    assert [Assign(a)][..0] == [];
    assert After(f, EMPTY, [Assign(a)]) == one;
    assert After(f, EMPTY, steps[..2]) == two;
    assert Run(f, steps) == three;
    assert f.key(b) in three.byPath && f.key(a.path) in three.byPath;
  }

  // ----- a whole scan -----

  function Assigns(nodes: seq<Node>): seq<Step> {
    seq(|nodes|, i requires 0 <= i < |nodes| => Assign(nodes[i]))
  }

  function Keys(f: Names, nodes: seq<Node>): seq<string> {
    seq(|nodes|, i requires 0 <= i < |nodes| => f.key(nodes[i].path))
  }

  /** A scan keeps every known ID and every node it does not list; what it lists is as scanned but for the ID. */
  ghost predicate Scanned(f: Names, s: State, nodes: seq<Node>, t: State) {
    && t.aliases == s.aliases
    && (forall k :: k in t.byPath <==> k in s.byPath || k in Keys(f, nodes))
    && (forall k :: k in s.byPath ==> t.byPath[k].id == s.byPath[k].id)
    && (forall k :: k in t.byPath && k !in s.byPath ==> t.byPath[k].id == f.stable(k))
    && (forall k :: k in s.byPath && k !in Keys(f, nodes) ==> t.byPath[k] == s.byPath[k])
    && (forall k :: k in Keys(f, nodes) ==> Listed(f, nodes, k, t.byPath[k]))
  }

  ghost predicate Listed(f: Names, nodes: seq<Node>, key: string, now: Node) {
    exists i :: 0 <= i < |nodes| && Keys(f, nodes)[i] == key && now == nodes[i].(id := now.id)
  }

  lemma ScannedStep(f: Names, s: State, nodes: seq<Node>, node: Node, t: State)
    requires Scanned(f, s, nodes, t)
    ensures Scanned(f, s, nodes + [node], Apply(f, t, Assign(node)))
  {
    hide Listed, Keys;
    KeysSnoc(f, nodes, node);
    forall k | k in Keys(f, nodes + [node]) ensures Listed(f, nodes + [node], k, Apply(f, t, Assign(node)).byPath[k]) {
      if k == f.key(node.path) {
        ListedLast(f, nodes, node, t);
      } else {
        ListedMore(f, nodes, node, k, t.byPath[k]);
      }
    }
  }

  lemma ListedLast(f: Names, nodes: seq<Node>, node: Node, t: State)
    ensures Listed(f, nodes + [node], f.key(node.path), Named(f, t, node))
  {
    assert Keys(f, nodes + [node])[|nodes|] == f.key(node.path) && (nodes + [node])[|nodes|] == node;
  }

  lemma KeysSnoc(f: Names, nodes: seq<Node>, node: Node)
    ensures Keys(f, nodes + [node]) == Keys(f, nodes) + [f.key(node.path)]
    ensures forall k :: k in Keys(f, nodes + [node]) <==> k in Keys(f, nodes) || k == f.key(node.path)
  {
  }

  lemma ListedMore(f: Names, nodes: seq<Node>, node: Node, key: string, now: Node)
    requires Listed(f, nodes, key, now)
    ensures Listed(f, nodes + [node], key, now)
  {
    var i :| 0 <= i < |nodes| && Keys(f, nodes)[i] == key && now == nodes[i].(id := now.id);
    assert Keys(f, nodes + [node])[i] == key && (nodes + [node])[i] == nodes[i];
  }

  lemma ScanOfNothing(f: Names, s: State)
    ensures Scanned(f, s, [], After(f, s, Assigns([])))
  {
  }

  lemma AssignsSnoc(f: Names, s: State, front: seq<Node>, last: Node)
    ensures After(f, s, Assigns(front + [last])) == Apply(f, After(f, s, Assigns(front)), Assign(last))
  {
    assert Assigns(front + [last])[..|front|] == Assigns(front);
  }

  lemma {:induction false} ScanLaw(f: Names, s: State, nodes: seq<Node>)
    ensures Scanned(f, s, nodes, After(f, s, Assigns(nodes)))
  {
    hide Scanned, After, Apply, Assigns;
    if nodes == [] {
      ScanOfNothing(f, s);
    } else {
      var front, last := nodes[..|nodes| - 1], nodes[|nodes| - 1];
      ScanLaw(f, s, front);
      assert nodes == front + [last];
      AssignsSnoc(f, s, front, last);
      ScannedStep(f, s, front, last, After(f, s, Assigns(front)));
    }
  }

  ghost predicate UniqueIds(nodes: seq<Node>) {
    forall i, j :: 0 <= i < j < |nodes| ==> nodes[i].id != nodes[j].id
  }

  predicate ByPath(a: Node, b: Node) {
    StringLess(a.path, b.path)
  }

  /** The registry object. */
  class IdentityRegistry {
    const f: Names
    var byPath: map<string, Node>
    var aliases: map<string, seq<string>>

    ghost function View(): State
      reads this
    {
      State(byPath, aliases)
    }

    constructor (f: Names)
      ensures this.f == f && View() == EMPTY
    {
      this.f := f;
      byPath, aliases := map[], map[];
    }

    method Assign(nodes: seq<Node>) returns (out: seq<Node>)
      modifies this
      ensures View() == After(f, old(View()), Assigns(nodes))
      ensures |out| == |nodes|
      ensures forall i :: 0 <= i < |nodes| ==>
                f.key(nodes[i].path) in byPath && out[i] == nodes[i].(id := byPath[f.key(nodes[i].path)].id)
    {
      hide After;
      out := [];
      AfterNone(f, View());
      assert Assigns(nodes)[..0] == [];
      for i := 0 to |nodes|
        invariant |out| == i && View() == After(f, old(View()), Assigns(nodes)[..i])
        invariant forall j :: 0 <= j < i ==>
                    f.key(nodes[j].path) in byPath && out[j] == nodes[j].(id := byPath[f.key(nodes[j].path)].id)
      {
        AfterSnoc(f, old(View()), Assigns(nodes), i);
        var node := nodes[i];
        var key := f.key(node.path);
        if key in byPath {
          node := node.(id := byPath[key].id);
        } else {
          node := node.(id := f.stable(key));
        }
        byPath := byPath[key := node];
        out := out + [node];
      }
      assert Assigns(nodes)[..|nodes|] == Assigns(nodes);
    }

    method Rename(previous: string, next: string) returns (node: Option<Node>)
      modifies this
      ensures View() == Apply(f, old(View()), Step.Rename(previous, next))
      ensures node == if f.key(previous) in old(byPath) then Some(byPath[f.key(next)]) else None
      ensures node.Some? ==> node.value.id == old(byPath)[f.key(previous)].id
      ensures node.None? ==> byPath == old(byPath) && aliases == old(aliases)
      ensures node.Some? ==>
                var was := old(byPath)[f.key(previous)];
                && node.value == was.(path := f.clean(next), name := f.base(next), parentPath := f.dir(next))
                && byPath.Keys == (old(byPath).Keys - {f.key(previous)}) + {f.key(next)}
                && (forall k :: k in byPath && k != f.key(next) ==> k in old(byPath) && byPath[k] == old(byPath)[k])
                && aliases == old(aliases)[was.id := (if was.id in old(aliases) then old(aliases)[was.id] else []) + [was.path]]
    {
      var oldKey, newKey := f.key(previous), f.key(next);
      if oldKey !in byPath {
        return None;
      }
      var moved := byPath[oldKey];
      byPath := byPath - {oldKey};
      aliases := aliases[moved.id := (if moved.id in aliases then aliases[moved.id] else []) + [moved.path]];
      moved := moved.(path := f.clean(next));
      moved := moved.(name := f.base(next));
      moved := moved.(parentPath := f.dir(next));
      byPath := byPath[newKey := moved];
      return Some(moved);
    }

    method Delete(path: string) returns (node: Option<Node>)
      modifies this
      ensures View() == Apply(f, old(View()), Step.Delete(path))
      ensures node == if f.key(path) in old(byPath) then Some(byPath[f.key(path)]) else None
      ensures aliases == old(aliases) && byPath.Keys == old(byPath).Keys
      ensures forall k :: k in byPath ==> byPath[k] == if k == f.key(path) then old(byPath)[k].(kind := "tombstone") else old(byPath)[k]
    {
      var key := f.key(path);
      if key !in byPath {
        return None;
      }
      var dead := byPath[key].(kind := TOMBSTONE);
      byPath := byPath[key := dead];
      return Some(dead);
    }

    method CollectTombstones() returns (found: seq<Node>)
      ensures forall t :: t in found <==> t in byPath.Values && t.kind == TOMBSTONE
      ensures DistinctIds(View()) ==> UniqueIds(found)
    {
      hide Gathered;
      found := [];
      NoneGathered(byPath);
      var left := byPath.Keys;
      while left != {}
        invariant left <= byPath.Keys && Gathered(byPath, left, found)
        decreases |left|
      {
        var k :| k in left;
        GatheredStep(byPath, left, found, k);
        left := left - {k};
        if byPath[k].kind == TOMBSTONE {
          found := found + [byPath[k]];
        }
      }
      AllGathered(byPath, found);
    }

    /** The tombstones, sorted by path; they are all there, and under distinct IDs each is there once. */
    method Tombstones() returns (result: seq<Node>)
      ensures forall t :: t in result <==> t in byPath.Values && t.kind == TOMBSTONE
      ensures DistinctIds(View()) ==> UniqueIds(result)
      ensures DistinctPaths(result) ==> SortedBy(ByPath, result)
    {
      var found := CollectTombstones();
      result := Sort(ByPath, found);
      SortTombstones(found);
    }
  }

  /** found holds the tombstones outside left, each once. */
  ghost predicate Gathered(byPath: map<string, Node>, left: set<string>, found: seq<Node>) {
    && (forall t :: t in found <==> exists k :: k in byPath && k !in left && byPath[k] == t && t.kind == TOMBSTONE)
    && (DistinctIds(State(byPath, map[])) ==> UniqueIds(found))
  }

  lemma NoneGathered(byPath: map<string, Node>)
    ensures Gathered(byPath, byPath.Keys, [])
  {
  }

  lemma GatheredStep(byPath: map<string, Node>, left: set<string>, found: seq<Node>, k: string)
    requires k in left && left <= byPath.Keys && Gathered(byPath, left, found)
    ensures Gathered(byPath, left - {k}, if byPath[k].kind == TOMBSTONE then found + [byPath[k]] else found)
  {
  }

  lemma AllGathered(byPath: map<string, Node>, found: seq<Node>)
    requires Gathered(byPath, {}, found)
    ensures forall t :: t in found <==> t in byPath.Values && t.kind == TOMBSTONE
    ensures DistinctIds(State(byPath, map[])) ==> UniqueIds(found)
  {
  }

  ghost predicate DistinctPaths(nodes: seq<Node>) {
    forall i, j :: 0 <= i < j < |nodes| ==> nodes[i].path != nodes[j].path
  }

  lemma ByPathOrders(nodes: seq<Node>)
    requires DistinctPaths(nodes)
    ensures Orders(ByPath, Elements(nodes))
  {
    StringLessOrders(set n <- nodes :: n.path);
  }

  lemma SortTombstones(found: seq<Node>)
    ensures forall t :: t in Sort(ByPath, found) <==> t in found
    ensures UniqueIds(found) ==> UniqueIds(Sort(ByPath, found))
    ensures DistinctPaths(Sort(ByPath, found)) ==> SortedBy(ByPath, Sort(ByPath, found))
  {
    var result := Sort(ByPath, found);
    SortMultiset(ByPath, found);
    SameMultiset(result, found);
    assert forall t :: t in result <==> t in Elements(result);
    assert forall t :: t in found <==> t in Elements(found);
    if UniqueIds(found) {
      UniqueByMultiset(found, result);
    }
    if DistinctPaths(result) {
      DistinctByMultiset(result, found);
      ByPathOrders(result);
      SortSorted(ByPath, found);
    }
  }

  lemma UniqueByMultiset(s: seq<Node>, t: seq<Node>)
    requires UniqueIds(s) && multiset(s) == multiset(t)
    ensures UniqueIds(t)
  {
    DistinctByMultiset(s, t);
    forall i, j | 0 <= i < j < |t| ensures t[i].id != t[j].id {
      assert t[i] in multiset(t) && t[j] in multiset(t);
      assert t[i] in s && t[j] in s;
    }
  }

  ghost predicate NoTombstones(nodes: seq<Node>) {
    forall n :: n in nodes ==> n.kind != TOMBSTONE
  }

  ghost predicate ApartIds(nodes: seq<Node>, tombstones: seq<Node>) {
    forall n, t :: n in nodes && t in tombstones && n.path != t.path ==> n.id != t.id
  }

  function PathsOf(nodes: seq<Node>): set<string> {
    set n | n in nodes :: n.path
  }

  function Unlisted(nodes: seq<Node>): Node -> bool {
    (t: Node) => t.path !in PathsOf(nodes)
  }

  lemma {:induction false} WhereUnique(p: Node -> bool, nodes: seq<Node>)
    requires UniqueIds(nodes)
    ensures UniqueIds(Where(p, nodes))
  {
    if nodes != [] {
      var front, last := nodes[..|nodes| - 1], nodes[|nodes| - 1];
      WhereUnique(p, front);
      WhereLaw(p, front);
      var kept := Where(p, front);
      forall i | 0 <= i < |kept| ensures kept[i].id != last.id {
        assert kept[i] in kept;
        assert kept[i] in front;
      }
    }
  }

  lemma ListedApart(nodes: seq<Node>, tombstones: seq<Node>)
    requires UniqueIds(nodes) && UniqueIds(tombstones) && ApartIds(nodes, tombstones)
    ensures UniqueIds(nodes + Where(Unlisted(nodes), tombstones))
  {
    hide Where;
    var extra := Where(Unlisted(nodes), tombstones);
    WhereUnique(Unlisted(nodes), tombstones);
    WhereLaw(Unlisted(nodes), tombstones);
    forall i, j | 0 <= i < |nodes| && 0 <= j < |extra| ensures nodes[i].id != extra[j].id {
      assert nodes[i] in nodes && extra[j] in extra;
      assert extra[j].path !in PathsOf(nodes) && nodes[i].path in PathsOf(nodes);
    }
  }

  /** The scanned nodes, then the tombstones at paths the scan did not list. */
  method WithTombstones(nodes: seq<Node>, tombstones: seq<Node>) returns (all: seq<Node>)
    ensures all == nodes + Where(Unlisted(nodes), tombstones)
    ensures UniqueIds(nodes) && UniqueIds(tombstones) && ApartIds(nodes, tombstones) ==> UniqueIds(all)
  {
    var seen: set<string> := {};
    for i := 0 to |nodes|
      invariant seen == PathsOf(nodes[..i])
    {
      assert forall n :: n in nodes[..i + 1] <==> n in nodes[..i] || n == nodes[i];
      seen := seen + {nodes[i].path};
    }
    assert nodes[..|nodes|] == nodes;
    var extra: seq<Node> := [];
    for i := 0 to |tombstones|
      invariant extra == Where(Unlisted(nodes), tombstones[..i])
    {
      assert tombstones[..i + 1][..i] == tombstones[..i];
      if tombstones[i].path !in seen {
        extra := extra + [tombstones[i]];
      }
    }
    assert tombstones[..|tombstones|] == tombstones;
    all := nodes + extra;
    if UniqueIds(nodes) && UniqueIds(tombstones) && ApartIds(nodes, tombstones) {
      ListedApart(nodes, tombstones);
    }
  }

  /** The scanned nodes under their IDs, and then the tombstones at paths not scanned. */
  ghost predicate IsRefresh(f: Names, byPath: map<string, Node>, scanned: seq<Node>, all: seq<Node>) {
    && |scanned| <= |all|
    && (forall i :: 0 <= i < |scanned| ==>
         f.key(scanned[i].path) in byPath && all[i] == scanned[i].(id := byPath[f.key(scanned[i].path)].id))
    && (forall t :: t in all[|scanned|..] <==> t in byPath.Values && t.kind == TOMBSTONE && t.path !in PathsOf(scanned))
  }

  /** A scanned key is free and its ID is taken already. */
  ghost predicate Retakes(f: Names, s: State, nodes: seq<Node>) {
    exists k, at :: k in Keys(f, nodes) && k !in s.byPath && at in s.byPath && s.byPath[at].id == f.stable(k)
  }

  /** A scan keeps distinct IDs distinct exactly when it takes no ID anew. */
  lemma ScanKeepsDistinctIff(f: Names, s: State, nodes: seq<Node>)
    requires Injective(f.stable) && DistinctIds(s)
    ensures DistinctIds(After(f, s, Assigns(nodes))) <==> !Retakes(f, s, nodes)
  {
    hide After, Listed;
    ScanLaw(f, s, nodes);
  }

  /** What a refresh shows: the scan under its IDs, and whatever was deleted and not scanned again. */
  method RefreshNodes(registry: IdentityRegistry, scanned: seq<Node>) returns (all: seq<Node>)
    modifies registry
    ensures registry.View() == After(registry.f, old(registry.View()), Assigns(scanned))
    ensures IsRefresh(registry.f, registry.byPath, scanned, all)
    ensures (DistinctIds(registry.View()) && Distinct(Keys(registry.f, scanned)) && NoTombstones(scanned)) ==> UniqueIds(all)
    ensures (Injective(registry.f.stable) && DistinctIds(old(registry.View()))) ==>
              (DistinctIds(registry.View()) <==> !Retakes(registry.f, old(registry.View()), scanned))
  {
    hide IsRefresh, Where, PathsOf, Scanned, After, Injective, Retakes, ApartIds;
    var out := registry.Assign(scanned);
    var tombstones := registry.Tombstones();
    all := WithTombstones(out, tombstones);
    RefreshIs(registry.f, registry.byPath, scanned, out, tombstones);
    ScanLaw(registry.f, old(registry.View()), scanned);
    if Injective(registry.f.stable) && DistinctIds(old(registry.View())) {
      ScanKeepsDistinctIff(registry.f, old(registry.View()), scanned);
    }
    if DistinctIds(registry.View()) && Distinct(Keys(registry.f, scanned)) && NoTombstones(scanned) {
      ScanApart(registry.f, old(registry.View()), scanned, registry.View(), out, tombstones);
    }
  }

  lemma RefreshIs(f: Names, byPath: map<string, Node>, scanned: seq<Node>, out: seq<Node>, tombstones: seq<Node>)
    requires |out| == |scanned| && forall i :: 0 <= i < |scanned| ==>
               f.key(scanned[i].path) in byPath && out[i] == scanned[i].(id := byPath[f.key(scanned[i].path)].id)
    requires forall t :: t in tombstones <==> t in byPath.Values && t.kind == TOMBSTONE
    ensures IsRefresh(f, byPath, scanned, out + Where(Unlisted(out), tombstones))
  {
    hide Where, PathsOf;
    SamePaths(out, scanned);
    WhereLaw(Unlisted(out), tombstones);
    assert (out + Where(Unlisted(out), tombstones))[|scanned|..] == Where(Unlisted(out), tombstones);
  }

  lemma SamePaths(a: seq<Node>, b: seq<Node>)
    requires |a| == |b| && forall i :: 0 <= i < |a| ==> a[i].path == b[i].path
    ensures PathsOf(a) == PathsOf(b)
  {
    forall p ensures p in PathsOf(a) <==> p in PathsOf(b) {
      if p in PathsOf(a) {
        var i :| 0 <= i < |a| && a[i].path == p;
        assert b[i] in b;
      }
      if p in PathsOf(b) {
        var i :| 0 <= i < |b| && b[i].path == p;
        assert a[i] in a;
      }
    }
  }

  lemma ScanApart(f: Names, s: State, scanned: seq<Node>, t: State, out: seq<Node>, tombstones: seq<Node>)
    requires Scanned(f, s, scanned, t) && DistinctIds(t) && Distinct(Keys(f, scanned))
    requires NoTombstones(scanned)
    requires |out| == |scanned| && forall i :: 0 <= i < |scanned| ==>
               f.key(scanned[i].path) in t.byPath && out[i] == scanned[i].(id := t.byPath[f.key(scanned[i].path)].id)
    requires forall n :: n in tombstones ==> n in t.byPath.Values && n.kind == TOMBSTONE
    ensures UniqueIds(out) && ApartIds(out, tombstones)
  {
    hide Listed;
    var keys := Keys(f, scanned);
    forall i, j | 0 <= i < j < |out| ensures out[i].id != out[j].id {
      assert keys[i] != keys[j];
    }
    forall n, d | n in out && d in tombstones ensures n.id != d.id {
      var i :| 0 <= i < |out| && out[i] == n;
      var k :| k in t.byPath && t.byPath[k] == d;
      assert keys[i] in keys;
      if k == keys[i] {
        ListedKind(f, scanned, k, d);
      }
    }
  }

  lemma ListedKind(f: Names, nodes: seq<Node>, key: string, now: Node)
    requires Listed(f, nodes, key, now) && NoTombstones(nodes)
    ensures now.kind != TOMBSTONE
  {
  }
}
