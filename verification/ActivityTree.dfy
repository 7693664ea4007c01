/** Directory totals in one pass: aggregateDirectories of internal/activity/history.go. */
module ActivityTree {
  import opened Common

  datatype Metrics = Metrics(accesses: int, timeMs: int, added: int, deleted: int)

  /** commit names the latest commit with what else is copied along with it; "" stands for none. */
  datatype Activity = Activity(metrics: Metrics, commit: string, at: int, tools: seq<string>, sessions: seq<string>)

  datatype Node = Node(path: string, parentPath: string, activity: Activity)

  const ZERO := Metrics(0, 0, 0, 0)

  const NO_ACTIVITY := Activity(ZERO, "", 0, [], [])

  // ----- lists of tools and sessions -----

  const MAX_TOOLS := 6

  /** unicode.IsSpace */
  predicate IsSpace(c: char) {
    || ('\t' <= c <= '\r') || c == ' ' || c == '\U{85}' || c == '\U{A0}' || c == '\U{1680}' || ('\U{2000}' <= c <= '\U{200A}')
    || c == '\U{2028}' || c == '\U{2029}' || c == '\U{202F}' || c == '\U{205F}' || c == '\U{3000}'
  }

  /** strings.TrimSpace */
  function Trim(s: string): string {
    if s != "" && IsSpace(s[0]) then Trim(s[1..])
    else if s != "" && IsSpace(s[|s| - 1]) then Trim(s[..|s| - 1])
    else s
  }

  lemma {:induction false} TrimOnce(s: string)
    ensures Trim(Trim(s)) == Trim(s)
  {
    hide IsSpace;
    if s != "" && IsSpace(s[0]) {
      TrimOnce(s[1..]);
    } else if s != "" && IsSpace(s[|s| - 1]) {
      TrimOnce(s[..|s| - 1]);
    }
  }

  ghost predicate AllSpace(s: string) {
    forall i :: 0 <= i < |s| ==> IsSpace(s[i])
  }

  /** Just the space around is cut off. */
  lemma {:induction false} TrimLaw(s: string) returns (head: string, tail: string)
    ensures s == head + Trim(s) + tail && AllSpace(head) && AllSpace(tail)
    ensures Trim(s) != "" ==> !IsSpace(Trim(s)[0]) && !IsSpace(Trim(s)[|Trim(s)| - 1])
  {
    hide IsSpace;
    head, tail := "", "";
    if s != "" && IsSpace(s[0]) {
      head, tail := TrimLaw(s[1..]);
      head := [s[0]] + head;
    } else if s != "" && IsSpace(s[|s| - 1]) {
      head, tail := TrimLaw(s[..|s| - 1]);
      tail := tail + [s[|s| - 1]];
    }
  }

  function AddTool(result: seq<string>, tool: string): seq<string> {
    if Trim(tool) == "" || Trim(tool) in result || |result| == MAX_TOOLS then result else result + [Trim(tool)]
  }

  function AddTools(result: seq<string>, group: seq<string>): seq<string> {
    if group == [] then result else AddTool(AddTools(result, group[..|group| - 1]), group[|group| - 1])
  }

  /** mergeTools of two lists: names without surrounding space, each once, at most six. */
  function MergeTools(a: seq<string>, b: seq<string>): seq<string> {
    AddTools(AddTools([], a), b)
  }

  /** The names a list gives. */
  function Names(tools: seq<string>): set<string> {
    set t | t in tools && Trim(t) != "" :: Trim(t)
  }

  /** A list of different names out of all: all of them, or six. */
  ghost predicate IsCapped(list: seq<string>, all: set<string>) {
    && Distinct(list) && |list| <= MAX_TOOLS && Elements(list) <= all && (|list| < MAX_TOOLS ==> Elements(list) == all)
    && forall i :: 0 <= i < |list| ==> list[i] != "" && Trim(list[i]) == list[i]
  }

  /** The list gives names out of all, and all of them if they are fewer than six. */
  ghost predicate Tells(list: seq<string>, all: set<string>) {
    Names(list) <= all && (|Names(list)| < MAX_TOOLS ==> Names(list) == all)
  }

  lemma AddToolKeeps(result: seq<string>, tool: string, all: set<string>)
    requires IsCapped(result, all)
    ensures IsCapped(AddTool(result, tool), all + Names([tool]))
  {
    TrimOnce(tool);
    var t := Trim(tool);
    assert Names([tool]) == if t != "" then {t} else {};
    ElementsSnoc(result, t);
    InElements(result, t);
  }

  lemma InElements(list: seq<string>, t: string)
    ensures t in Elements(list) <==> t in list
  {
  }

  lemma NamesSnoc(group: seq<string>, tool: string)
    ensures Names(group + [tool]) == Names(group) + Names([tool])
  {
    hide Trim;
    assert forall t :: t in group + [tool] <==> t in group || t == tool;
  }

  lemma {:induction false} AddToolsKeeps(result: seq<string>, group: seq<string>, all: set<string>)
    requires IsCapped(result, all)
    ensures IsCapped(AddTools(result, group), all + Names(group))
  {
    hide IsCapped, AddTool, Names;
    if group == [] {
      NoNames();
      assert all + {} == all;
    } else {
      var front, last := group[..|group| - 1], group[|group| - 1];
      AddToolsKeeps(result, front, all);
      AddToolKeeps(AddTools(result, front), last, all + Names(front));
      NamesSnoc(front, last);
      assert group == front + [last];
      assert all + Names(front) + Names([last]) == all + Names(group);
    }
  }

  lemma NoNames()
    ensures Names([]) == {} && IsCapped([], {})
  {
  }

  /** Merging two lists gives the names of both, capped, even if the lists were capped before. */
  lemma MergeToolsLaw(a: seq<string>, b: seq<string>, x: set<string>, y: set<string>)
    requires Tells(a, x) && Tells(b, y)
    ensures IsCapped(MergeTools(a, b), x + y)
  {
    hide AddTools, Names, Trim;
    NoNames();
    AddToolsKeeps([], a, {});
    AddToolsKeeps(AddTools([], a), b, {} + Names(a));
    var merged := MergeTools(a, b);
    assert {} + Names(a) + Names(b) == Names(a) + Names(b);
    DistinctSize(merged);
    SubsetSize(Names(a), Names(a) + Names(b));
    SubsetSize(Names(b), Names(a) + Names(b));
  }

  /** Where the list first gives the name; its length where it does not. */
  function FirstAt(list: seq<string>, t: string): (k: nat)
    ensures k <= |list|
    ensures k < |list| ==> Trim(list[k]) == t
    ensures forall j :: 0 <= j < k ==> Trim(list[j]) != t
  {
    if list == [] || Trim(list[0]) == t then 0 else 1 + FirstAt(list[1..], t)
  }

  /** Names in the order in which the list first gives them; one left out comes after six others. */
  ghost predicate FirstSix(names: seq<string>, list: seq<string>) {
    && |names| <= 6
    && (forall i :: 0 <= i < |names| ==> names[i] != "" && FirstAt(list, names[i]) < |list|)
    && (forall i, j :: 0 <= i < j < |names| ==> FirstAt(list, names[i]) < FirstAt(list, names[j]))
    && (forall k :: 0 <= k < |list| && Trim(list[k]) != "" && Trim(list[k]) !in names ==>
          |names| == 6 && forall i :: 0 <= i < |names| ==> FirstAt(list, names[i]) < k)
  }

  lemma FirstAtMore(list: seq<string>, tool: string, t: string)
    ensures FirstAt(list, t) < |list| ==> FirstAt(list + [tool], t) == FirstAt(list, t)
    ensures FirstAt(list, t) == |list| ==> FirstAt(list + [tool], t) == if Trim(tool) == t then |list| else |list| + 1
  {
    hide Trim, FirstAt;
    var all := list + [tool];
    assert forall k :: 0 <= k < |list| ==> all[k] == list[k];
    assert all[|list|] == tool;
    var k, l := FirstAt(list, t), FirstAt(all, t);
    if k < |list| {
      assert Trim(all[k]) == t;
    }
  }

  lemma FirstSixMore(names: seq<string>, list: seq<string>, tool: string)
    requires FirstSix(names, list)
    ensures FirstSix(AddTool(names, tool), list + [tool])
  {
    hide Trim, FirstAt;
    var all, now, t := list + [tool], AddTool(names, tool), Trim(tool);
    forall i | 0 <= i < |names| ensures FirstAt(all, names[i]) == FirstAt(list, names[i]) {
      FirstAtMore(list, tool, names[i]);
    }
    FirstAtMore(list, tool, t);
    forall k | 0 <= k < |all| && Trim(all[k]) != "" && Trim(all[k]) !in now
      ensures |now| == 6 && forall i :: 0 <= i < |now| ==> FirstAt(all, now[i]) < k
    {
      if k < |list| {
        assert all[k] == list[k];
      }
    }
  }

  lemma {:induction false} AddToolsFirstSix(list: seq<string>)
    ensures FirstSix(AddTools([], list), list)
  {
    hide FirstSix, AddTool;
    if list == [] {
      NoneFirst();
    } else {
      AddToolsFirstSix(list[..|list| - 1]);
      FirstSixMore(AddTools([], list[..|list| - 1]), list[..|list| - 1], list[|list| - 1]);
      assert list == list[..|list| - 1] + [list[|list| - 1]];
    }
  }

  lemma NoneFirst()
    ensures FirstSix([], [])
  {
  }

  lemma {:induction false} AddToolsJoin(start: seq<string>, a: seq<string>, b: seq<string>)
    ensures AddTools(start, a + b) == AddTools(AddTools(start, a), b)
  {
    hide AddTool;
    if b == [] {
      assert a + b == a;
    } else {
      AddToolsJoin(start, a, b[..|b| - 1]);
      assert (a + b)[..|a + b| - 1] == a + b[..|b| - 1];
    }
  }

  /** The first list's names come first, each where it is first given, and the first six stay. */
  lemma MergeToolsOrder(a: seq<string>, b: seq<string>)
    ensures FirstSix(MergeTools(a, b), a + b)
  {
    hide FirstSix, AddTools;
    AddToolsJoin([], a, b);
    AddToolsFirstSix(a + b);
  }

  lemma CappedTells(list: seq<string>, all: set<string>)
    requires IsCapped(list, all)
    ensures Tells(list, all)
  {
    hide Trim;
    DistinctSize(list);
    forall t ensures t in Names(list) <==> t in Elements(list) {
      if t in Elements(list) {
        var i :| 0 <= i < |list| && list[i] == t;
        assert list[i] in list && Trim(list[i]) == t;
      }
      if t in Names(list) {
        var u :| u in list && Trim(u) != "" && t == Trim(u);
        var i :| 0 <= i < |list| && list[i] == u;
      }
    }
    assert Names(list) == Elements(list);
  }

  /** The names given by the members. */
  ghost function NamesOver(nodes: seq<Node>, members: set<nat>, n: nat, sessions: bool): set<string>
    requires n <= |nodes|
  {
    if n == 0 then {}
    else NamesOver(nodes, members, n - 1, sessions) + if n - 1 in members then Names(ListOf(nodes[n - 1].activity, sessions)) else {}
  }

  function ListOf(a: Activity, sessions: bool): seq<string> {
    if sessions then a.sessions else a.tools
  }

  lemma {:induction false} NamesUnion(nodes: seq<Node>, a: set<nat>, b: set<nat>, n: nat, sessions: bool)
    requires n <= |nodes|
    ensures NamesOver(nodes, a + b, n, sessions) == NamesOver(nodes, a, n, sessions) + NamesOver(nodes, b, n, sessions)
  {
    hide Names;
    if n > 0 {
      NamesUnion(nodes, a, b, n - 1, sessions);
    }
  }

  lemma {:induction false} NamesOfOne(nodes: seq<Node>, i: nat, n: nat, sessions: bool)
    requires n <= |nodes|
    ensures NamesOver(nodes, {i}, n, sessions) == if i < n then Names(ListOf(nodes[i].activity, sessions)) else {}
  {
    hide Names;
    if n > 0 {
      NamesOfOne(nodes, i, n - 1, sessions);
    }
  }

  method AddGroup(start: seq<string>, group: seq<string>) returns (result: seq<string>)
    requires |start| <= MAX_TOOLS
    ensures result == AddTools(start, group)
  {
    hide Trim;
    result := start;
    for i := 0 to |group|
      invariant result == AddTools(start, group[..i]) && |result| <= MAX_TOOLS
    {
      assert group[..i + 1][..i] == group[..i];
      var tool := Trim(group[i]);
      if tool != "" && tool !in result && |result| < MAX_TOOLS {
        result := result + [tool];
        if |result| == MAX_TOOLS {
          FullStays(start, group, i + 1);
          return;
        }
      }
    }
    assert group[..|group|] == group;
  }

  /** Six names are not added to. */
  lemma {:induction false} FullStays(start: seq<string>, group: seq<string>, i: nat)
    requires i <= |group| && |AddTools(start, group[..i])| == MAX_TOOLS
    ensures AddTools(start, group) == AddTools(start, group[..i])
  {
    hide Trim;
    if i < |group| {
      var front := group[..|group| - 1];
      assert front[..i] == group[..i];
      FullStays(start, front, i);
    } else {
      assert group[..i] == group;
    }
  }

  method MergeToolLists(a: seq<string>, b: seq<string>) returns (result: seq<string>)
    ensures result == MergeTools(a, b)
  {
    hide AddTools;
    NoNames();
    AddToolsKeeps([], a, {});
    result := AddGroup([], a);
    result := AddGroup(result, b);
  }

  function Plus(a: Metrics, b: Metrics): Metrics {
    Metrics(a.accesses + b.accesses, a.timeMs + b.timeMs, a.added + b.added, a.deleted + b.deleted)
  }

  function Slashes(path: string): nat {
    if path == "" then 0 else (if path[0] == '/' then 1 else 0) + Slashes(path[1..])
  }

  type Index = map<string, nat>

  function Rank(n: Node): nat {
    if n.path == "." then 0 else Slashes(n.path) + 1
  }

  /** Paths are unique and indexed, every parent is there, and a parent is the root or less deep. */
  ghost predicate IsTree(nodes: seq<Node>, index: Index) {
    && (forall i :: 0 <= i < |nodes| ==> nodes[i].path in index && index[nodes[i].path] == i)
    && (forall p :: p in index ==> index[p] < |nodes| && nodes[index[p]].path == p)
    && (forall i :: 0 <= i < |nodes| && nodes[i].path != "." ==>
          nodes[i].parentPath in index && (nodes[i].parentPath == "." || Slashes(nodes[i].parentPath) < Slashes(nodes[i].path)))
  }

  function Parent(nodes: seq<Node>, index: Index, i: nat): Option<nat>
    requires i < |nodes|
  {
    if nodes[i].path == "." || nodes[i].parentPath !in index then None else Some(index[nodes[i].parentPath])
  }

  lemma ParentRank(nodes: seq<Node>, index: Index, i: nat)
    requires IsTree(nodes, index) && i < |nodes| && Parent(nodes, index, i).Some?
    ensures Parent(nodes, index, i).value < |nodes|
    ensures Rank(nodes[Parent(nodes, index, i).value]) < Rank(nodes[i])
  {
  }

  /** j lies below a, or is a. */
  ghost predicate Under(nodes: seq<Node>, index: Index, j: nat, a: nat)
    requires IsTree(nodes, index) && j < |nodes|
    decreases Rank(nodes[j])
  {
    j == a || (Parent(nodes, index, j).Some? && (ParentRank(nodes, index, j); Under(nodes, index, Parent(nodes, index, j).value, a)))
  }

  ghost predicate HasChild(nodes: seq<Node>, index: Index, i: nat) {
    exists c :: 0 <= c < |nodes| && Parent(nodes, index, c) == Some(i)
  }

  /** Directories start out empty; a commit, where there is one, has a positive time. */
  ghost predicate Fresh(nodes: seq<Node>, index: Index) {
    forall i :: 0 <= i < |nodes| ==>
      && (HasChild(nodes, index, i) ==> nodes[i].activity == NO_ACTIVITY)
      && (nodes[i].activity.commit != "" ==> 0 < nodes[i].activity.at)
  }

  // ----- sums over sets of nodes -----

  function SumOver(nodes: seq<Node>, members: set<nat>, n: nat): Metrics
    requires n <= |nodes|
  {
    if n == 0 then ZERO
    else if n - 1 in members then Plus(SumOver(nodes, members, n - 1), nodes[n - 1].activity.metrics)
    else SumOver(nodes, members, n - 1)
  }

  /** The sum of one count over the members. */
  function CountOver(nodes: seq<Node>, count: Metrics -> int, members: set<nat>, n: nat): int
    requires n <= |nodes|
  {
    if n == 0 then 0 else CountOver(nodes, count, members, n - 1) + if n - 1 in members then count(nodes[n - 1].activity.metrics) else 0
  }

  /** Metrics are summed count by count. */
  lemma {:induction false} SumIsCounts(nodes: seq<Node>, members: set<nat>, n: nat)
    requires n <= |nodes|
    ensures SumOver(nodes, members, n).accesses == CountOver(nodes, (m: Metrics) => m.accesses, members, n)
    ensures SumOver(nodes, members, n).timeMs == CountOver(nodes, (m: Metrics) => m.timeMs, members, n)
    ensures SumOver(nodes, members, n).added == CountOver(nodes, (m: Metrics) => m.added, members, n)
    ensures SumOver(nodes, members, n).deleted == CountOver(nodes, (m: Metrics) => m.deleted, members, n)
  {
    if n > 0 {
      SumIsCounts(nodes, members, n - 1);
    }
  }

  /** The commit and its time are those of a member than which none is later. */
  ghost predicate IsLatest(nodes: seq<Node>, members: set<nat>, commit: string, at: int) {
    exists j :: j in members && j < |nodes| && nodes[j].activity.commit == commit && nodes[j].activity.at == at
      && forall k :: k in members && k < |nodes| ==> nodes[k].activity.at <= at
  }

  /** The latest commit time among the members, zero for none. */
  function LatestOver(nodes: seq<Node>, members: set<nat>, n: nat): int
    requires n <= |nodes|
  {
    if n == 0 then 0
    else if n - 1 in members then Max(LatestOver(nodes, members, n - 1), nodes[n - 1].activity.at)
    else LatestOver(nodes, members, n - 1)
  }

  lemma PlusAssociates(a: Metrics, b: Metrics, c: Metrics)
    ensures Plus(Plus(a, b), c) == Plus(a, Plus(b, c))
  {
  }

  lemma PlusCommutes(a: Metrics, b: Metrics)
    ensures Plus(a, b) == Plus(b, a)
  {
  }

  lemma PlusZero(a: Metrics)
    ensures Plus(a, ZERO) == a && Plus(ZERO, a) == a
  {
  }

  lemma {:induction false} SumUnion(nodes: seq<Node>, a: set<nat>, b: set<nat>, n: nat)
    requires n <= |nodes| && a !! b
    ensures SumOver(nodes, a + b, n) == Plus(SumOver(nodes, a, n), SumOver(nodes, b, n))
  {
    hide Plus;
    PlusZero(ZERO);
    if n > 0 {
      SumUnion(nodes, a, b, n - 1);
      var x, y, m := SumOver(nodes, a, n - 1), SumOver(nodes, b, n - 1), nodes[n - 1].activity.metrics;
      PlusAssociates(x, m, y);
      PlusCommutes(m, y);
      PlusAssociates(x, y, m);
      assert n - 1 in a + b <==> n - 1 in a || n - 1 in b;
      assert !(n - 1 in a && n - 1 in b);
    }
  }

  lemma {:induction false} LatestUnion(nodes: seq<Node>, a: set<nat>, b: set<nat>, n: nat)
    requires n <= |nodes|
    ensures LatestOver(nodes, a + b, n) == Max(LatestOver(nodes, a, n), LatestOver(nodes, b, n))
  {
    if n > 0 {
      LatestUnion(nodes, a, b, n - 1);
    }
  }

  lemma {:induction false} OverEmpty(nodes: seq<Node>, n: nat)
    requires n <= |nodes|
    ensures SumOver(nodes, {}, n) == ZERO && LatestOver(nodes, {}, n) == 0
  {
    if n > 0 {
      OverEmpty(nodes, n - 1);
    }
  }

  lemma {:induction false} OverOne(nodes: seq<Node>, i: nat, n: nat)
    requires n <= |nodes|
    ensures SumOver(nodes, {i}, n) == if i < n then nodes[i].activity.metrics else ZERO
    ensures LatestOver(nodes, {i}, n) == if i < n then Max(0, nodes[i].activity.at) else 0
  {
    if n > 0 {
      OverOne(nodes, i, n - 1);
    }
  }

  lemma {:induction false} LatestPositive(nodes: seq<Node>, members: set<nat>, n: nat)
    requires n <= |nodes| && (forall j :: j in members ==> j < n && 0 < nodes[j].activity.at)
    ensures 0 <= LatestOver(nodes, members, n)
    ensures 0 < LatestOver(nodes, members, n) <==> members != {}
  {
    if n == 0 {
      assert forall j :: j !in members;
    } else if n - 1 in members {
      LatestUnion(nodes, members - {n - 1}, {n - 1}, n);
      OverOne(nodes, n - 1, n);
      assert members == (members - {n - 1}) + {n - 1};
    } else {
      LatestPositive(nodes, members, n - 1);
    }
  }

  // ----- what the pass has carried where -----

  /** Everything on the way from j up to, but not including, i has been passed. */
  ghost predicate Passed(nodes: seq<Node>, index: Index, j: nat, i: nat, done: set<nat>)
    requires IsTree(nodes, index) && j < |nodes|
    decreases Rank(nodes[j])
  {
    j == i || (j in done && Parent(nodes, index, j).Some? &&
               (ParentRank(nodes, index, j); Passed(nodes, index, Parent(nodes, index, j).value, i, done)))
  }

  /** The committed nodes below i whose activity has reached it. */
  ghost function Reached(nodes: seq<Node>, index: Index, i: nat, done: set<nat>): set<nat>
    requires IsTree(nodes, index)
  {
    set j: nat | 0 <= j < |nodes| && j != i && nodes[j].activity.commit != "" && Passed(nodes, index, j, i, done)
  }

  /** Node i after the nodes in done have been passed. */
  ghost predicate Carried(nodes: seq<Node>, index: Index, i: nat, done: set<nat>, now: Node)
    requires IsTree(nodes, index) && i < |nodes|
  {
    var reached := Reached(nodes, index, i, done);
    && now.path == nodes[i].path && now.parentPath == nodes[i].parentPath
    && now.activity.metrics == Plus(nodes[i].activity.metrics, SumOver(nodes, reached, |nodes|))
    && (reached == {} ==> now == nodes[i])
    && (reached != {} ==> now.activity.commit != "" && now.activity.at == LatestOver(nodes, reached, |nodes|))
    && (reached != {} ==> ListsCapped(nodes, reached, now))
    && (reached != {} ==> IsLatest(nodes, reached, now.activity.commit, now.activity.at))
  }

  /** Both lists hold the names the members give, all of them or six. */
  ghost predicate ListsCapped(nodes: seq<Node>, members: set<nat>, now: Node) {
    && IsCapped(now.activity.tools, NamesOver(nodes, members, |nodes|, false))
    && IsCapped(now.activity.sessions, NamesOver(nodes, members, |nodes|, true))
  }

  ghost predicate ListsTell(nodes: seq<Node>, members: set<nat>, now: Node) {
    && Tells(now.activity.tools, NamesOver(nodes, members, |nodes|, false))
    && Tells(now.activity.sessions, NamesOver(nodes, members, |nodes|, true))
  }

  lemma ListsMerge(nodes: seq<Node>, a: set<nat>, b: set<nat>, parent: Node, now: Node)
    requires ListsTell(nodes, a, parent) && ListsTell(nodes, b, now)
    ensures ListsCapped(nodes, a + b, parent.(activity := Merge(parent.activity, now.activity)))
  {
    hide Tells, IsCapped, MergeTools, NamesOver, Plus;
    forall sessions | true
      ensures IsCapped(MergeTools(ListOf(parent.activity, sessions), ListOf(now.activity, sessions)), NamesOver(nodes, a + b, |nodes|, sessions))
    {
      NamesUnion(nodes, a, b, |nodes|, sessions);
      MergeToolsLaw(ListOf(parent.activity, sessions), ListOf(now.activity, sessions),
                    NamesOver(nodes, a, |nodes|, sessions), NamesOver(nodes, b, |nodes|, sessions));
    }
    assert IsCapped(MergeTools(ListOf(parent.activity, false), ListOf(now.activity, false)), NamesOver(nodes, a + b, |nodes|, false));
    assert IsCapped(MergeTools(ListOf(parent.activity, true), ListOf(now.activity, true)), NamesOver(nodes, a + b, |nodes|, true));
  }

  lemma CappedListsTell(nodes: seq<Node>, members: set<nat>, now: Node)
    requires ListsCapped(nodes, members, now)
    ensures ListsTell(nodes, members, now)
  {
    hide Tells, IsCapped;
    CappedTells(now.activity.tools, NamesOver(nodes, members, |nodes|, false));
    CappedTells(now.activity.sessions, NamesOver(nodes, members, |nodes|, true));
  }

  lemma OwnListsTell(nodes: seq<Node>, n: nat)
    requires n < |nodes|
    ensures ListsTell(nodes, {n}, nodes[n])
  {
    hide Names;
    NamesOfOne(nodes, n, |nodes|, false);
    NamesOfOne(nodes, n, |nodes|, true);
  }

  lemma EmptyListsTell(nodes: seq<Node>, now: Node)
    requires now.activity.tools == [] && now.activity.sessions == []
    ensures ListsTell(nodes, {}, now)
  {
    hide Names;
    NoNames();
    NoNamesOver(nodes, |nodes|, false);
    NoNamesOver(nodes, |nodes|, true);
  }

  lemma {:induction false} NoNamesOver(nodes: seq<Node>, n: nat, sessions: bool)
    requires n <= |nodes|
    ensures NamesOver(nodes, {}, n, sessions) == {}
  {
    if n > 0 {
      NoNamesOver(nodes, n - 1, sessions);
    }
  }

  lemma {:induction false} PassedMember(nodes: seq<Node>, index: Index, j: nat, i: nat, done: set<nat>)
    requires IsTree(nodes, index) && j < |nodes| && i < |nodes| && j != i && Passed(nodes, index, j, i, done)
    ensures HasChild(nodes, index, i)
    decreases Rank(nodes[j])
  {
    ParentRank(nodes, index, j);
    var p := Parent(nodes, index, j).value;
    if p != i {
      PassedMember(nodes, index, p, i, done);
    }
  }

  /** Passing n, whose parent is not passed yet or is the root, changes only what reaches the parent. */
  lemma {:induction false} PassedStep(nodes: seq<Node>, index: Index, j: nat, i: nat, done: set<nat>, n: nat)
    requires IsTree(nodes, index) && j < |nodes| && n < |nodes| && n !in done
    requires Parent(nodes, index, n).Some? ==>
               Parent(nodes, index, n).value !in done + {n} || nodes[Parent(nodes, index, n).value].path == "."
    ensures Passed(nodes, index, j, i, done + {n}) <==>
            || Passed(nodes, index, j, i, done)
            || (Parent(nodes, index, n) == Some(i) && Passed(nodes, index, j, n, done))
    decreases Rank(nodes[j])
  {
    if Parent(nodes, index, j).Some? {
      ParentRank(nodes, index, j);
      PassedStep(nodes, index, Parent(nodes, index, j).value, i, done, n);
    }
  }

  lemma {:induction false} PassedEverything(nodes: seq<Node>, index: Index, j: nat, i: nat, done: set<nat>)
    requires IsTree(nodes, index) && j < |nodes| && forall k: nat :: k < |nodes| ==> k in done
    ensures Passed(nodes, index, j, i, done) <==> Under(nodes, index, j, i)
    decreases Rank(nodes[j])
  {
    if Parent(nodes, index, j).Some? {
      ParentRank(nodes, index, j);
      PassedEverything(nodes, index, Parent(nodes, index, j).value, i, done);
    }
  }

  lemma {:induction false} PassedNothing(nodes: seq<Node>, index: Index, j: nat, i: nat)
    requires IsTree(nodes, index) && j < |nodes|
    ensures Passed(nodes, index, j, i, {}) <==> j == i
  {
  }

  /** n is next: nothing deeper is left, and its parent is not passed yet unless it is the root. */
  ghost predicate IsNext(nodes: seq<Node>, index: Index, n: nat, done: set<nat>)
    requires IsTree(nodes, index)
  {
    && n < |nodes| && n !in done
    && (Parent(nodes, index, n).Some? ==>
          Parent(nodes, index, n).value !in done + {n} || nodes[Parent(nodes, index, n).value].path == ".")
  }

  lemma ReachedStep(nodes: seq<Node>, index: Index, i: nat, done: set<nat>, n: nat)
    requires IsTree(nodes, index) && i < |nodes| && IsNext(nodes, index, n, done)
    ensures Parent(nodes, index, n) != Some(i) ==> Reached(nodes, index, i, done + {n}) == Reached(nodes, index, i, done)
    ensures Parent(nodes, index, n) == Some(i) ==>
              var brought := Reached(nodes, index, n, done) + if nodes[n].activity.commit != "" then {n} else {};
              && Reached(nodes, index, i, done + {n}) == Reached(nodes, index, i, done) + brought
              && Reached(nodes, index, i, done) !! brought
  {
    forall j: nat | j < |nodes|
      ensures Passed(nodes, index, j, i, done + {n}) <==>
              Passed(nodes, index, j, i, done) || (Parent(nodes, index, n) == Some(i) && Passed(nodes, index, j, n, done))
    {
      PassedStep(nodes, index, j, i, done, n);
    }
    if Parent(nodes, index, n) == Some(i) {
      ParentRank(nodes, index, n);
      forall j: nat | j < |nodes| && Passed(nodes, index, j, n, done)
        ensures j != i && !Passed(nodes, index, j, i, done)
      {
        NotBothWays(nodes, index, j, i, done, n);
      }
    }
  }

  /** What has only got as far as n has not got past it. */
  lemma {:induction false} NotBothWays(nodes: seq<Node>, index: Index, j: nat, i: nat, done: set<nat>, n: nat)
    requires IsTree(nodes, index) && j < |nodes| && n < |nodes| && i < |nodes| && n !in done
    requires Rank(nodes[i]) < Rank(nodes[n]) && Passed(nodes, index, j, n, done)
    ensures j != i && !Passed(nodes, index, j, i, done)
    ensures Rank(nodes[n]) <= Rank(nodes[j])
    decreases Rank(nodes[j])
  {
    if j != n {
      ParentRank(nodes, index, j);
      NotBothWays(nodes, index, Parent(nodes, index, j).value, i, done, n);
    }
  }

  // ----- the pass -----

  /** The depth-sorted order, whatever the sort made of equal depths. */
  ghost predicate IsDepthOrder(nodes: seq<Node>, ordered: seq<nat>) {
    && |ordered| == |nodes| && Distinct(ordered) && (forall k :: 0 <= k < |ordered| ==> ordered[k] < |nodes|)
    && (forall k, l :: 0 <= k < l < |ordered| ==> Slashes(nodes[ordered[k]].path) >= Slashes(nodes[ordered[l]].path))
  }

  lemma NextInOrder(nodes: seq<Node>, index: Index, ordered: seq<nat>, k: nat)
    requires IsTree(nodes, index) && IsDepthOrder(nodes, ordered) && k < |ordered|
    ensures IsNext(nodes, index, ordered[k], Elements(ordered[..k]))
  {
    var n := ordered[k];
    var done := Elements(ordered[..k]);
    if Parent(nodes, index, n).Some? {
      ParentRank(nodes, index, n);
      var p := Parent(nodes, index, n).value;
      if nodes[p].path != "." {
        forall l | 0 <= l < k ensures ordered[l] != p {
          assert Slashes(nodes[ordered[l]].path) >= Slashes(nodes[n].path);
        }
      }
    }
  }

  /** A node that is passed before its parent: what it holds is what it brings. */
  lemma Brings(nodes: seq<Node>, index: Index, n: nat, done: set<nat>, now: Node)
    requires IsTree(nodes, index) && Fresh(nodes, index) && n < |nodes| && Carried(nodes, index, n, done, now)
    ensures var brought := Reached(nodes, index, n, done) + if nodes[n].activity.commit != "" then {n} else {};
            && (now.activity.commit == "" <==> brought == {})
            && (brought != {} ==>
                 now.activity.metrics == SumOver(nodes, brought, |nodes|) && now.activity.at == LatestOver(nodes, brought, |nodes|)
                 && ListsTell(nodes, brought, now) && IsLatest(nodes, brought, now.activity.commit, now.activity.at))
  {
    hide Passed, Plus, SumOver, LatestOver, ListsTell, ListsCapped, IsLatest;
    var reached := Reached(nodes, index, n, done);
    OverOne(nodes, n, |nodes|);
    OverEmpty(nodes, |nodes|);
    PlusZero(SumOver(nodes, reached, |nodes|));
    PlusZero(nodes[n].activity.metrics);
    if reached != {} {
      var j :| j in reached;
      PassedMember(nodes, index, j, n, done);
      assert reached + {} == reached;
      CappedListsTell(nodes, reached, now);
    } else {
      OwnIsLatest(nodes, n);
      assert nodes[n].activity.commit != "" ==> {} + {n} == {n};
      OwnListsTell(nodes, n);
      assert Fresh(nodes, index);
    }
  }

  lemma OwnIsLatest(nodes: seq<Node>, n: nat)
    requires n < |nodes|
    ensures IsLatest(nodes, {n}, nodes[n].activity.commit, nodes[n].activity.at)
  {
    assert n in {n};
  }

  /** The later of two latest commits is the latest of both lots. */
  lemma LaterOfBoth(nodes: seq<Node>, a: set<nat>, b: set<nat>, parent: Activity, node: Activity)
    requires a == {} || IsLatest(nodes, a, parent.commit, parent.at)
    requires a == {} ==> parent.at < node.at
    requires IsLatest(nodes, b, node.commit, node.at)
    ensures IsLatest(nodes, a + b, if node.at > parent.at then node.commit else parent.commit, if node.at > parent.at then node.at else parent.at)
  {
    var j :| j in b && j < |nodes| && nodes[j].activity.commit == node.commit && nodes[j].activity.at == node.at
             && forall k :: k in b && k < |nodes| ==> nodes[k].activity.at <= node.at;
    assert j in a + b;
    if a != {} {
      var i :| i in a && i < |nodes| && nodes[i].activity.commit == parent.commit && nodes[i].activity.at == parent.at
               && forall k :: k in a && k < |nodes| ==> nodes[k].activity.at <= parent.at;
      assert i in a + b;
    }
  }

  function Merge(parent: Activity, node: Activity): Activity {
    var metrics := Plus(parent.metrics, node.metrics);
    var tools, sessions := MergeTools(parent.tools, node.tools), MergeTools(parent.sessions, node.sessions);
    if node.at > parent.at then Activity(metrics, node.commit, node.at, tools, sessions)
    else Activity(metrics, parent.commit, parent.at, tools, sessions)
  }

  lemma MergeCarries(nodes: seq<Node>, index: Index, i: nat, done: set<nat>, n: nat, parent: Node, now: Node)
    requires IsTree(nodes, index) && Fresh(nodes, index) && IsNext(nodes, index, n, done) && Parent(nodes, index, n) == Some(i)
    requires i < |nodes| && n < |nodes|
    requires Carried(nodes, index, i, done, parent) && Carried(nodes, index, n, done, now) && now.activity.commit != ""
    ensures Carried(nodes, index, i, done + {n}, parent.(activity := Merge(parent.activity, now.activity)))
  {
    hide Passed, IsNext, ListsTell, ListsCapped, MergeTools, IsLatest;
    var reached := Reached(nodes, index, i, done);
    if reached == {} {
      EmptyListsTell(nodes, parent);
    } else {
      CappedListsTell(nodes, reached, parent);
    }
    var brought := Reached(nodes, index, n, done) + if nodes[n].activity.commit != "" then {n} else {};
    Brings(nodes, index, n, done, now);
    ReachedStep(nodes, index, i, done, n);
    SumUnion(nodes, reached, brought, |nodes|);
    LatestUnion(nodes, reached, brought, |nodes|);
    assert HasChild(nodes, index, i);
    LatestPositive(nodes, reached, |nodes|);
    LatestPositive(nodes, brought, |nodes|);
    ListsMerge(nodes, reached, brought, parent, now);
    LaterOfBoth(nodes, reached, brought, parent.activity, now.activity);
    PlusAssociates(nodes[i].activity.metrics, SumOver(nodes, reached, |nodes|), SumOver(nodes, brought, |nodes|));
  }

  /** The committed nodes below i. */
  ghost function CommittedBelow(nodes: seq<Node>, index: Index, i: nat): set<nat>
    requires IsTree(nodes, index)
  {
    set j: nat | 0 <= j < |nodes| && j != i && nodes[j].activity.commit != "" && Under(nodes, index, j, i)
  }

  /** What the pass is to leave in each node, told from the tree alone. */
  ghost predicate Totalled(nodes: seq<Node>, index: Index, i: nat, after: Node)
    requires IsTree(nodes, index) && i < |nodes|
  {
    var below := CommittedBelow(nodes, index, i);
    var own, now := nodes[i].activity.metrics, after.activity.metrics;
    && after.path == nodes[i].path && after.parentPath == nodes[i].parentPath
    && now.accesses == own.accesses + CountOver(nodes, (m: Metrics) => m.accesses, below, |nodes|)
    && now.timeMs == own.timeMs + CountOver(nodes, (m: Metrics) => m.timeMs, below, |nodes|)
    && now.added == own.added + CountOver(nodes, (m: Metrics) => m.added, below, |nodes|)
    && now.deleted == own.deleted + CountOver(nodes, (m: Metrics) => m.deleted, below, |nodes|)
    && (below == {} ==> after == nodes[i])
    && (below != {} ==> after.activity.commit != "" && IsLatest(nodes, below, after.activity.commit, after.activity.at))
    && (below != {} ==> ListsCapped(nodes, below, after))
  }

  lemma CarriedIsTotal(nodes: seq<Node>, index: Index, i: nat, done: set<nat>, after: Node)
    requires IsTree(nodes, index) && i < |nodes| && (forall k: nat :: k < |nodes| ==> k in done)
    requires Carried(nodes, index, i, done, after)
    ensures Totalled(nodes, index, i, after)
  {
    forall j: nat | j < |nodes| ensures Passed(nodes, index, j, i, done) <==> Under(nodes, index, j, i) {
      PassedEverything(nodes, index, j, i, done);
    }
    assert Reached(nodes, index, i, done) == CommittedBelow(nodes, index, i);
    SumIsCounts(nodes, CommittedBelow(nodes, index, i), |nodes|);
  }

  lemma CarriedAtStart(nodes: seq<Node>, index: Index, i: nat)
    requires IsTree(nodes, index) && i < |nodes|
    ensures Carried(nodes, index, i, {}, nodes[i])
  {
    forall j: nat | j < |nodes| ensures Passed(nodes, index, j, i, {}) <==> j == i {
      PassedNothing(nodes, index, j, i);
    }
    assert Reached(nodes, index, i, {}) == {};
    OverEmpty(nodes, |nodes|);
  }

  lemma CarriedBeside(nodes: seq<Node>, index: Index, i: nat, done: set<nat>, n: nat, now: Node)
    requires IsTree(nodes, index) && i < |nodes| && IsNext(nodes, index, n, done) && Parent(nodes, index, n) != Some(i)
    requires Carried(nodes, index, i, done, now)
    ensures Carried(nodes, index, i, done + {n}, now)
  {
    ReachedStep(nodes, index, i, done, n);
  }

  /** A node that brings nothing changes nothing. */
  lemma CarriedNothing(nodes: seq<Node>, index: Index, i: nat, done: set<nat>, n: nat, parent: Node, now: Node)
    requires IsTree(nodes, index) && Fresh(nodes, index) && IsNext(nodes, index, n, done) && Parent(nodes, index, n) == Some(i)
    requires i < |nodes| && Carried(nodes, index, i, done, parent) && Carried(nodes, index, n, done, now) && now.activity.commit == ""
    ensures Carried(nodes, index, i, done + {n}, parent)
  {
    Brings(nodes, index, n, done, now);
    ReachedStep(nodes, index, i, done, n);
    assert Reached(nodes, index, i, done) + {} == Reached(nodes, index, i, done);
  }

  ghost predicate AllCarried(start: seq<Node>, index: Index, done: set<nat>, now: seq<Node>)
    requires IsTree(start, index)
  {
    |now| == |start| && forall i :: 0 <= i < |start| ==> Carried(start, index, i, done, now[i])
  }

  /** Node n hands its activity to its parent, if it has a commit and a parent to hand it to. */
  function Handed(nodes: seq<Node>, index: Index, n: nat): seq<Node>
    requires n < |nodes| && InRange(index, |nodes|)
  {
    var node := nodes[n];
    if node.path == "." || node.activity.commit == "" || node.parentPath !in index then nodes
    else
      var p := index[node.parentPath];
      nodes[p := nodes[p].(activity := Merge(nodes[p].activity, node.activity))]
  }

  predicate InRange(index: Index, n: nat) {
    forall p :: p in index ==> index[p] < n
  }

  /** The first k nodes of the order have handed on. */
  function PassedUp(nodes: seq<Node>, index: Index, ordered: seq<nat>, k: nat): (now: seq<Node>)
    requires k <= |ordered| && InRange(index, |nodes|) && forall i :: 0 <= i < k ==> ordered[i] < |nodes|
    ensures |now| == |nodes|
  {
    if k == 0 then nodes else Handed(PassedUp(nodes, index, ordered, k - 1), index, ordered[k - 1])
  }

  /** One pass over the nodes in the given order. */
  method PassUp(nodes: array<Node>, index: Index, ordered: seq<nat>)
    requires InRange(index, nodes.Length) && forall i :: 0 <= i < |ordered| ==> ordered[i] < nodes.Length
    modifies nodes
    ensures nodes[..] == PassedUp(old(nodes[..]), index, ordered, |ordered|)
  {
    hide Plus, MergeTools;
    for k := 0 to |ordered|
      invariant nodes[..] == PassedUp(old(nodes[..]), index, ordered, k)
    {
      var node := nodes[ordered[k]];
      if node.path == "." || node.activity.commit == "" {
        continue;
      }
      if node.parentPath !in index {
        continue;
      }
      var p := index[node.parentPath];
      var parent := nodes[p];
      parent := parent.(activity := parent.activity.(metrics := Plus(parent.activity.metrics, node.activity.metrics)));
      var tools := MergeToolLists(parent.activity.tools, node.activity.tools);
      parent := parent.(activity := parent.activity.(tools := tools));
      var sessions := MergeToolLists(parent.activity.sessions, node.activity.sessions);
      parent := parent.(activity := parent.activity.(sessions := sessions));
      if node.activity.at > parent.activity.at {
        parent := parent.(activity := parent.activity.(commit := node.activity.commit, at := node.activity.at));
      }
      nodes[p] := parent;
    }
  }

  /** Deeper nodes first; what the sort does with nodes of one depth is open, here they keep their order. */
  predicate DeeperFirst(nodes: seq<Node>, i: nat, j: nat) {
    && i < |nodes| && j < |nodes|
    && (Slashes(nodes[i].path) > Slashes(nodes[j].path) || (Slashes(nodes[i].path) == Slashes(nodes[j].path) && i < j))
  }

  method DepthOrder(nodes: seq<Node>) returns (ordered: seq<nat>)
    ensures IsDepthOrder(nodes, ordered)
  {
    ordered := seq(|nodes|, i => i);
    var deeper := (i: nat, j: nat) => DeeperFirst(nodes, i, j);
    DepthSorts(nodes, ordered, deeper);
    ordered := Sort(deeper, ordered);
  }

  lemma DepthSorts(nodes: seq<Node>, indices: seq<nat>, deeper: (nat, nat) -> bool)
    requires |indices| == |nodes| && forall k :: 0 <= k < |nodes| ==> indices[k] == k
    requires forall i: nat, j: nat :: deeper(i, j) <==> DeeperFirst(nodes, i, j)
    ensures IsDepthOrder(nodes, Sort(deeper, indices))
  {
    hide Slashes, Sort;
    assert Distinct(indices);
    assert Orders(deeper, Elements(indices));
    SortSorted(deeper, indices);
    SortElements(deeper, indices);
    var ordered := Sort(deeper, indices);
    SortMultiset(deeper, indices);
    DistinctByMultiset(indices, ordered);
    forall k | 0 <= k < |ordered| ensures ordered[k] < |nodes| {
      assert ordered[k] in Elements(ordered);
      assert ordered[k] in Elements(indices);
      assert ordered[k] in indices;
      var m :| 0 <= m < |indices| && indices[m] == ordered[k];
    }
    forall k, l | 0 <= k < l < |ordered| ensures Slashes(nodes[ordered[k]].path) >= Slashes(nodes[ordered[l]].path) {
      assert deeper(ordered[k], ordered[l]);
    }
  }

  /** Sorts by depth and passes everything up: on a tree whose directories start empty, each node ends with its totals. */
  method AggregateDirectories(nodes: array<Node>, index: Index)
    requires InRange(index, nodes.Length)
    modifies nodes
    ensures exists ordered :: IsDepthOrder(old(nodes[..]), ordered) && nodes[..] == PassedUp(old(nodes[..]), index, ordered, |ordered|)
    ensures (IsTree(old(nodes[..]), index) && Fresh(old(nodes[..]), index)) ==>
              forall i :: 0 <= i < nodes.Length ==> Totalled(old(nodes[..]), index, i, nodes[i])
  {
    hide IsTree, Fresh, Totalled, PassedUp;
    ghost var start := nodes[..];
    var ordered := DepthOrder(nodes[..]);
    PassUp(nodes, index, ordered);
    if IsTree(start, index) && Fresh(start, index) {
      DirectoriesAreTotalled(start, index, ordered);
      assert forall i :: 0 <= i < nodes.Length ==> nodes[i] == nodes[..][i];
    }
  }

  /** Passed from the deepest nodes up, every directory and the root end with the sums over all committed files below
      and the latest of their commit times; files keep what they had. */
  lemma {:induction false} DirectoriesAreTotalled(nodes: seq<Node>, index: Index, ordered: seq<nat>)
    requires IsTree(nodes, index) && Fresh(nodes, index) && IsDepthOrder(nodes, ordered)
    ensures InRange(index, |nodes|) && forall i :: 0 <= i < |ordered| ==> ordered[i] < |nodes|
    ensures forall i :: 0 <= i < |nodes| ==> Totalled(nodes, index, i, PassedUp(nodes, index, ordered, |ordered|)[i])
  {
    hide Fresh, Carried, Totalled, PassedUp, Elements;
    OrderCarries(nodes, index, ordered, |ordered|);
    assert ordered[..|ordered|] == ordered;
    PermutationCovers(ordered, |nodes|);
    forall i | 0 <= i < |nodes| ensures Totalled(nodes, index, i, PassedUp(nodes, index, ordered, |ordered|)[i]) {
      CarriedIsTotal(nodes, index, i, Elements(ordered), PassedUp(nodes, index, ordered, |ordered|)[i]);
    }
  }

  lemma {:induction false} OrderCarries(nodes: seq<Node>, index: Index, ordered: seq<nat>, k: nat)
    requires IsTree(nodes, index) && Fresh(nodes, index) && IsDepthOrder(nodes, ordered) && k <= |ordered|
    ensures InRange(index, |nodes|) && AllCarried(nodes, index, Elements(ordered[..k]), PassedUp(nodes, index, ordered, k))
  {
    hide Fresh, Carried, IsNext, Handed, Elements;
    if k == 0 {
      NothingPassed(nodes, index, ordered);
    } else {
      OrderCarries(nodes, index, ordered, k - 1);
      NextInOrder(nodes, index, ordered, k - 1);
      assert ordered[..k] == ordered[..k - 1] + [ordered[k - 1]];
      ElementsSnoc(ordered[..k - 1], ordered[k - 1]);
      HandedCarries(nodes, index, ordered[k - 1], Elements(ordered[..k - 1]), PassedUp(nodes, index, ordered, k - 1));
    }
  }

  lemma NothingPassed(nodes: seq<Node>, index: Index, ordered: seq<nat>)
    requires IsTree(nodes, index)
    ensures AllCarried(nodes, index, Elements(ordered[..0]), nodes)
  {
    assert Elements(ordered[..0]) == {};
    forall i | 0 <= i < |nodes| ensures Carried(nodes, index, i, {}, nodes[i]) {
      CarriedAtStart(nodes, index, i);
    }
  }

  lemma HandedCarries(start: seq<Node>, index: Index, n: nat, done: set<nat>, now: seq<Node>)
    requires IsTree(start, index) && Fresh(start, index) && IsNext(start, index, n, done) && n < |start|
    requires AllCarried(start, index, done, now)
    ensures AllCarried(start, index, done + {n}, Handed(now, index, n))
  {
    hide Fresh, IsNext, Merge;
    var node := now[n];
    assert Carried(start, index, n, done, node);
    forall i | 0 <= i < |start| && Parent(start, index, n) != Some(i) ensures Carried(start, index, i, done + {n}, now[i]) {
      CarriedBeside(start, index, i, done, n, now[i]);
    }
    if node.path == "." || node.activity.commit == "" {
      forall i | 0 <= i < |start| && Parent(start, index, n) == Some(i) ensures Carried(start, index, i, done + {n}, now[i]) {
        CarriedNothing(start, index, i, done, n, now[i], now[n]);
      }
    } else {
      var p := index[node.parentPath];
      assert Parent(start, index, n) == Some(p);
      ParentRank(start, index, n);
      MergeCarries(start, index, p, done, n, now[p], now[n]);
    }
  }

  ghost function Below(n: nat): (all: set<nat>)
    ensures |all| == n && forall i: nat :: i in all <==> i < n
  {
    if n == 0 then {} else Below(n - 1) + {n - 1}
  }

  /** Distinct numbers below n, n of them, are all of them. */
  lemma {:induction false} PermutationCovers(ordered: seq<nat>, n: nat)
    requires |ordered| == n && Distinct(ordered) && forall k :: 0 <= k < n ==> ordered[k] < n
    ensures forall i: nat :: i < n ==> i in Elements(ordered)
  {
    DistinctSize(ordered);
    assert Elements(ordered) <= Below(n);
    FullSubset(Elements(ordered), Below(n));
  }

  lemma {:induction false} FullSubset(a: set<nat>, b: set<nat>)
    requires a <= b && |a| == |b|
    ensures a == b
  {
    if a != {} {
      var x :| x in a;
      FullSubset(a - {x}, b - {x});
      assert a == (a - {x}) + {x} && b == (b - {x}) + {x};
    }
  }
}
