/** How one batch of the work-delta pipeline is resolved and published (internal/diff/pipeline.go). */
module WorkResults {
  import opened Common
  import opened LineDiff
  import opened PatchCount

  datatype Origin = StructuredPatch | CorrelatedSnapshot | GitNumstat | UnknownOrigin

  /** A request as the queue holds it; an absent snapshot is an empty one, since Offer copies bytes. */
  datatype Request = Request(
    key: string,
    projectRoot: string,
    path: string,
    structuredAdded: Option<int>,
    structuredDeleted: Option<int>,
    structuredPatch: Option<seq<Byte>>,
    before: seq<Byte>,
    after: seq<Byte>,
    allowSnapshots: bool,
    isBinary: bool)

  datatype WorkResult = WorkResult(key: string, path: string, added: Option<int>, deleted: Option<int>, status: Status, origin: Origin)

  datatype GitDelta = GitDelta(added: int, deleted: int, binary: bool)

  /** What one numstat call answers: nothing on an error. */
  type GitAnswer = Option<map<string, GitDelta>>

  function Numbers(r: Request, added: int, deleted: int, origin: Origin): WorkResult {
    WorkResult(r.key, r.path, Some(added), Some(deleted), if added == 0 && deleted == 0 then Empty else Known, origin)
  }

  function NoNumbers(r: Request, status: Status, origin: Origin): WorkResult {
    WorkResult(r.key, r.path, None, None, status, origin)
  }

  function UnknownResult(r: Request): WorkResult {
    NoNumbers(r, Status.Unknown, UnknownOrigin)
  }

  function Counted(r: Request, counts: Counts, origin: Origin): WorkResult {
    if counts.status.Known? || counts.status.Empty? then WorkResult(r.key, r.path, Some(counts.added), Some(counts.deleted), counts.status, origin)
    else NoNumbers(r, counts.status, origin)
  }

  function OrZero(n: Option<int>): int {
    if n.Some? then Max(0, n.value) else 0
  }

  /** resolveDirect: the evidence order of the pipeline, short of asking Git. */
  function Direct(r: Request, isUtf8: seq<Byte> -> bool): Option<WorkResult> {
    if r.isBinary then Some(NoNumbers(r, Binary, StructuredPatch))
    else if r.structuredAdded.Some? || r.structuredDeleted.Some? then
      Some(Numbers(r, OrZero(r.structuredAdded), OrZero(r.structuredDeleted), StructuredPatch))
    else if r.structuredPatch.Some? then Some(Counted(r, PatchCounts(r.structuredPatch.value, isUtf8), StructuredPatch))
    else if r.allowSnapshots && (r.before != [] || r.after != []) then
      var counts := SnapshotCounts(r.before, r.after, isUtf8);
      if counts.status.Unknown? then None else Some(Counted(r, counts, CorrelatedSnapshot))
    else None
  }

  method ResolveDirect(r: Request, isUtf8: seq<Byte> -> bool) returns (result: Option<WorkResult>)
    ensures result == Direct(r, isUtf8)
  {
    if r.isBinary {
      return Some(NoNumbers(r, Binary, StructuredPatch));
    }
    if r.structuredAdded.Some? || r.structuredDeleted.Some? {
      var added, deleted := 0, 0;
      if r.structuredAdded.Some? {
        added := Max(0, r.structuredAdded.value);
      }
      if r.structuredDeleted.Some? {
        deleted := Max(0, r.structuredDeleted.value);
      }
      return Some(Numbers(r, added, deleted, StructuredPatch));
    }
    if r.structuredPatch.Some? {
      var counts := CountPatch(r.structuredPatch.value, isUtf8);
      return Some(Counted(r, counts, StructuredPatch));
    }
    if r.allowSnapshots && (r.before != [] || r.after != []) {
      var counts := CountSnapshots(r.before, r.after, isUtf8);
      if counts.status.Unknown? {
        return None;
      }
      return Some(Counted(r, counts, CorrelatedSnapshot));
    }
    return None;
  }

  function FromGit(r: Request, answer: GitAnswer): WorkResult {
    if answer.None? || r.path !in answer.value then UnknownResult(r)
    else if answer.value[r.path].binary then NoNumbers(r, Binary, GitNumstat)
    else Numbers(r, answer.value[r.path].added, answer.value[r.path].deleted, GitNumstat)
  }

  predicate AsksGit(r: Request, isUtf8: seq<Byte> -> bool, hasRunner: bool) {
    Direct(r, isUtf8).None? && r.projectRoot != "" && r.path != "" && hasRunner
  }

  // ----- one batch -----

  /** The requests of a batch that go to Git for one root, in batch order. */
  function Group(batch: seq<Request>, root: string, isUtf8: seq<Byte> -> bool, hasRunner: bool): seq<Request> {
    if batch == [] then []
    else
      var rest, r := Group(batch[..|batch| - 1], root, isUtf8, hasRunner), batch[|batch| - 1];
      if AsksGit(r, isUtf8, hasRunner) && r.projectRoot == root then rest + [r] else rest
  }

  function UniquePaths(requests: seq<Request>): seq<string> {
    if requests == [] then []
    else
      var rest, path := UniquePaths(requests[..|requests| - 1]), requests[|requests| - 1].path;
      if path in rest then rest else rest + [path]
  }

  /** The one result a request of the batch gets, given how Git answers for each root and path list. */
  function ResultFor(r: Request, batch: seq<Request>, isUtf8: seq<Byte> -> bool, git: Option<(string, seq<string>) -> GitAnswer>): WorkResult {
    if Direct(r, isUtf8).Some? then Direct(r, isUtf8).value
    else if !AsksGit(r, isUtf8, git.Some?) then UnknownResult(r)
    else FromGit(r, git.value(r.projectRoot, UniquePaths(Group(batch, r.projectRoot, isUtf8, true))))
  }

  function Results(requests: seq<Request>, batch: seq<Request>, isUtf8: seq<Byte> -> bool, git: Option<(string, seq<string>) -> GitAnswer>): seq<WorkResult> {
    seq(|requests|, i requires 0 <= i < |requests| => ResultFor(requests[i], batch, isUtf8, git))
  }

  /** The requests of the batch answered without Git, in batch order. */
  function Immediate(batch: seq<Request>, isUtf8: seq<Byte> -> bool, hasRunner: bool): seq<Request> {
    if batch == [] then []
    else
      var rest, r := Immediate(batch[..|batch| - 1], isUtf8, hasRunner), batch[|batch| - 1];
      if AsksGit(r, isUtf8, hasRunner) then rest else rest + [r]
  }

  function GroupsOf(batch: seq<Request>, roots: seq<string>, isUtf8: seq<Byte> -> bool, hasRunner: bool): seq<Request> {
    if roots == [] then []
    else GroupsOf(batch, roots[..|roots| - 1], isUtf8, hasRunner) + Group(batch, roots[|roots| - 1], isUtf8, hasRunner)
  }

  /**
   What of the results tried goes out: goes tells of each try, counted through the batch, whether it
   is sent; after a cancellation it may be given up.
   */
  function Through(tried: seq<WorkResult>, goes: nat -> bool, from: nat): seq<WorkResult> {
    if tried == [] then []
    else Through(tried[..|tried| - 1], goes, from) + if goes(from + |tried| - 1) then [tried[|tried| - 1]] else []
  }

  lemma ThroughSnoc(tried: seq<WorkResult>, next: WorkResult, goes: nat -> bool, from: nat)
    ensures Through(tried + [next], goes, from) == Through(tried, goes, from) + if goes(from + |tried|) then [next] else []
  {
    assert (tried + [next])[..|tried|] == tried;
  }

  lemma {:induction false} ThroughJoin(a: seq<WorkResult>, b: seq<WorkResult>, goes: nat -> bool, from: nat)
    ensures Through(a + b, goes, from) == Through(a, goes, from) + Through(b, goes, from + |a|)
  {
    hide Through;
    if b == [] {
      NothingThrough(goes);
      assert a + b == a;
    } else {
      var front, last := b[..|b| - 1], b[|b| - 1];
      ThroughJoin(a, front, goes, from);
      ThroughSnoc(a + front, last, goes, from);
      ThroughSnoc(front, last, goes, from + |a|);
      assert b == front + [last];
      assert a + b == a + front + [last];
    }
  }

  /** Each result goes out at most as often as it was tried. */
  lemma {:induction false} ThroughIsPart(tried: seq<WorkResult>, goes: nat -> bool, from: nat)
    ensures multiset(Through(tried, goes, from)) <= multiset(tried) && |Through(tried, goes, from)| <= |tried|
  {
    if tried != [] {
      hide Through;
      var front, last := tried[..|tried| - 1], tried[|tried| - 1];
      ThroughIsPart(front, goes, from);
      ThroughSnoc(front, last, goes, from);
      assert tried == front + [last];
      assert multiset(tried) == multiset(front) + multiset{last};
    }
  }

  /** Without a cancellation everything goes out. */
  lemma {:induction false} AllThrough(tried: seq<WorkResult>, goes: nat -> bool, from: nat)
    requires forall k :: from <= k < from + |tried| ==> goes(k)
    ensures Through(tried, goes, from) == tried
  {
    if tried != [] {
      var front, last := tried[..|tried| - 1], tried[|tried| - 1];
      AllThrough(front, goes, from);
      assert tried == front + [last];
    }
  }

  method CollectPaths(requests: seq<Request>) returns (paths: seq<string>)
    ensures paths == UniquePaths(requests)
  {
    paths := [];
    var seen: set<string> := {};
    for i := 0 to |requests|
      invariant paths == UniquePaths(requests[..i]) && seen == Elements(paths)
    {
      assert requests[..i + 1][..i] == requests[..i];
      if requests[i].path !in seen {
        seen := seen + {requests[i].path};
        paths := paths + [requests[i].path];
      }
    }
    assert requests[..|requests|] == requests;
  }

  ghost predicate GroupsAre(groups: map<string, seq<Request>>, batch: seq<Request>, isUtf8: seq<Byte> -> bool, hasRunner: bool) {
    && (forall root :: Group(batch, root, isUtf8, hasRunner) == if root in groups then groups[root] else [])
    && (forall root :: root in groups ==> groups[root] != [])
  }

  /** publish: the select between sending and the cancelled context. */
  method Publish(published: seq<WorkResult>, tried: nat, result: WorkResult, goes: nat -> bool) returns (now: seq<WorkResult>, next: nat)
    ensures now == published + (if goes(tried) then [result] else []) && next == tried + 1
  {
    now, next := published, tried + 1;
    if goes(tried) {
      now := now + [result];
    }
  }

  /** The first loop of process: publish what needs no Git, sort the rest by root. */
  method PublishImmediate(batch: seq<Request>, isUtf8: seq<Byte> -> bool, git: Option<(string, seq<string>) -> GitAnswer>, goes: nat -> bool)
    returns (published: seq<WorkResult>, tried: nat, groups: map<string, seq<Request>>)
    ensures published == Through(Results(Immediate(batch, isUtf8, git.Some?), batch, isUtf8, git), goes, 0)
    ensures tried == |Immediate(batch, isUtf8, git.Some?)|
    ensures GroupsAre(groups, batch, isUtf8, git.Some?)
  {
    hide Direct, ResultFor, Through;
    groups := map[];
    published, tried := [], 0;
    NothingThrough(goes);
    NoResults(batch, isUtf8, git);
    for i := 0 to |batch|
      invariant published == Through(Results(Immediate(batch[..i], isUtf8, git.Some?), batch, isUtf8, git), goes, 0)
      invariant tried == |Immediate(batch[..i], isUtf8, git.Some?)|
      invariant GroupsAre(groups, batch[..i], isUtf8, git.Some?)
    {
      assert batch[..i + 1][..i] == batch[..i];
      var r := batch[i];
      var direct := ResolveDirect(r, isUtf8);
      ImmediateResult(r, batch, isUtf8, git);
      if direct.Some? || r.projectRoot == "" || r.path == "" || git.None? {
        var result := if direct.Some? then direct.value else UnknownResult(r);
        ThroughSnoc(Results(Immediate(batch[..i], isUtf8, git.Some?), batch, isUtf8, git), result, goes, 0);
        ResultsSnoc(Immediate(batch[..i], isUtf8, git.Some?), r, batch, isUtf8, git);
        published, tried := Publish(published, tried, result, goes);
      } else {
        groups := groups[r.projectRoot := (if r.projectRoot in groups then groups[r.projectRoot] else []) + [r]];
      }
    }
    assert batch[..|batch|] == batch;
  }

  lemma NothingThrough(goes: nat -> bool)
    ensures forall from: nat :: Through([], goes, from) == []
  {
  }

  lemma ResultsSnoc(requests: seq<Request>, r: Request, batch: seq<Request>, isUtf8: seq<Byte> -> bool, git: Option<(string, seq<string>) -> GitAnswer>)
    ensures Results(requests + [r], batch, isUtf8, git) == Results(requests, batch, isUtf8, git) + [ResultFor(r, batch, isUtf8, git)]
    ensures |Results(requests, batch, isUtf8, git)| == |requests|
  {
    hide ResultFor;
  }

  /** Tries the immediate results in batch order, then group by group in the order the map yields its roots. */
  method Process(batch: seq<Request>, isUtf8: seq<Byte> -> bool, git: Option<(string, seq<string>) -> GitAnswer>, goes: nat -> bool)
    returns (published: seq<WorkResult>, ghost order: seq<Request>)
    ensures multiset(order) == multiset(batch)
    ensures published == Through(Results(order, batch, isUtf8, git), goes, 0)
    ensures multiset(published) <= multiset(Results(order, batch, isUtf8, git))
    ensures (forall k :: 0 <= k < |batch| ==> goes(k)) ==> published == Results(order, batch, isUtf8, git)
  {
    hide Direct, ResultFor, Results, Group, GroupsOf, Immediate, AsksGit, Elements, Distinct, Through;
    EmptyElements();
    NoGroups(batch, isUtf8, git.Some?);
    var tried, groups;
    published, tried, groups := PublishImmediate(batch, isUtf8, git, goes);
    ghost var first := Immediate(batch, isUtf8, git.Some?);
    order := first;
    var todo := groups.Keys;
    ghost var roots: seq<string> := [];
    assert first + GroupsOf(batch, [], isUtf8, git.Some?) == first;
    while todo != {}
      invariant todo <= groups.Keys && Elements(roots) == groups.Keys - todo && Distinct(roots)
      invariant order == first + GroupsOf(batch, roots, isUtf8, git.Some?) && tried == |order|
      invariant published == Through(Results(order, batch, isUtf8, git), goes, 0)
    {
      var root :| root in todo;
      var results, next := ProcessGroup(batch, root, groups[root], isUtf8, git, goes, tried);
      ResultsJoin(order, groups[root], batch, isUtf8, git);
      ThroughJoin(Results(order, batch, isUtf8, git), Results(groups[root], batch, isUtf8, git), goes, 0);
      published, tried := published + results, next;
      GroupsOfSnoc(batch, roots, root, isUtf8, git.Some?);
      ElementsSnoc(roots, root);
      assert groups.Keys - (todo - {root}) == (groups.Keys - todo) + {root};
      assert first + (GroupsOf(batch, roots, isUtf8, git.Some?) + groups[root]) == order + groups[root];
      order := order + groups[root];
      roots := roots + [root];
      todo := todo - {root};
    }
    forall r | r in batch && AsksGit(r, isUtf8, git.Some?) ensures r.projectRoot in roots {
      GroupHasMember(batch, r, isUtf8, git.Some?);
      InElements(roots, r.projectRoot);
    }
    GroupsCover(batch, roots, isUtf8, git.Some?);
    SameMultiset(order, batch);
    ResultsJoin(order, [], batch, isUtf8, git);
    ThroughIsPart(Results(order, batch, isUtf8, git), goes, 0);
    if forall k :: 0 <= k < |batch| ==> goes(k) {
      AllThrough(Results(order, batch, isUtf8, git), goes, 0);
    }
  }

  lemma NoGroups(batch: seq<Request>, isUtf8: seq<Byte> -> bool, hasRunner: bool)
    ensures GroupsOf(batch, [], isUtf8, hasRunner) == []
  {
  }

  lemma GroupsOfSnoc(batch: seq<Request>, roots: seq<string>, root: string, isUtf8: seq<Byte> -> bool, hasRunner: bool)
    ensures GroupsOf(batch, roots + [root], isUtf8, hasRunner) ==
            GroupsOf(batch, roots, isUtf8, hasRunner) + Group(batch, root, isUtf8, hasRunner)
  {
    assert (roots + [root])[..|roots|] == roots;
  }

  lemma ResultsJoin(a: seq<Request>, b: seq<Request>, batch: seq<Request>, isUtf8: seq<Byte> -> bool, git: Option<(string, seq<string>) -> GitAnswer>)
    ensures Results(a + b, batch, isUtf8, git) == Results(a, batch, isUtf8, git) + Results(b, batch, isUtf8, git)
    ensures |Results(a, batch, isUtf8, git)| == |a|
  {
    hide ResultFor;
  }

  lemma EmptyElements()
    ensures Elements<string>([]) == {} && Distinct<string>([])
  {
  }

  lemma InElements(roots: seq<string>, root: string)
    ensures root in Elements(roots) <==> root in roots
  {
  }

  lemma {:induction false} GroupHasMember(batch: seq<Request>, r: Request, isUtf8: seq<Byte> -> bool, hasRunner: bool)
    requires r in batch && AsksGit(r, isUtf8, hasRunner)
    ensures r in Group(batch, r.projectRoot, isUtf8, hasRunner)
  {
    hide AsksGit;
    if r in batch[..|batch| - 1] {
      GroupHasMember(batch[..|batch| - 1], r, isUtf8, hasRunner);
    }
  }

  method ProcessGroup(batch: seq<Request>, root: string, requests: seq<Request>, isUtf8: seq<Byte> -> bool,
                      git: Option<(string, seq<string>) -> GitAnswer>, goes: nat -> bool, from: nat)
    returns (results: seq<WorkResult>, tried: nat)
    requires requests == Group(batch, root, isUtf8, git.Some?) && requests != []
    ensures results == Through(Results(requests, batch, isUtf8, git), goes, from) && tried == from + |requests|
  {
    hide Direct, Group, UniquePaths, ResultFor, FromGit, Results, Through;
    GroupMembers(batch, root, isUtf8, git.Some?);
    assert git.Some? by { assert requests[0] in requests; }
    var paths := CollectPaths(requests);
    var answer := git.value(root, paths);
    results, tried := [], from;
    NothingThrough(goes);
    NoResults(batch, isUtf8, git);
    for i := 0 to |requests|
      invariant tried == from + i
      invariant results == Through(Results(requests[..i], batch, isUtf8, git), goes, from)
    {
      assert requests[i] in requests;
      assert requests[..i + 1] == requests[..i] + [requests[i]];
      GroupResult(batch, requests[i], isUtf8, git);
      ResultsSnoc(requests[..i], requests[i], batch, isUtf8, git);
      ThroughSnoc(Results(requests[..i], batch, isUtf8, git), FromGit(requests[i], answer), goes, from);
      results, tried := Publish(results, tried, FromGit(requests[i], answer), goes);
    }
    assert requests[..|requests|] == requests;
  }

  lemma NoResults(batch: seq<Request>, isUtf8: seq<Byte> -> bool, git: Option<(string, seq<string>) -> GitAnswer>)
    ensures Results([], batch, isUtf8, git) == []
  {
  }

  lemma GroupResult(batch: seq<Request>, r: Request, isUtf8: seq<Byte> -> bool, git: Option<(string, seq<string>) -> GitAnswer>)
    requires AsksGit(r, isUtf8, git.Some?) && git.Some?
    ensures ResultFor(r, batch, isUtf8, git) == FromGit(r, git.value(r.projectRoot, UniquePaths(Group(batch, r.projectRoot, isUtf8, true))))
  {
    hide Direct, Group;
  }

  lemma {:induction false} GroupMembers(batch: seq<Request>, root: string, isUtf8: seq<Byte> -> bool, hasRunner: bool)
    ensures forall r :: r in Group(batch, root, isUtf8, hasRunner) ==> AsksGit(r, isUtf8, hasRunner) && r.projectRoot == root && r in batch
  {
    hide AsksGit;
    if batch != [] {
      GroupMembers(batch[..|batch| - 1], root, isUtf8, hasRunner);
    }
  }

  lemma ImmediateResult(r: Request, batch: seq<Request>, isUtf8: seq<Byte> -> bool, git: Option<(string, seq<string>) -> GitAnswer>)
    ensures !AsksGit(r, isUtf8, git.Some?) ==>
              ResultFor(r, batch, isUtf8, git) == if Direct(r, isUtf8).Some? then Direct(r, isUtf8).value else UnknownResult(r)
    ensures AsksGit(r, isUtf8, git.Some?) <==> Direct(r, isUtf8).None? && r.projectRoot != "" && r.path != "" && git.Some?
  {
  }

  lemma {:induction false} GroupsSnoc(batch: seq<Request>, r: Request, roots: seq<string>, isUtf8: seq<Byte> -> bool, hasRunner: bool)
    requires Distinct(roots)
    ensures multiset(GroupsOf(batch + [r], roots, isUtf8, hasRunner)) ==
            multiset(GroupsOf(batch, roots, isUtf8, hasRunner)) +
            if AsksGit(r, isUtf8, hasRunner) && r.projectRoot in roots then multiset{r} else multiset{}
  {
    hide AsksGit, Group;
    if roots != [] {
      var front, root := roots[..|roots| - 1], roots[|roots| - 1];
      GroupsSnoc(batch, r, front, isUtf8, hasRunner);
      GroupSnoc(batch, r, root, isUtf8, hasRunner);
      assert root !in front;
      assert r.projectRoot in roots <==> r.projectRoot in front || r.projectRoot == root;
    }
  }

  lemma GroupSnoc(batch: seq<Request>, r: Request, root: string, isUtf8: seq<Byte> -> bool, hasRunner: bool)
    ensures Group(batch + [r], root, isUtf8, hasRunner) ==
            Group(batch, root, isUtf8, hasRunner) + if AsksGit(r, isUtf8, hasRunner) && r.projectRoot == root then [r] else []
  {
    assert (batch + [r])[..|batch|] == batch;
  }

  /** Groups plus immediate requests are the whole batch. */
  lemma {:induction false} GroupsCover(batch: seq<Request>, roots: seq<string>, isUtf8: seq<Byte> -> bool, hasRunner: bool)
    requires Distinct(roots)
    requires forall r :: r in batch && AsksGit(r, isUtf8, hasRunner) ==> r.projectRoot in roots
    ensures multiset(Immediate(batch, isUtf8, hasRunner) + GroupsOf(batch, roots, isUtf8, hasRunner)) == multiset(batch)
  {
    hide AsksGit;
    if batch == [] {
      EmptyGroups(roots, isUtf8, hasRunner);
    } else {
      var front, r := batch[..|batch| - 1], batch[|batch| - 1];
      assert batch == front + [r];
      GroupsCover(front, roots, isUtf8, hasRunner);
      GroupsSnoc(front, r, roots, isUtf8, hasRunner);
    }
  }

  lemma {:induction false} EmptyGroups(roots: seq<string>, isUtf8: seq<Byte> -> bool, hasRunner: bool)
    ensures GroupsOf([], roots, isUtf8, hasRunner) == []
  {
    if roots != [] {
      EmptyGroups(roots[..|roots| - 1], isUtf8, hasRunner);
    }
  }

  /** Numbers come exactly with "known" and "empty", and "empty" means two zeroes: no zero is ever invented. */
  predicate Honest(result: WorkResult) {
    && (result.added.Some? <==> result.status.Known? || result.status.Empty?)
    && (result.added.Some? <==> result.deleted.Some?)
    && (result.status.Empty? <==> result.added == Some(0) && result.deleted == Some(0))
  }

  lemma ResultsAreHonest(r: Request, batch: seq<Request>, isUtf8: seq<Byte> -> bool, git: Option<(string, seq<string>) -> GitAnswer>)
    ensures Honest(ResultFor(r, batch, isUtf8, git)) && ResultFor(r, batch, isUtf8, git).key == r.key
  {
    hide SplitLines, PatchCount.AddedLines, PatchCount.DeletedLines, Lcs;
    CountsLaws(SplitLines(r.before), SplitLines(r.after));
  }

  // ----- what each piece of evidence is published as -----

  predicate IsCounted(x: WorkResult, added: int, deleted: int, status: Status, origin: Origin) {
    x.added == Some(added) && x.deleted == Some(deleted) && x.status == status && x.origin == origin
  }

  predicate IsUncounted(x: WorkResult, status: Status, origin: Origin) {
    x.added == None && x.deleted == None && x.status == status && x.origin == origin
  }

  /** The numbers of a request, those left out and negative ones as zero. */
  function AtLeastZero(n: Option<int>): int {
    match n
    case None => 0
    case Some(v) => if v < 0 then 0 else v
  }

  predicate HasNumbers(r: Request) {
    r.structuredAdded.Some? || r.structuredDeleted.Some?
  }

  predicate HasSnapshots(r: Request) {
    r.allowSnapshots && !(r.before == [] && r.after == [])
  }

  /** Nothing in the request settles it: no binary mark, numbers, patch, or snapshots that can be compared. */
  predicate LacksEvidence(r: Request, isUtf8: seq<Byte> -> bool) {
    && !r.isBinary && !HasNumbers(r) && r.structuredPatch.None?
    && (HasSnapshots(r) ==> SnapshotCounts(r.before, r.after, isUtf8).status == Status.Unknown)
  }

  /** The counts read off the evidence, or its status alone. */
  predicate IsReadOff(x: WorkResult, counts: Counts, origin: Origin) {
    if counts.status == Status.Known || counts.status == Status.Empty then IsCounted(x, counts.added, counts.deleted, counts.status, origin)
    else IsUncounted(x, counts.status, origin)
  }

  /** A binary mark comes first, then numbers, then a patch, then snapshots, before against after. */
  lemma EvidenceIsPublished(r: Request, batch: seq<Request>, isUtf8: seq<Byte> -> bool, git: Option<(string, seq<string>) -> GitAnswer>)
    requires !LacksEvidence(r, isUtf8)
    ensures var x := ResultFor(r, batch, isUtf8, git);
            && x.key == r.key && x.path == r.path
            && (r.isBinary ==> IsUncounted(x, Binary, StructuredPatch))
            && (!r.isBinary && HasNumbers(r) ==>
                 var added, deleted := AtLeastZero(r.structuredAdded), AtLeastZero(r.structuredDeleted);
                 IsCounted(x, added, deleted, if added == 0 && deleted == 0 then Empty else Known, StructuredPatch))
            && (!r.isBinary && !HasNumbers(r) && r.structuredPatch.Some? ==>
                 IsReadOff(x, PatchCounts(r.structuredPatch.value, isUtf8), StructuredPatch))
            && (!r.isBinary && !HasNumbers(r) && r.structuredPatch.None? ==>
                 HasSnapshots(r) && IsReadOff(x, SnapshotCounts(r.before, r.after, isUtf8), CorrelatedSnapshot))
  {
    hide PatchCounts, SnapshotCounts;
  }

  lemma LackingIsUndirected(r: Request, isUtf8: seq<Byte> -> bool)
    ensures LacksEvidence(r, isUtf8) <==> Direct(r, isUtf8).None?
  {
    hide PatchCounts, SnapshotCounts;
  }

  /** The request is one of those Git is asked about for the root. */
  predicate IsAsked(q: Request, root: string, isUtf8: seq<Byte> -> bool) {
    LacksEvidence(q, isUtf8) && q.projectRoot == root && root != "" && q.path != ""
  }

  ghost predicate PathIsAsked(batch: seq<Request>, root: string, isUtf8: seq<Byte> -> bool, path: string) {
    exists k :: 0 <= k < |batch| && IsAsked(batch[k], root, isUtf8) && batch[k].path == path
  }

  lemma {:induction false} UniquePathsLaw(requests: seq<Request>)
    ensures Distinct(UniquePaths(requests))
    ensures forall p :: p in UniquePaths(requests) <==> exists k :: 0 <= k < |requests| && requests[k].path == p
  {
    if requests != [] {
      var front, last := requests[..|requests| - 1], |requests| - 1;
      UniquePathsLaw(front);
      var paths := UniquePaths(front);
      assert forall i :: 0 <= i < |paths| ==> paths[i] in paths;
      forall p ensures p in UniquePaths(requests) <==> exists k :: 0 <= k < |requests| && requests[k].path == p {
        if p in paths {
          var k :| 0 <= k < |front| && front[k].path == p;
          assert requests[k].path == p;
        }
        if k :| 0 <= k < |requests| && requests[k].path == p {
          if k < last {
            assert front[k].path == p;
          }
        }
        assert requests[last].path in UniquePaths(requests);
      }
    }
  }

  lemma GroupPathsAreAsked(batch: seq<Request>, root: string, isUtf8: seq<Byte> -> bool, path: string)
    requires root != ""
    ensures path in UniquePaths(Group(batch, root, isUtf8, true)) <==> PathIsAsked(batch, root, isUtf8, path)
  {
    hide UniquePaths, Group, LacksEvidence, Direct;
    var group := Group(batch, root, isUtf8, true);
    UniquePathsLaw(group);
    GroupMembers(batch, root, isUtf8, true);
    if path in UniquePaths(group) {
      var k :| 0 <= k < |group| && group[k].path == path;
      assert group[k] in group;
      LackingIsUndirected(group[k], isUtf8);
      var j :| 0 <= j < |batch| && batch[j] == group[k];
      assert IsAsked(batch[j], root, isUtf8);
    }
    if PathIsAsked(batch, root, isUtf8, path) {
      var j :| 0 <= j < |batch| && IsAsked(batch[j], root, isUtf8) && batch[j].path == path;
      LackingIsUndirected(batch[j], isUtf8);
      GroupHasMember(batch, batch[j], isUtf8, true);
      var k :| 0 <= k < |group| && group[k] == batch[j];
    }
  }

  /**
   Without evidence of its own a request gets what Git answers for its path: the reply's counts each
   in the field of its name, the binary mark, or unknown. Git is asked for each path of the root once.
   */
  lemma GitIsPublished(r: Request, batch: seq<Request>, isUtf8: seq<Byte> -> bool, git: Option<(string, seq<string>) -> GitAnswer>)
    returns (paths: seq<string>)
    requires LacksEvidence(r, isUtf8)
    ensures r.projectRoot != "" ==> Distinct(paths) && forall p :: p in paths <==> PathIsAsked(batch, r.projectRoot, isUtf8, p)
    ensures var x := ResultFor(r, batch, isUtf8, git);
            && x.key == r.key && x.path == r.path
            && if r.projectRoot == "" || r.path == "" || git.None? then IsUncounted(x, Status.Unknown, UnknownOrigin)
               else
                 var answer := git.value(r.projectRoot, paths);
                 if answer.None? || r.path !in answer.value then IsUncounted(x, Status.Unknown, UnknownOrigin)
                 else if answer.value[r.path].binary then IsUncounted(x, Binary, GitNumstat)
                 else
                   var delta := answer.value[r.path];
                   IsCounted(x, delta.added, delta.deleted, if delta.added == 0 && delta.deleted == 0 then Empty else Known, GitNumstat)
  {
    hide UniquePaths, Group, PathIsAsked, LacksEvidence, Direct;
    LackingIsUndirected(r, isUtf8);
    var group := Group(batch, r.projectRoot, isUtf8, true);
    paths := UniquePaths(group);
    UniquePathsLaw(group);
    if r.projectRoot != "" {
      forall p ensures p in paths <==> PathIsAsked(batch, r.projectRoot, isUtf8, p) {
        GroupPathsAreAsked(batch, r.projectRoot, isUtf8, p);
      }
    }
  }
}
