/** Pairing what vanished with what appeared: correlateRenames of internal/adapters/filesystem/observer.go. */
module RenameMatch {
  import opened Common

  datatype FileState = FileState(present: bool, directory: bool, size: int, modTime: int)

  const ABSENT := FileState(false, false, 0, 0)

  datatype Operation = Create | Write | Remove | Rename

  datatype Change = Change(path: string, ops: set<Operation>, before: FileState, after: FileState, first: int, last: int, count: nat)

  datatype Pair = Pair(prior: Change, next: Change)

  /** The pairs found so far, in the order found, and the paths they use up. */
  datatype Match = Match(pairs: seq<Pair>, consumed: set<string>)

  predicate SameFingerprint(left: FileState, right: FileState) {
    left.present && right.present && left.directory == right.directory && left.size == right.size && left.modTime == right.modTime
  }

  predicate IsCreate(c: Change) {
    c.after.present && Create in c.ops
  }

  predicate IsVanished(c: Change) {
    !c.after.present && Rename in c.ops
  }

  function Take(m: Match, prior: Change, next: Change): Match {
    Match(m.pairs + [Pair(prior, next)], m.consumed + {prior.path, next.path})
  }

  /** relative maps a path to the one git uses. */
  function ByRelative(batch: seq<Change>, relative: string -> string): map<string, Change> {
    if batch == [] then map[]
    else ByRelative(batch[..|batch| - 1], relative)[relative(batch[|batch| - 1].path) := batch[|batch| - 1]]
  }

  function GitStep(m: Match, known: map<string, Change>, from: string, to: string): Match {
    if from in known && to in known && known[from].path !in m.consumed && known[to].path !in m.consumed
    then Take(m, known[from], known[to]) else m
  }

  /** Git's renames in the order in which they happen to be walked. */
  function AfterGit(order: seq<string>, renames: map<string, string>, known: map<string, Change>): Match
    requires forall i :: 0 <= i < |order| ==> order[i] in renames
  {
    if order == [] then Match([], {})
    else GitStep(AfterGit(order[..|order| - 1], renames, known), known, order[|order| - 1], renames[order[|order| - 1]])
  }

  /** The only free create with the fingerprint, if there is just one. */
  function OnlyMatch(prior: Change, creates: seq<Change>, consumed: set<string>): Option<Change> {
    var candidates := Where((c: Change) => c.path !in consumed && SameFingerprint(prior.before, c.after), creates);
    if |candidates| == 1 then Some(candidates[0]) else None
  }

  function FingerprintStep(m: Match, prior: Change, creates: seq<Change>): Match {
    if prior.path in m.consumed || prior.before.directory then m
    else match OnlyMatch(prior, creates, m.consumed)
      case None => m
      case Some(next) => Take(m, prior, next)
  }

  function AfterFingerprints(m: Match, olds: seq<Change>, creates: seq<Change>): Match {
    if olds == [] then m
    else FingerprintStep(AfterFingerprints(m, olds[..|olds| - 1], creates), olds[|olds| - 1], creates)
  }

  function Correlated(batch: seq<Change>, renames: map<string, string>, relative: string -> string, order: seq<string>): Match
    requires forall i :: 0 <= i < |order| ==> order[i] in renames
  {
    AfterFingerprints(AfterGit(order, renames, ByRelative(batch, relative)), Where(IsVanished, batch), Where(IsCreate, batch))
  }

  ghost predicate IsOrder(order: seq<string>, renames: map<string, string>) {
    Distinct(order) && Elements(order) == renames.Keys
  }

  predicate PriorBefore(a: Pair, b: Pair) {
    StringLess(a.prior.path, b.prior.path)
  }

  // ----- the code -----

  method FindMatch(prior: Change, creates: seq<Change>, consumed: set<string>) returns (found: Option<Change>)
    ensures found == OnlyMatch(prior, creates, consumed)
  {
    found := None;
    var free := (c: Change) => c.path !in consumed && SameFingerprint(prior.before, c.after);
    for i := 0 to |creates|
      invariant |Where(free, creates[..i])| <= 1
      invariant found == if |Where(free, creates[..i])| == 1 then Some(Where(free, creates[..i])[0]) else None
    {
      assert creates[..i + 1][..i] == creates[..i];
      var candidate := creates[i];
      if candidate.path in consumed || !SameFingerprint(prior.before, candidate.after) {
        continue;
      }
      if found.Some? {
        found := None;
        WhereGrows(free, creates, i + 1);
        return;
      }
      found := Some(candidate);
    }
    assert creates[..|creates|] == creates;
  }

  lemma {:induction false} WhereGrows(p: Change -> bool, s: seq<Change>, i: nat)
    requires i <= |s|
    ensures |Where(p, s[..i])| <= |Where(p, s)|
  {
    if i < |s| {
      WhereGrows(p, s[..|s| - 1], i);
      assert s[..|s| - 1][..i] == s[..i];
    } else {
      assert s[..i] == s;
    }
  }

  /** order tells in which order git's renames were walked. */
  method CorrelateRenames(batch: seq<Change>, renames: map<string, string>, relative: string -> string)
    returns (pairs: seq<Pair>, consumed: set<string>, ghost order: seq<string>)
    ensures IsOrder(order, renames)
    ensures pairs == Sort(PriorBefore, Correlated(batch, renames, relative, order).pairs)
    ensures consumed == Correlated(batch, renames, relative, order).consumed
  {
    hide OnlyMatch, AfterGit, IsOrder, Sort;
    var byRelative: map<string, Change> := map[];
    var creates: seq<Change>, olds: seq<Change> := [], [];
    for i := 0 to |batch|
      invariant byRelative == ByRelative(batch[..i], relative)
      invariant creates == Where(IsCreate, batch[..i]) && olds == Where(IsVanished, batch[..i])
    {
      assert batch[..i + 1][..i] == batch[..i];
      var item := batch[i];
      byRelative := byRelative[relative(item.path) := item];
      if item.after.present && Create in item.ops {
        creates := creates + [item];
      }
      if !item.after.present && Rename in item.ops {
        olds := olds + [item];
      }
    }
    assert batch[..|batch|] == batch;
    var found: seq<Pair>;
    found, consumed, order := MatchGit(byRelative, renames);
    ghost var git := Match(found, consumed);
    assert olds[..0] == [];
    for i := 0 to |olds|
      invariant Match(found, consumed) == AfterFingerprints(git, olds[..i], creates)
    {
      assert olds[..i + 1][..i] == olds[..i];
      var prior := olds[i];
      if prior.path in consumed || prior.before.directory {
        continue;
      }
      var next := FindMatch(prior, creates, consumed);
      if next.Some? {
        found := found + [Pair(prior, next.value)];
        consumed := consumed + {prior.path, next.value.path};
      }
    }
    assert olds[..|olds|] == olds;
    pairs := Sort(PriorBefore, found);
  }

  lemma NoneWalked(renames: map<string, string>, known: map<string, Change>)
    ensures AfterGit([], renames, known) == Match([], {})
    ensures Elements<string>([]) == {} && Distinct<string>([])
  {
  }

  lemma AfterGitSnoc(order: seq<string>, from: string, renames: map<string, string>, known: map<string, Change>)
    requires from in renames && forall i :: 0 <= i < |order| ==> order[i] in renames
    ensures AfterGit(order + [from], renames, known) == GitStep(AfterGit(order, renames, known), known, from, renames[from])
  {
    assert (order + [from])[..|order|] == order;
  }

  method MatchGit(known: map<string, Change>, renames: map<string, string>)
    returns (pairs: seq<Pair>, consumed: set<string>, ghost order: seq<string>)
    ensures IsOrder(order, renames)
    ensures Match(pairs, consumed) == AfterGit(order, renames, known)
  {
    hide AfterGit, Elements, Distinct;
    NoneWalked(renames, known);
    pairs, consumed, order := [], {}, [];
    var left := renames.Keys;
    while left != {}
      invariant left <= renames.Keys && Distinct(order) && Elements(order) == renames.Keys - left
      invariant forall i :: 0 <= i < |order| ==> order[i] in renames
      invariant Match(pairs, consumed) == AfterGit(order, renames, known)
      decreases |left|
    {
      var from :| from in left;
      left := left - {from};
      ElementsSnoc(order, from);
      AfterGitSnoc(order, from, renames, known);
      order := order + [from];
      var to := renames[from];
      if from in known && to in known && known[from].path !in consumed && known[to].path !in consumed {
        pairs := pairs + [Pair(known[from], known[to])];
        consumed := consumed + {known[from].path, known[to].path};
      }
    }
  }

  // ----- the pairs are a matching -----

  ghost predicate DistinctPaths(batch: seq<Change>) {
    forall i, j :: 0 <= i < j < |batch| ==> batch[i].path != batch[j].path
  }

  ghost predicate NoSelfRenames(renames: map<string, string>) {
    forall from :: from in renames ==> renames[from] != from
  }

  ghost predicate Apart(p: Pair, q: Pair) {
    p.prior.path != q.prior.path && p.prior.path != q.next.path && p.next.path != q.prior.path && p.next.path != q.next.path
  }

  /** No path in two pairs; what is used up is just what is paired. */
  ghost predicate IsMatching(pairs: seq<Pair>, consumed: set<string>) {
    && (forall i :: 0 <= i < |pairs| ==> pairs[i].prior.path in consumed && pairs[i].next.path in consumed)
    && (forall i, j :: 0 <= i < j < |pairs| ==> Apart(pairs[i], pairs[j]))
    && (forall p :: p in consumed ==> exists i :: 0 <= i < |pairs| && p in {pairs[i].prior.path, pairs[i].next.path})
  }

  lemma TakeKeepsMatching(m: Match, prior: Change, next: Change)
    requires IsMatching(m.pairs, m.consumed)
    requires prior.path !in m.consumed && next.path !in m.consumed
    ensures var t := Take(m, prior, next); IsMatching(t.pairs, t.consumed)
  {
    var t := Take(m, prior, next);
    var last := |m.pairs|;
    forall p | p in t.consumed ensures exists i :: 0 <= i < |t.pairs| && p in {t.pairs[i].prior.path, t.pairs[i].next.path} {
      if p in m.consumed {
        var i :| 0 <= i < |m.pairs| && p in {m.pairs[i].prior.path, m.pairs[i].next.path};
        assert t.pairs[i] == m.pairs[i];
      } else {
        assert t.pairs[last] == Pair(prior, next);
      }
    }
  }

  /** How a pair came about. */
  ghost predicate FromGit(p: Pair, batch: seq<Change>, renames: map<string, string>, relative: string -> string) {
    && p.prior in batch && p.next in batch
    && relative(p.prior.path) in renames && renames[relative(p.prior.path)] == relative(p.next.path)
  }

  ghost predicate FromFingerprint(p: Pair, batch: seq<Change>) {
    && p.prior in batch && p.next in batch
    && !p.prior.after.present && Rename in p.prior.ops && p.next.after.present && Create in p.next.ops
    && p.prior.before.present && !p.prior.before.directory && !p.next.after.directory
    && p.prior.before.size == p.next.after.size && p.prior.before.modTime == p.next.after.modTime
  }

  lemma {:induction false} ByRelativeLaw(batch: seq<Change>, relative: string -> string)
    ensures forall k :: k in ByRelative(batch, relative) ==>
              ByRelative(batch, relative)[k] in batch && relative(ByRelative(batch, relative)[k].path) == k
  {
    if batch != [] {
      ByRelativeLaw(batch[..|batch| - 1], relative);
    }
  }

  ghost predicate GoodMatch(m: Match, batch: seq<Change>, renames: map<string, string>, relative: string -> string) {
    && IsMatching(m.pairs, m.consumed)
    && (forall p :: p in m.pairs ==> FromGit(p, batch, renames, relative) || FromFingerprint(p, batch))
  }

  lemma {:induction false} GitIsMatching(batch: seq<Change>, renames: map<string, string>, relative: string -> string, order: seq<string>)
    requires forall i :: 0 <= i < |order| ==> order[i] in renames
    ensures GoodMatch(AfterGit(order, renames, ByRelative(batch, relative)), batch, renames, relative)
  {
    hide IsMatching, ByRelative, FromFingerprint;
    if order == [] {
      NothingMatched();
    } else {
      var last := |order| - 1;
      GitIsMatching(batch, renames, relative, order[..last]);
      ByRelativeLaw(batch, relative);
      var known := ByRelative(batch, relative);
      var m, from, to := AfterGit(order[..last], renames, known), order[last], renames[order[last]];
      if GitStep(m, known, from, to) != m {
        TakeKeepsMatching(m, known[from], known[to]);
      }
    }
  }

  lemma NothingMatched()
    ensures IsMatching([], {})
  {
  }

  /** Both are there, both directories or neither, of one size and time. */
  ghost predicate LookAlike(a: FileState, b: FileState) {
    a.present && b.present && (a.directory <==> b.directory) && a.size == b.size && a.modTime == b.modTime
  }

  /** c is the one free create with the fingerprint. */
  ghost predicate IsOnlyMatch(prior: Change, creates: seq<Change>, consumed: set<string>, c: Change) {
    && c in creates && c.path !in consumed && LookAlike(prior.before, c.after)
    && forall d :: d in creates && d.path !in consumed && LookAlike(prior.before, d.after) ==> d == c
  }

  lemma OnlyMatchIff(prior: Change, creates: seq<Change>, consumed: set<string>, c: Change)
    requires Distinct(creates)
    ensures OnlyMatch(prior, creates, consumed) == Some(c) <==> IsOnlyMatch(prior, creates, consumed, c)
  {
    var free := (c: Change) => c.path !in consumed && SameFingerprint(prior.before, c.after);
    var candidates := Where(free, creates);
    WhereLaw(free, creates);
    assert forall x :: x in candidates <==> x in creates && free(x);
    if OnlyMatch(prior, creates, consumed) == Some(c) {
      assert candidates == [c];
      assert c in candidates;
      forall d | d in creates && free(d) ensures d == c {
        assert d in candidates;
      }
    } else if IsOnlyMatch(prior, creates, consumed, c) {
      assert c in candidates;
      assert forall i :: 0 <= i < |candidates| ==> candidates[i] in candidates;
      JustOne(candidates, c);
    }
  }

  lemma JustOne(s: seq<Change>, c: Change)
    requires Distinct(s) && c in s && forall i :: 0 <= i < |s| ==> s[i] == c
    ensures s == [c]
  {
    FirstTwoDiffer(s);
  }

  lemma FirstTwoDiffer(s: seq<Change>)
    requires Distinct(s)
    ensures 2 <= |s| ==> s[0] != s[1]
  {
  }

  /** A vanished path is paired at its turn exactly when it is free, not a directory, and one free create alone has its fingerprint. */
  lemma FingerprintStepIff(m: Match, prior: Change, creates: seq<Change>, next: Change)
    requires Distinct(creates)
    ensures FingerprintStep(m, prior, creates) == Take(m, prior, next)
            <==> prior.path !in m.consumed && !prior.before.directory && IsOnlyMatch(prior, creates, m.consumed, next)
    ensures FingerprintStep(m, prior, creates) != m
            <==> prior.path !in m.consumed && !prior.before.directory && exists c :: IsOnlyMatch(prior, creates, m.consumed, c)
  {
    hide OnlyMatch, IsOnlyMatch;
    OnlyMatchIff(prior, creates, m.consumed, next);
    var found := OnlyMatch(prior, creates, m.consumed);
    if found.Some? {
      OnlyMatchIff(prior, creates, m.consumed, found.value);
      TakeAdds(m, prior, found.value, next);
    }
    TakeAdds(m, prior, next, next);
    forall c ensures IsOnlyMatch(prior, creates, m.consumed, c) <==> found == Some(c) {
      OnlyMatchIff(prior, creates, m.consumed, c);
    }
  }

  lemma TakeAdds(m: Match, prior: Change, next: Change, other: Change)
    ensures Take(m, prior, next) != m
    ensures Take(m, prior, next) == Take(m, prior, other) <==> next == other
  {
    assert |Take(m, prior, next).pairs| == |m.pairs| + 1;
    assert Take(m, prior, next).pairs[|m.pairs|] == Pair(prior, next);
    assert Take(m, prior, other).pairs[|m.pairs|] == Pair(prior, other);
  }

  lemma SamePathSameChange(batch: seq<Change>, a: Change, b: Change)
    requires DistinctPaths(batch) && a in batch && b in batch && a != b
    ensures a.path != b.path
  {
  }

  lemma {:induction false} FingerprintsKeepMatching(m: Match, batch: seq<Change>, renames: map<string, string>, relative: string -> string,
                                                    olds: seq<Change>, creates: seq<Change>)
    requires DistinctPaths(batch) && GoodMatch(m, batch, renames, relative) && Distinct(creates)
    requires (forall c :: c in olds ==> c in batch && IsVanished(c)) && (forall c :: c in creates ==> c in batch && IsCreate(c))
    ensures GoodMatch(AfterFingerprints(m, olds, creates), batch, renames, relative)
  {
    hide IsMatching, FromGit, OnlyMatch;
    if olds != [] {
      var last := |olds| - 1;
      FingerprintsKeepMatching(m, batch, renames, relative, olds[..last], creates);
      var before, prior := AfterFingerprints(m, olds[..last], creates), olds[last];
      var found := OnlyMatch(prior, creates, before.consumed);
      if found.Some? && prior.path !in before.consumed && !prior.before.directory {
        OnlyMatchIff(prior, creates, before.consumed, found.value);
        TakeKeepsMatching(before, prior, found.value);
      }
    }
  }

  /** The pairs form a matching on the batch, what is used up is just their paths, and each comes from git or from a fingerprint. */
  lemma CorrelatedIsMatching(batch: seq<Change>, renames: map<string, string>, relative: string -> string, order: seq<string>)
    requires DistinctPaths(batch) && IsOrder(order, renames)
    ensures forall i :: 0 <= i < |order| ==> order[i] in renames
    ensures var m := Correlated(batch, renames, relative, order);
            GoodMatch(m, batch, renames, relative) && GoodMatch(Match(Sort(PriorBefore, m.pairs), m.consumed), batch, renames, relative)
  {
    OrderInside(order, renames);
    hide GoodMatch, AfterGit, AfterFingerprints;
    GitIsMatching(batch, renames, relative, order);
    DistinctBatch(batch);
    WhereLaw(IsVanished, batch);
    WhereLaw(IsCreate, batch);
    FingerprintsKeepMatching(AfterGit(order, renames, ByRelative(batch, relative)), batch, renames, relative,
                             Where(IsVanished, batch), Where(IsCreate, batch));
    SortKeepsMatching(Correlated(batch, renames, relative, order), batch, renames, relative);
  }

  /** Unless git names a path its own origin, the two ends of a pair differ. */
  lemma PairsHaveTwoEnds(m: Match, batch: seq<Change>, renames: map<string, string>, relative: string -> string, p: Pair)
    requires GoodMatch(m, batch, renames, relative) && DistinctPaths(batch) && NoSelfRenames(renames) && p in m.pairs
    ensures p.prior.path != p.next.path
  {
    if FromFingerprint(p, batch) {
      SamePathSameChange(batch, p.prior, p.next);
    }
  }

  lemma OrderInside(order: seq<string>, renames: map<string, string>)
    requires IsOrder(order, renames)
    ensures forall i :: 0 <= i < |order| ==> order[i] in renames
  {
    assert forall i :: 0 <= i < |order| ==> order[i] in Elements(order);
  }

  lemma DistinctBatch(batch: seq<Change>)
    requires DistinctPaths(batch)
    ensures Distinct(batch)
  {
  }

  lemma SortKeepsMatching(m: Match, batch: seq<Change>, renames: map<string, string>, relative: string -> string)
    requires GoodMatch(m, batch, renames, relative)
    ensures GoodMatch(Match(Sort(PriorBefore, m.pairs), m.consumed), batch, renames, relative)
  {
    hide FromGit, FromFingerprint, Sort;
    var sorted := Sort(PriorBefore, m.pairs);
    SortedMembers(m.pairs);
    MembersMatch(m.pairs, sorted, m.consumed);
  }

  /** The same pairs in another order match as well. */
  lemma MembersMatch(pairs: seq<Pair>, sorted: seq<Pair>, consumed: set<string>)
    requires IsMatching(pairs, consumed)
    requires (forall p :: p in sorted <==> p in pairs) && (Distinct(pairs) ==> Distinct(sorted))
    ensures IsMatching(sorted, consumed)
  {
    SortedApart(pairs, sorted);
    forall i | 0 <= i < |sorted| ensures sorted[i] in pairs {
      assert sorted[i] in sorted;
    }
    forall p | p in consumed ensures exists i :: 0 <= i < |sorted| && p in {sorted[i].prior.path, sorted[i].next.path} {
      var i :| 0 <= i < |pairs| && p in {pairs[i].prior.path, pairs[i].next.path};
      var q := pairs[i];
      assert q in sorted;
      var j :| 0 <= j < |sorted| && sorted[j] == q;
    }
  }

  lemma SortedMembers(pairs: seq<Pair>)
    ensures forall p :: p in Sort(PriorBefore, pairs) <==> p in pairs
    ensures Distinct(pairs) ==> Distinct(Sort(PriorBefore, pairs))
  {
    SortMultiset(PriorBefore, pairs);
    SameMultiset(Sort(PriorBefore, pairs), pairs);
    assert forall p :: p in Sort(PriorBefore, pairs) <==> p in Elements(Sort(PriorBefore, pairs));
    assert forall p :: p in pairs <==> p in Elements(pairs);
    if Distinct(pairs) {
      DistinctByMultiset(pairs, Sort(PriorBefore, pairs));
    }
  }

  lemma SortedApart(pairs: seq<Pair>, sorted: seq<Pair>)
    requires forall i, j :: 0 <= i < j < |pairs| ==> Apart(pairs[i], pairs[j])
    requires (forall p :: p in sorted <==> p in pairs) && (Distinct(pairs) ==> Distinct(sorted))
    ensures forall i, j :: 0 <= i < j < |sorted| ==> Apart(sorted[i], sorted[j])
  {
    assert Distinct(pairs);
    forall i, j | 0 <= i < j < |sorted| ensures Apart(sorted[i], sorted[j]) {
      assert sorted[i] in sorted && sorted[j] in sorted;
      var k :| 0 <= k < |pairs| && pairs[k] == sorted[i];
      var l :| 0 <= l < |pairs| && pairs[l] == sorted[j];
      assert Apart(pairs[if k < l then k else l], pairs[if k < l then l else k]);
    }
  }

  // ----- the order in which git's renames are walked -----

  ghost predicate KnownApart(known: map<string, Change>) {
    forall a, b :: a in known && b in known && a != b ==> known[a].path != known[b].path
  }

  ghost predicate Usable(renames: map<string, string>, known: map<string, Change>, k: string) {
    k in renames && k in known && renames[k] in known
  }

  function Ends(renames: map<string, string>, known: map<string, Change>, k: string): set<string>
    requires Usable(renames, known, k)
  {
    {known[k].path, known[renames[k]].path}
  }

  /** Either of the two renames could be taken, but not both. */
  ghost predicate Clash(renames: map<string, string>, known: map<string, Change>, a: string, b: string) {
    && a != b && Usable(renames, known, a) && Usable(renames, known, b)
    && exists path :: path in Ends(renames, known, a) && path in Ends(renames, known, b)
  }

  ghost predicate NoClash(renames: map<string, string>, known: map<string, Change>) {
    forall a, b :: !Clash(renames, known, a, b)
  }

  ghost predicate IsGitResult(m: Match, walked: set<string>, renames: map<string, string>, known: map<string, Change>) {
    && (forall p :: p in m.pairs <==>
          exists k :: k in walked && Usable(renames, known, k) && p == Pair(known[k], known[renames[k]]))
    && (forall path :: path in m.consumed <==>
          exists k :: k in walked && Usable(renames, known, k) && path in {known[k].path, known[renames[k]].path})
  }

  lemma GitResultStep(m: Match, walked: set<string>, renames: map<string, string>, known: map<string, Change>, from: string)
    requires NoClash(renames, known) && IsGitResult(m, walked, renames, known)
    requires from in renames && from !in walked
    ensures IsGitResult(GitStep(m, known, from, renames[from]), walked + {from}, renames, known)
  {
    if Usable(renames, known, from) {
      forall path | path in Ends(renames, known, from) ensures path !in m.consumed {
        if path in m.consumed {
          var k :| k in walked && Usable(renames, known, k) && path in {known[k].path, known[renames[k]].path};
          assert Clash(renames, known, from, k);
        }
      }
      assert known[from].path in Ends(renames, known, from) && known[renames[from]].path in Ends(renames, known, from);
    }
  }

  lemma {:induction false} GitResult(order: seq<string>, renames: map<string, string>, known: map<string, Change>)
    requires NoClash(renames, known) && Distinct(order) && forall i :: 0 <= i < |order| ==> order[i] in renames
    ensures IsGitResult(AfterGit(order, renames, known), Elements(order), renames, known)
  {
    if order != [] {
      var last := |order| - 1;
      GitResult(order[..last], renames, known);
      hide IsGitResult, NoClash;
      GitResultStep(AfterGit(order[..last], renames, known), Elements(order[..last]), renames, known, order[last]);
      ElementsSnoc(order[..last], order[last]);
      assert order == order[..last] + [order[last]];
    }
  }

  /** With renames a, b, c in a chain, what is paired depends on which is walked first. */
  lemma ChainsDependOnOrder(a: Change, b: Change, c: Change)
    requires DistinctPaths([a, b, c])
    ensures var known := map[a.path := a, b.path := b, c.path := c];
            var renames := map[a.path := b.path, b.path := c.path];
            && AfterGit([a.path, b.path], renames, known).pairs == [Pair(a, b)]
            && AfterGit([b.path, a.path], renames, known).pairs == [Pair(b, c)]
  {
    var batch := [a, b, c];
    assert a.path != b.path && b.path != c.path && a.path != c.path by {
      assert batch[0].path != batch[1].path && batch[1].path != batch[2].path && batch[0].path != batch[2].path;
    }
    var known := map[a.path := a, b.path := b, c.path := c];
    var renames := map[a.path := b.path, b.path := c.path];
    GitTwo(a.path, b.path, renames, known);
    GitTwo(b.path, a.path, renames, known);
  }

  /** So it does with two renames onto one path. */
  lemma SharedTargetsDependOnOrder(a: Change, b: Change, c: Change)
    requires DistinctPaths([a, b, c])
    ensures var known := map[a.path := a, b.path := b, c.path := c];
            var renames := map[a.path := c.path, b.path := c.path];
            && AfterGit([a.path, b.path], renames, known).pairs == [Pair(a, c)]
            && AfterGit([b.path, a.path], renames, known).pairs == [Pair(b, c)]
  {
    var batch := [a, b, c];
    assert a.path != b.path && b.path != c.path && a.path != c.path by {
      assert batch[0].path != batch[1].path && batch[1].path != batch[2].path && batch[0].path != batch[2].path;
    }
    var known := map[a.path := a, b.path := b, c.path := c];
    var renames := map[a.path := c.path, b.path := c.path];
    GitTwo(a.path, b.path, renames, known);
    GitTwo(b.path, a.path, renames, known);
  }

  lemma GitTwo(x: string, y: string, renames: map<string, string>, known: map<string, Change>)
    requires x in renames && y in renames
    ensures AfterGit([x, y], renames, known) == GitStep(GitStep(Match([], {}), known, x, renames[x]), known, y, renames[y])
  {
    var one, two := [x], [x, y];
    assert AfterGit(one[..0], renames, known) == Match([], {});
    assert AfterGit(one, renames, known) == GitStep(Match([], {}), known, x, renames[x]);
    assert two[..1] == one;
  }

  lemma KnownKeptApart(batch: seq<Change>, relative: string -> string)
    ensures KnownApart(ByRelative(batch, relative))
  {
    ByRelativeLaw(batch, relative);
  }

  /** Both walks of git's renames end in the same pairs, as sorted, and the same paths used up. */
  ghost predicate SameOutcome(batch: seq<Change>, renames: map<string, string>, relative: string -> string, o1: seq<string>, o2: seq<string>)
    requires IsOrder(o1, renames) && IsOrder(o2, renames)
  {
    OrderInside(o1, renames);
    OrderInside(o2, renames);
    var m1, m2 := Correlated(batch, renames, relative, o1), Correlated(batch, renames, relative, o2);
    m1.consumed == m2.consumed && Sort(PriorBefore, m1.pairs) == Sort(PriorBefore, m2.pairs)
  }

  lemma NoClashHidesOrder(batch: seq<Change>, renames: map<string, string>, relative: string -> string, o1: seq<string>, o2: seq<string>)
    requires DistinctPaths(batch) && NoClash(renames, ByRelative(batch, relative)) && IsOrder(o1, renames) && IsOrder(o2, renames)
    ensures SameOutcome(batch, renames, relative, o1, o2)
  {
    hide NoClash, AfterGit, AfterFingerprints, IsMatching, Sort;
    OrderInside(o1, renames);
    OrderInside(o2, renames);
    var known := ByRelative(batch, relative);
    GitResult(o1, renames, known);
    GitResult(o2, renames, known);
    var g1, g2 := AfterGit(o1, renames, known), AfterGit(o2, renames, known);
    SameGitResult(g1, g2, renames.Keys, renames, known);
    var olds, creates := Where(IsVanished, batch), Where(IsCreate, batch);
    SameFingerprints(g1, g2, olds, creates);
    CorrelatedIsMatching(batch, renames, relative, o1);
    CorrelatedIsMatching(batch, renames, relative, o2);
    SameSorted(AfterFingerprints(g1, olds, creates), AfterFingerprints(g2, olds, creates));
  }

  /** Any rename can be the one that is walked first. */
  lemma OrderFrom(renames: map<string, string>, a: string) returns (order: seq<string>)
    requires a in renames
    ensures IsOrder(order, renames) && |order| > 0 && order[0] == a
  {
    var rest := ListSet(renames.Keys - {a});
    order := [a] + rest;
    assert forall i :: 0 <= i < |rest| ==> rest[i] in Elements(rest);
    assert forall k :: k in order <==> k == a || k in rest;
    assert Elements(order) == {a} + Elements(rest);
  }

  lemma {:induction false} GitKeepsPairs(order: seq<string>, renames: map<string, string>, known: map<string, Change>, n: nat)
    requires n <= |order| && forall i :: 0 <= i < |order| ==> order[i] in renames
    ensures AfterGit(order[..n], renames, known).pairs <= AfterGit(order, renames, known).pairs
  {
    if n < |order| {
      GitKeepsPairs(order[..|order| - 1], renames, known, n);
      assert order[..|order| - 1][..n] == order[..n];
    } else {
      assert order[..n] == order;
    }
  }

  lemma {:induction false} FingerprintsKeepPairs(m: Match, olds: seq<Change>, creates: seq<Change>)
    ensures m.pairs <= AfterFingerprints(m, olds, creates).pairs
  {
    if olds != [] {
      hide OnlyMatch;
      FingerprintsKeepPairs(m, olds[..|olds| - 1], creates);
    }
  }

  /** The rename walked first is taken if both its ends changed. */
  lemma FirstIsTaken(batch: seq<Change>, renames: map<string, string>, relative: string -> string, order: seq<string>)
    requires IsOrder(order, renames) && |order| > 0 && Usable(renames, ByRelative(batch, relative), order[0])
    ensures forall i :: 0 <= i < |order| ==> order[i] in renames
    ensures var known := ByRelative(batch, relative);
            Pair(known[order[0]], known[renames[order[0]]]) in Correlated(batch, renames, relative, order).pairs
  {
    OrderInside(order, renames);
    var known, a := ByRelative(batch, relative), order[0];
    var pair := Pair(known[a], known[renames[a]]);
    assert [] + [a] == order[..1];
    AfterGitSnoc([], a, renames, known);
    GitKeepsPairs(order, renames, known, 1);
    FingerprintsKeepPairs(AfterGit(order, renames, known), Where(IsVanished, batch), Where(IsCreate, batch));
    assert pair == AfterGit(order[..1], renames, known).pairs[0];
    assert pair == Correlated(batch, renames, relative, order).pairs[0];
  }

  /** Two renames that clash show the order: each is paired when it is walked first, and never the other beside it. */
  lemma ClashShowsOrder(batch: seq<Change>, renames: map<string, string>, relative: string -> string,
                        a: string, b: string, o1: seq<string>, o2: seq<string>)
    requires DistinctPaths(batch) && Clash(renames, ByRelative(batch, relative), a, b)
    requires IsOrder(o1, renames) && |o1| > 0 && o1[0] == a && IsOrder(o2, renames) && |o2| > 0 && o2[0] == b
    ensures !SameOutcome(batch, renames, relative, o1, o2)
  {
    hide IsOrder, DistinctPaths, Correlated, GoodMatch, Sort;
    var known := ByRelative(batch, relative);
    FirstIsTaken(batch, renames, relative, o1);
    FirstIsTaken(batch, renames, relative, o2);
    CorrelatedIsMatching(batch, renames, relative, o1);
    var p, q := Pair(known[a], known[renames[a]]), Pair(known[b], known[renames[b]]);
    KnownKeptApart(batch, relative);
    assert p.prior.path != q.prior.path;
    var m1, m2 := Correlated(batch, renames, relative, o1), Correlated(batch, renames, relative, o2);
    SortedMembers(m1.pairs);
    SortedMembers(m2.pairs);
    if q in m1.pairs {
      TwoInOneMatching(m1, batch, renames, relative, p, q);
    }
  }

  lemma TwoInOneMatching(m: Match, batch: seq<Change>, renames: map<string, string>, relative: string -> string, p: Pair, q: Pair)
    requires GoodMatch(m, batch, renames, relative) && p in m.pairs && q in m.pairs && p != q
    ensures Apart(p, q)
  {
    var i :| 0 <= i < |m.pairs| && m.pairs[i] == p;
    var j :| 0 <= j < |m.pairs| && m.pairs[j] == q;
    assert Apart(m.pairs[if i < j then i else j], m.pairs[if i < j then j else i]);
  }

  /**
   The order in which git's renames are walked never shows exactly when no two different renames,
   each with both ends in the batch, share a path.
   */
  lemma OrderDoesNotShowIff(batch: seq<Change>, renames: map<string, string>, relative: string -> string)
    requires DistinctPaths(batch)
    ensures (forall o1, o2 :: IsOrder(o1, renames) && IsOrder(o2, renames) ==> SameOutcome(batch, renames, relative, o1, o2))
            <==> NoClash(renames, ByRelative(batch, relative))
  {
    hide IsOrder, SameOutcome, Clash;
    var known := ByRelative(batch, relative);
    if NoClash(renames, known) {
      forall o1, o2 | IsOrder(o1, renames) && IsOrder(o2, renames) ensures SameOutcome(batch, renames, relative, o1, o2) {
        NoClashHidesOrder(batch, renames, relative, o1, o2);
      }
    } else {
      var a, b :| Clash(renames, known, a, b);
      ClashInside(renames, known, a, b);
      var o1 := OrderFrom(renames, a);
      var o2 := OrderFrom(renames, b);
      ClashShowsOrder(batch, renames, relative, a, b, o1, o2);
    }
  }

  lemma ClashInside(renames: map<string, string>, known: map<string, Change>, a: string, b: string)
    requires Clash(renames, known, a, b)
    ensures a in renames && b in renames
  {
  }

  ghost predicate SameSets(m: Match, n: Match) {
    m.consumed == n.consumed && forall p :: p in m.pairs <==> p in n.pairs
  }

  lemma SameGitResult(m: Match, n: Match, walked: set<string>, renames: map<string, string>, known: map<string, Change>)
    requires IsGitResult(m, walked, renames, known) && IsGitResult(n, walked, renames, known)
    ensures SameSets(m, n)
  {
  }

  lemma {:induction false} SameFingerprints(m: Match, n: Match, olds: seq<Change>, creates: seq<Change>)
    requires SameSets(m, n)
    ensures SameSets(AfterFingerprints(m, olds, creates), AfterFingerprints(n, olds, creates))
  {
    hide OnlyMatch;
    if olds != [] {
      SameFingerprints(m, n, olds[..|olds| - 1], creates);
    }
  }

  lemma SameSorted(m: Match, n: Match)
    requires SameSets(m, n) && IsMatching(m.pairs, m.consumed) && IsMatching(n.pairs, n.consumed)
    ensures Sort(PriorBefore, m.pairs) == Sort(PriorBefore, n.pairs)
  {
    PriorOrders(m.pairs, m.consumed);
    PriorOrders(n.pairs, n.consumed);
    assert Elements(m.pairs) == Elements(n.pairs);
    SortSorted(PriorBefore, m.pairs);
    SortSorted(PriorBefore, n.pairs);
    SortElements(PriorBefore, m.pairs);
    SortElements(PriorBefore, n.pairs);
    SortedIsUnique(PriorBefore, Sort(PriorBefore, m.pairs), Sort(PriorBefore, n.pairs));
  }

  lemma PriorOrders(pairs: seq<Pair>, consumed: set<string>)
    requires IsMatching(pairs, consumed)
    ensures Orders(PriorBefore, Elements(pairs)) && Distinct(pairs)
  {
    hide StringLess;
    PriorsApart(pairs, consumed);
    StringLessOrders(set p <- pairs :: p.prior.path);
  }

  lemma PriorsApart(pairs: seq<Pair>, consumed: set<string>)
    requires IsMatching(pairs, consumed)
    ensures Distinct(pairs) && forall p, q :: p in pairs && q in pairs && p != q ==> p.prior.path != q.prior.path
  {
    assert forall i, j :: 0 <= i < j < |pairs| ==> Apart(pairs[i], pairs[j]);
    forall p, q | p in pairs && q in pairs && p != q ensures p.prior.path != q.prior.path {
      var i :| 0 <= i < |pairs| && pairs[i] == p;
      var j :| 0 <= j < |pairs| && pairs[j] == q;
      assert Apart(pairs[if i < j then i else j], pairs[if i < j then j else i]);
    }
  }
}
