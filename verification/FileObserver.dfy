/** Coalescing notifications, releasing them in batches and turning a batch into numbered events:
    internal/adapters/filesystem/observer.go. */
module FileObserver {
  import opened Common
  import opened RenameMatch

  type Pending = map<string, Change>

  // ----- what is pending, counted -----

  /** How many notifications the pending changes stand for. */
  ghost function Total(pending: Pending): nat
    decreases |pending|
  {
    if pending == map[] then 0
    else
      var k :| k in pending;
      Fewer(pending, k);
      pending[k].count + Total(pending - {k})
  }

  lemma Fewer(pending: Pending, k: string)
    requires k in pending
    ensures |pending - {k}| == |pending| - 1
  {
    assert (pending - {k}).Keys == pending.Keys - {k};
    assert |pending| == |pending.Keys| && |pending - {k}| == |(pending - {k}).Keys|;
  }

  lemma {:induction false} TotalWithout(pending: Pending, k: string)
    requires k in pending
    ensures Total(pending) == pending[k].count + Total(pending - {k})
    decreases |pending|
  {
    var j :| j in pending && Total(pending) == pending[j].count + Total(pending - {j});
    if j != k {
      Fewer(pending, j);
      Fewer(pending, k);
      TotalWithout(pending - {j}, k);
      TotalWithout(pending - {k}, j);
      assert pending - {j} - {k} == pending - {k} - {j};
    }
  }

  lemma TotalWith(pending: Pending, k: string, c: Change)
    ensures Total(pending[k := c]) == c.count + Total(pending - {k})
  {
    TotalWithout(pending[k := c], k);
    assert pending[k := c] - {k} == pending - {k};
  }

  function Count(ready: seq<Change>): nat {
    if ready == [] then 0 else Count(ready[..|ready| - 1]) + ready[|ready| - 1].count
  }

  ghost predicate Filed(pending: Pending) {
    forall p :: p in pending ==> pending[p].path == p && 0 < pending[p].count
  }

  // ----- which changes are ready -----

  predicate NeedsRenameWindow(c: Change) {
    Rename in c.ops || Remove in c.ops || (Create in c.ops && !c.before.present)
  }

  /** The time of the latest change that may be part of a rename; zero for none. */
  ghost predicate IsLatestRename(pending: Pending, latest: int) {
    && 0 <= latest
    && (forall p :: p in pending && NeedsRenameWindow(pending[p]) ==> pending[p].last <= latest)
    && (latest == 0 || exists p :: p in pending && NeedsRenameWindow(pending[p]) && pending[p].last == latest)
  }

  datatype Timing = Timing(now: int, debounce: int, renameWindow: int)

  predicate Due(c: Change, t: Timing, latest: int) {
    if NeedsRenameWindow(c) then Max(t.debounce, t.renameWindow) <= t.now - latest else t.debounce <= t.now - c.last
  }

  /** ready holds the first limit of the due changes in path order, kept all others. */
  ghost predicate IsSplit(pending: Pending, ready: seq<Change>, kept: Pending, t: Timing, latest: int, all: bool, limit: nat) {
    var paths := seq(|ready|, i requires 0 <= i < |ready| => ready[i].path);
    && SortedBy(StringLess, paths) && |ready| <= limit
    && (forall i :: 0 <= i < |ready| ==>
          ready[i].path in pending && pending[ready[i].path] == ready[i] && (all || Due(ready[i], t, latest)))
    && kept == pending - Elements(paths)
    && (forall p :: p in kept && (all || Due(kept[p], t, latest)) ==>
          |ready| == limit && forall i :: 0 <= i < |ready| ==> StringLess(ready[i].path, p))
  }

  /** A change that may be part of a rename goes while another such change stays. */
  ghost predicate Torn(ready: seq<Change>, kept: Pending) {
    && (exists i :: 0 <= i < |ready| && NeedsRenameWindow(ready[i]))
    && (exists p :: p in kept && NeedsRenameWindow(kept[p]))
  }

  predicate IsDue(pending: Pending, p: string, t: Timing, latest: int, all: bool) {
    p in pending && (all || Due(pending[p], t, latest))
  }

  /** The due paths that sort before p. */
  ghost function DueBefore(pending: Pending, p: string, t: Timing, latest: int, all: bool): set<string> {
    set q | q in pending && IsDue(pending, q, t, latest, all) && StringLess(q, p)
  }

  lemma ReadyHasFewBefore(pending: Pending, ready: seq<Change>, kept: Pending, t: Timing, latest: int, all: bool, limit: nat, i: nat)
    requires IsSplit(pending, ready, kept, t, latest, all, limit) && i < |ready|
    ensures |DueBefore(pending, ready[i].path, t, latest, all)| <= i
  {
    hide Due, StringLess;
    var paths := seq(|ready|, k requires 0 <= k < |ready| => ready[k].path);
    var p := paths[i];
    forall q | q in DueBefore(pending, p, t, latest, all) ensures q in Elements(paths[..i]) {
      StringLessIrreflexive(p);
      if q in kept {
        assert StringLess(ready[i].path, q);
        StringLessTransitive(p, q, p);
        assert false;
      } else {
        var j :| 0 <= j < |paths| && paths[j] == q;
        if i < j {
          assert StringLess(paths[i], paths[j]);
          StringLessTransitive(p, q, p);
        }
        assert paths[..i][j] == q;
      }
    }
    FewElements(paths[..i]);
    SubsetSize(DueBefore(pending, p, t, latest, all), Elements(paths[..i]));
  }

  lemma {:induction false} FewElements(s: seq<string>)
    ensures |Elements(s)| <= |s|
  {
    if s != [] {
      FewElements(s[..|s| - 1]);
      assert s == s[..|s| - 1] + [s[|s| - 1]];
      ElementsSnoc(s[..|s| - 1], s[|s| - 1]);
    }
  }

  lemma KeptHasManyBefore(pending: Pending, ready: seq<Change>, kept: Pending, t: Timing, latest: int, all: bool, limit: nat, p: string)
    requires IsSplit(pending, ready, kept, t, latest, all, limit) && p in kept && IsDue(pending, p, t, latest, all)
    ensures limit <= |DueBefore(pending, p, t, latest, all)|
  {
    hide Due, StringLess;
    var paths := seq(|ready|, k requires 0 <= k < |ready| => ready[k].path);
    SplitConserves(pending, ready, kept, t, latest, all, limit);
    DistinctSize(paths);
    forall q | q in Elements(paths) ensures q in DueBefore(pending, p, t, latest, all) {
      var k :| 0 <= k < |paths| && paths[k] == q;
      assert IsDue(pending, ready[k].path, t, latest, all) && StringLess(ready[k].path, p);
    }
    SubsetSize(Elements(paths), DueBefore(pending, p, t, latest, all));
  }

  /** A path is released exactly when it is due and fewer than limit due paths sort before it. */
  lemma ReleasedIff(pending: Pending, ready: seq<Change>, kept: Pending, t: Timing, latest: int, all: bool, limit: nat, p: string)
    requires IsSplit(pending, ready, kept, t, latest, all, limit) && p in pending
    ensures p !in kept <==> IsDue(pending, p, t, latest, all) && |DueBefore(pending, p, t, latest, all)| < limit
  {
    hide Due, StringLess, DueBefore;
    if p in kept {
      if IsDue(pending, p, t, latest, all) {
        KeptHasManyBefore(pending, ready, kept, t, latest, all, limit, p);
      }
    } else {
      var paths := seq(|ready|, k requires 0 <= k < |ready| => ready[k].path);
      var i :| 0 <= i < |paths| && paths[i] == p;
      assert ready[i].path == p;
      ReadyHasFewBefore(pending, ready, kept, t, latest, all, limit, i);
    }
  }

  /**
   A batch tears a rename apart exactly when what may be parts of one is due, and the place where
   the limit cuts the due paths off falls between two such parts.
   */
  lemma TornIff(pending: Pending, ready: seq<Change>, kept: Pending, t: Timing, latest: int, all: bool, limit: nat)
    requires IsSplit(pending, ready, kept, t, latest, all, limit)
    ensures Torn(ready, kept) <==>
            exists p, q :: p in pending && q in pending && NeedsRenameWindow(pending[p]) && NeedsRenameWindow(pending[q])
              && IsDue(pending, p, t, latest, all)
              && |DueBefore(pending, p, t, latest, all)| < limit <= |DueBefore(pending, q, t, latest, all)|
  {
    hide StringLess, NeedsRenameWindow, SortedBy, DueBefore;
    if Torn(ready, kept) {
      var i :| 0 <= i < |ready| && NeedsRenameWindow(ready[i]);
      var q :| q in kept && NeedsRenameWindow(kept[q]);
      assert all || Due(ready[i], t, latest);
      ReadyHasFewBefore(pending, ready, kept, t, latest, all, limit, i);
      KeptHasManyBefore(pending, ready, kept, t, latest, all, limit, q);
      assert IsDue(pending, ready[i].path, t, latest, all);
    }
    forall p, q | p in pending && q in pending && NeedsRenameWindow(pending[p]) && NeedsRenameWindow(pending[q])
      && IsDue(pending, p, t, latest, all)
      && |DueBefore(pending, p, t, latest, all)| < limit <= |DueBefore(pending, q, t, latest, all)|
      ensures Torn(ready, kept)
    {
      ReleasedIff(pending, ready, kept, t, latest, all, limit, p);
      ReleasedIff(pending, ready, kept, t, latest, all, limit, q);
      var paths := seq(|ready|, k requires 0 <= k < |ready| => ready[k].path);
      var i :| 0 <= i < |paths| && paths[i] == p;
      assert ready[i] == pending[p];
    }
  }

  /** A full one can: with room for one change, the old path of a rename goes alone if it sorts first. */
  lemma FullBatchTears(a: Change, b: Change, t: Timing, latest: int)
    requires StringLess(a.path, b.path) && NeedsRenameWindow(a) && NeedsRenameWindow(b) && Due(a, t, latest)
    ensures IsSplit(map[a.path := a, b.path := b], [a], map[b.path := b], t, latest, false, 1)
    ensures Torn([a], map[b.path := b])
  {
    hide NeedsRenameWindow;
    StringLessIrreflexive(a.path);
    var paths := seq(|[a]|, i requires 0 <= i < |[a]| => [a][i].path);
    assert paths == [a.path];
    assert Elements(paths) == {a.path};
    assert [a][0] == a && b.path in map[b.path := b];
  }

  lemma {:induction false} TotalSplits(pending: Pending, ready: seq<Change>)
    requires forall i :: 0 <= i < |ready| ==> ready[i].path in pending && pending[ready[i].path] == ready[i]
    requires forall i, j :: 0 <= i < j < |ready| ==> ready[i].path != ready[j].path
    ensures Total(pending) == Count(ready) + Total(pending - Elements(seq(|ready|, i requires 0 <= i < |ready| => ready[i].path)))
  {
    var paths := seq(|ready|, i requires 0 <= i < |ready| => ready[i].path);
    if ready == [] {
      assert pending - Elements(paths) == pending;
    } else {
      var last := |ready| - 1;
      var front := paths[..last];
      assert front == seq(last, i requires 0 <= i < last => ready[..last][i].path);
      TotalSplits(pending, ready[..last]);
      assert paths == front + [ready[last].path];
      ElementsSnoc(front, ready[last].path);
      var left := pending - Elements(front);
      assert ready[last].path in left;
      TotalWithout(left, ready[last].path);
      assert left - {ready[last].path} == pending - Elements(paths);
    }
  }

  /** A split loses no notification. */
  lemma SplitConserves(pending: Pending, ready: seq<Change>, kept: Pending, t: Timing, latest: int, all: bool, limit: nat)
    requires IsSplit(pending, ready, kept, t, latest, all, limit)
    ensures Total(pending) == Count(ready) + Total(kept)
    ensures DistinctPaths(ready)
  {
    var paths := seq(|ready|, i requires 0 <= i < |ready| => ready[i].path);
    forall i, j | 0 <= i < j < |ready| ensures ready[i].path != ready[j].path {
      assert StringLess(paths[i], paths[j]);
      StringLessIrreflexive(paths[i]);
    }
    TotalSplits(pending, ready);
  }

  lemma SplitSizes(pending: Pending, ready: seq<Change>, kept: Pending, t: Timing, latest: int, all: bool, limit: nat)
    requires IsSplit(pending, ready, kept, t, latest, all, limit)
    ensures |kept| == |pending| - |ready|
  {
    hide StringLess, Due, SortedBy;
    SplitConserves(pending, ready, kept, t, latest, all, limit);
    ReleaseSize(pending, ready);
  }

  lemma ReleaseSize(pending: Pending, ready: seq<Change>)
    requires DistinctPaths(ready) && forall i :: 0 <= i < |ready| ==> ready[i].path in pending
    ensures |pending - Elements(seq(|ready|, i requires 0 <= i < |ready| => ready[i].path))| == |pending| - |ready|
  {
    var paths := seq(|ready|, i requires 0 <= i < |ready| => ready[i].path);
    assert forall i :: 0 <= i < |paths| ==> paths[i] == ready[i].path;
    RemovalSize(pending, paths);
  }

  lemma RemovalSize(pending: Pending, paths: seq<string>)
    requires Distinct(paths) && forall i :: 0 <= i < |paths| ==> paths[i] in pending
    ensures |pending - Elements(paths)| == |pending| - |paths|
  {
    DistinctSize(paths);
    assert (pending - Elements(paths)).Keys == pending.Keys - Elements(paths);
    SizeOfDifference(pending.Keys, Elements(paths));
    assert |pending| == |pending.Keys| && |pending - Elements(paths)| == |(pending - Elements(paths)).Keys|;
  }

  /** The last flush leaves nothing behind exactly when everything fits into one batch. */
  lemma FinalFlushEmptiesIff(pending: Pending, ready: seq<Change>, kept: Pending, t: Timing, latest: int, limit: nat)
    requires IsSplit(pending, ready, kept, t, latest, true, limit)
    ensures kept == map[] <==> |pending| <= limit
  {
    SplitSizes(pending, ready, kept, t, latest, true, limit);
    if kept != map[] {
      var p :| p in kept;
      Fewer(kept, p);
    }
  }

  lemma SizeOfDifference<T>(a: set<T>, b: set<T>)
    requires b <= a
    ensures |a - b| == |a| - |b|
  {
    assert a == (a - b) + b;
  }

  // ----- events -----

  datatype Kind = Created | DirectoryCreated | Modified | Deleted | DirectoryDeleted
    | Renamed | Moved | DirectoryRenamed | Dropped(count: nat)

  datatype Event = Event(sequence: nat, kind: Kind, path: string, previousPath: Option<string>)

  /** What a single change amounts to, if anything. */
  function KindOf(c: Change): Option<Kind> {
    var isDirectory := if c.after.present then c.after.directory else c.before.directory;
    if c.after.present && !c.before.present then Some(if isDirectory then DirectoryCreated else Created)
    else if !c.after.present && c.before.present then Some(if isDirectory then DirectoryDeleted else Deleted)
    else if c.after.present && (Write in c.ops || Create in c.ops) then if isDirectory then None else Some(Modified)
    else None
  }

  /** dir is the path of the enclosing directory. */
  function RenameKind(p: Pair, dir: string -> string): Kind {
    if p.prior.before.directory then DirectoryRenamed
    else if dir(p.prior.path) != dir(p.next.path) then Moved
    else Renamed
  }

  function RenameEvents(pairs: seq<Pair>, dir: string -> string, from: nat): seq<Event> {
    seq(|pairs|, i requires 0 <= i < |pairs| => Event(from + 1 + i, RenameKind(pairs[i], dir), pairs[i].next.path, Some(pairs[i].prior.path)))
  }

  predicate Reported(c: Change, consumed: set<string>) {
    c.path !in consumed && KindOf(c).Some?
  }

  function ChangeEvents(batch: seq<Change>, consumed: set<string>, from: nat): seq<Event> {
    if batch == [] then []
    else
      var events, c := ChangeEvents(batch[..|batch| - 1], consumed, from), batch[|batch| - 1];
      if Reported(c, consumed) then events + [Event(from + |events| + 1, KindOf(c).value, c.path, None)] else events
  }

  function BatchEvents(batch: seq<Change>, pairs: seq<Pair>, consumed: set<string>, dir: string -> string, from: nat): seq<Event> {
    RenameEvents(pairs, dir, from) + ChangeEvents(batch, consumed, from + |pairs|)
  }

  /** The paths of the batch an event speaks for. */
  function Touches(e: Event): set<string> {
    {e.path} + if e.previousPath.Some? then {e.previousPath.value} else {}
  }

  ghost predicate Numbered(events: seq<Event>, from: nat) {
    forall i :: 0 <= i < |events| ==> events[i].sequence == from + 1 + i
  }

  ghost predicate TouchApart(events: seq<Event>) {
    forall i, j :: 0 <= i < j < |events| ==> Touches(events[i]) !! Touches(events[j])
  }

  /** The event tells one reported change of the batch. */
  ghost predicate Tells(e: Event, batch: seq<Change>, consumed: set<string>) {
    && e.previousPath == None
    && exists k :: 0 <= k < |batch| && Reported(batch[k], consumed) && e.path == batch[k].path && Some(e.kind) == KindOf(batch[k])
  }

  ghost predicate HasEventFor(events: seq<Event>, path: string) {
    exists i :: 0 <= i < |events| && path in Touches(events[i])
  }

  ghost predicate TellsAll(events: seq<Event>, batch: seq<Change>, consumed: set<string>, from: nat) {
    && Numbered(events, from) && TouchApart(events)
    && (forall i :: 0 <= i < |events| ==> Tells(events[i], batch, consumed))
    && (forall k :: 0 <= k < |batch| && Reported(batch[k], consumed) ==> HasEventFor(events, batch[k].path))
  }

  lemma TellsMore(e: Event, batch: seq<Change>, consumed: set<string>, c: Change)
    ensures Tells(e, batch, consumed) ==> Tells(e, batch + [c], consumed)
    ensures Reported(c, consumed) && e.previousPath == None && e.path == c.path && Some(e.kind) == KindOf(c) ==> Tells(e, batch + [c], consumed)
  {
    var all := batch + [c];
    assert all[|batch|] == c;
    if Tells(e, batch, consumed) {
      var k :| 0 <= k < |batch| && Reported(batch[k], consumed) && e.path == batch[k].path && Some(e.kind) == KindOf(batch[k]);
      assert all[k] == batch[k];
    }
  }

  lemma HasEventMore(events: seq<Event>, e: Event, path: string)
    ensures HasEventFor(events + [e], path) <==> HasEventFor(events, path) || path in Touches(e)
  {
    var all := events + [e];
    assert all[|events|] == e;
    if HasEventFor(events, path) {
      var i :| 0 <= i < |events| && path in Touches(events[i]);
      assert all[i] == events[i];
    }
  }

  lemma TellsAllStep(events: seq<Event>, batch: seq<Change>, consumed: set<string>, from: nat, c: Change)
    requires TellsAll(events, batch, consumed, from) && DistinctPaths(batch + [c])
    ensures TellsAll(if Reported(c, consumed) then events + [Event(from + |events| + 1, KindOf(c).value, c.path, None)] else events,
                     batch + [c], consumed, from)
  {
    hide KindOf, HasEventFor;
    var all := batch + [c];
    var e := if Reported(c, consumed) then Event(from + |events| + 1, KindOf(c).value, c.path, None) else Event(0, Dropped(0), "", None);
    forall i | 0 <= i < |events| ensures Tells(events[i], all, consumed) && events[i].path != c.path {
      TellsMore(events[i], batch, consumed, c);
      var k :| 0 <= k < |batch| && events[i].path == batch[k].path;
      assert all[k].path != all[|batch|].path;
    }
    hide Tells;
    TellsMore(e, batch, consumed, c);
    forall k | 0 <= k < |all| && Reported(all[k], consumed)
      ensures HasEventFor(if Reported(c, consumed) then events + [e] else events, all[k].path)
    {
      HasEventMore(events, e, all[k].path);
    }
  }

  lemma {:induction false} ChangeEventsLaw(batch: seq<Change>, consumed: set<string>, from: nat)
    requires DistinctPaths(batch)
    ensures TellsAll(ChangeEvents(batch, consumed, from), batch, consumed, from)
  {
    hide TellsAll, ChangeEvents;
    if batch == [] {
      NothingToTell(consumed, from);
    } else {
      var last := |batch| - 1;
      ChangeEventsLaw(batch[..last], consumed, from);
      assert batch == batch[..last] + [batch[last]];
      ChangeEventsSnoc(batch, consumed, from);
      TellsAllStep(ChangeEvents(batch[..last], consumed, from), batch[..last], consumed, from, batch[last]);
    }
  }

  lemma NothingToTell(consumed: set<string>, from: nat)
    ensures TellsAll(ChangeEvents([], consumed, from), [], consumed, from)
  {
  }

  lemma {:induction false} ChangeEventsSnoc(batch: seq<Change>, consumed: set<string>, from: nat)
    requires batch != []
    ensures var before, c := ChangeEvents(batch[..|batch| - 1], consumed, from), batch[|batch| - 1];
            ChangeEvents(batch, consumed, from) ==
            if Reported(c, consumed) then before + [Event(from + |before| + 1, KindOf(c).value, c.path, None)] else before
  {
    hide KindOf;
  }

  /** Every change of the batch is spoken for by at most one event; by one exactly when it was paired or amounts to something. */
  ghost predicate SpeaksFor(events: seq<Event>, batch: seq<Change>, consumed: set<string>) {
    && TouchApart(events)
    && (forall p :: HasEventFor(events, p) ==> exists k :: 0 <= k < |batch| && batch[k].path == p)
    && (forall k :: 0 <= k < |batch| ==>
          (HasEventFor(events, batch[k].path) <==> batch[k].path in consumed || KindOf(batch[k]).Some?))
  }

  lemma RenamesSpeak(pairs: seq<Pair>, consumed: set<string>, dir: string -> string, from: nat)
    requires IsMatching(pairs, consumed)
    ensures var events := RenameEvents(pairs, dir, from);
            Numbered(events, from) && TouchApart(events) && forall p :: HasEventFor(events, p) <==> p in consumed
  {
    hide RenameKind;
    var events := RenameEvents(pairs, dir, from);
    forall i | 0 <= i < |pairs| ensures Touches(events[i]) == Ends(pairs[i]) {
      RenameTouches(pairs, dir, from, i);
    }
    hide Touches;
    forall i, j | 0 <= i < j < |events| ensures Touches(events[i]) !! Touches(events[j]) {
      assert Apart(pairs[i], pairs[j]);
    }
    forall p ensures HasEventFor(events, p) <==> p in consumed {
      if p in consumed {
        var i :| 0 <= i < |pairs| && p in {pairs[i].prior.path, pairs[i].next.path};
        assert p in Touches(events[i]);
      }
    }
  }

  // ----- what each event tells -----

  /** The event tells of the pair: the new path, the old one, and which kind of move it was. */
  predicate TellsPair(e: Event, p: Pair, dir: string -> string) {
    && e.path == p.next.path && e.previousPath == Some(p.prior.path)
    && (e.kind == DirectoryRenamed <==> p.prior.before.directory)
    && (e.kind == Moved <==> !p.prior.before.directory && dir(p.prior.path) != dir(p.next.path))
    && (e.kind == Renamed <==> !p.prior.before.directory && dir(p.prior.path) == dir(p.next.path))
  }

  /** The kind tells what became of the file or directory. */
  predicate TellsChange(kind: Kind, c: Change) {
    match kind
    case Created => !c.before.present && c.after.present && !c.after.directory
    case DirectoryCreated => !c.before.present && c.after.present && c.after.directory
    case Deleted => c.before.present && !c.after.present && !c.before.directory
    case DirectoryDeleted => c.before.present && !c.after.present && c.before.directory
    case Modified => c.before.present && c.after.present && !c.after.directory && (Write in c.ops || Create in c.ops)
    case _ => false
  }

  /** There is something to tell of the change. */
  predicate HasNews(c: Change) {
    || c.before.present != c.after.present
    || (c.before.present && c.after.present && !c.after.directory && (Write in c.ops || Create in c.ops))
  }

  /** The event tells of the batch's change k, which no pair has used up. */
  predicate TellsOf(e: Event, batch: seq<Change>, consumed: set<string>, k: nat) {
    k < |batch| && batch[k].path !in consumed && e.path == batch[k].path && e.previousPath == None && TellsChange(e.kind, batch[k])
  }

  /** The events tell, in the order of the batch, of the changes at the places, which are all there is to tell of. */
  ghost predicate TellsAt(events: seq<Event>, batch: seq<Change>, consumed: set<string>, places: seq<nat>) {
    && |places| == |events|
    && (forall i :: 0 <= i < |events| ==> TellsOf(events[i], batch, consumed, places[i]))
    && (forall i, j :: 0 <= i < j < |places| ==> places[i] < places[j])
    && (forall k :: 0 <= k < |batch| && batch[k].path !in consumed && HasNews(batch[k]) ==> k in places)
  }

  /** First the pairs, one by one, and then whatever there is to tell of the changes no pair has used up. */
  ghost predicate TellsBatch(events: seq<Event>, batch: seq<Change>, pairs: seq<Pair>, consumed: set<string>, dir: string -> string) {
    && |pairs| <= |events|
    && (forall i :: 0 <= i < |pairs| ==> TellsPair(events[i], pairs[i], dir))
    && (exists places :: TellsAt(events[|pairs|..], batch, consumed, places))
  }

  lemma KindIsTold(c: Change)
    ensures KindOf(c).Some? ==> TellsChange(KindOf(c).value, c)
    ensures KindOf(c).Some? <==> HasNews(c)
  {
  }

  lemma TellsOneMore(events: seq<Event>, batch: seq<Change>, consumed: set<string>, places: seq<nat>, c: Change, e: Event)
    requires TellsAt(events, batch, consumed, places)
    requires c.path !in consumed && HasNews(c) && e.path == c.path && e.previousPath == None && TellsChange(e.kind, c)
    ensures TellsAt(events + [e], batch + [c], consumed, places + [|batch|])
  {
    hide TellsChange, HasNews;
    var all, now := batch + [c], places + [|batch|];
    assert all[|batch|] == c && now[|places|] == |batch|;
    assert forall k :: 0 <= k < |batch| ==> all[k] == batch[k];
    forall k | 0 <= k < |all| && all[k].path !in consumed && HasNews(all[k]) ensures k in now {
      if k < |batch| {
        assert k in places;
      }
    }
  }

  lemma TellsNoMore(events: seq<Event>, batch: seq<Change>, consumed: set<string>, places: seq<nat>, c: Change)
    requires TellsAt(events, batch, consumed, places) && (c.path in consumed || !HasNews(c))
    ensures TellsAt(events, batch + [c], consumed, places)
  {
    hide TellsChange, HasNews;
    var all := batch + [c];
    assert forall k :: 0 <= k < |batch| ==> all[k] == batch[k];
  }

  lemma {:induction false} ChangesTell(batch: seq<Change>, consumed: set<string>, from: nat) returns (places: seq<nat>)
    ensures TellsAt(ChangeEvents(batch, consumed, from), batch, consumed, places)
  {
    hide TellsAt, KindOf, ChangeEvents, TellsChange, HasNews;
    if batch == [] {
      NothingTold(consumed, from);
      places := [];
    } else {
      var front, c := batch[..|batch| - 1], batch[|batch| - 1];
      places := ChangesTell(front, consumed, from);
      ChangeEventsSnoc(batch, consumed, from);
      KindIsTold(c);
      assert batch == front + [c];
      var before := ChangeEvents(front, consumed, from);
      if Reported(c, consumed) {
        TellsOneMore(before, front, consumed, places, c, Event(from + |before| + 1, KindOf(c).value, c.path, None));
        places := places + [|front|];
      } else {
        TellsNoMore(before, front, consumed, places, c);
      }
    }
  }

  lemma NothingTold(consumed: set<string>, from: nat)
    ensures TellsAt(ChangeEvents([], consumed, from), [], consumed, [])
  {
  }

  lemma BatchTells(batch: seq<Change>, pairs: seq<Pair>, consumed: set<string>, dir: string -> string, from: nat)
    ensures TellsBatch(BatchEvents(batch, pairs, consumed, dir, from), batch, pairs, consumed, dir)
  {
    hide ChangeEvents, TellsAt;
    var first, rest := RenameEvents(pairs, dir, from), ChangeEvents(batch, consumed, from + |pairs|);
    var places := ChangesTell(batch, consumed, from + |pairs|);
    var events := first + rest;
    assert events[|pairs|..] == rest;
    assert forall i :: 0 <= i < |pairs| ==> events[i] == first[i];
  }

  function Ends(p: Pair): set<string> {
    {p.prior.path, p.next.path}
  }

  lemma RenameTouches(pairs: seq<Pair>, dir: string -> string, from: nat, i: nat)
    requires i < |pairs|
    ensures Touches(RenameEvents(pairs, dir, from)[i]) == Ends(pairs[i])
  {
  }

  /** The events of a batch are numbered on, and speak for each of its changes once or, where there is nothing to tell, not at all. */
  lemma BatchSpeaks(batch: seq<Change>, pairs: seq<Pair>, consumed: set<string>, dir: string -> string, from: nat)
    requires DistinctPaths(batch) && IsMatching(pairs, consumed)
    requires forall p :: p in consumed ==> exists k :: 0 <= k < |batch| && batch[k].path == p
    ensures var events := BatchEvents(batch, pairs, consumed, dir, from);
            Numbered(events, from) && SpeaksFor(events, batch, consumed)
  {
    hide RenameEvents, ChangeEvents, KindOf, Touches, HasEventFor, Tells, IsMatching, TouchApart, DistinctPaths;
    var renames, changes := RenameEvents(pairs, dir, from), ChangeEvents(batch, consumed, from + |pairs|);
    RenamesSpeak(pairs, consumed, dir, from);
    ChangeEventsLaw(batch, consumed, from + |pairs|);
    var events := renames + changes;
    assert |renames| == |pairs| by { RenameCount(pairs, dir, from); }
    ChangesStayOut(changes, batch, consumed, from + |pairs|);
    JoinApart(renames, changes, consumed);
    forall p ensures HasEventFor(events, p) <==> p in consumed || HasEventFor(changes, p) {
      HasEventEither(renames, changes, p);
    }
  }

  lemma RenameCount(pairs: seq<Pair>, dir: string -> string, from: nat)
    ensures |RenameEvents(pairs, dir, from)| == |pairs|
  {
  }

  lemma HasEventEither(a: seq<Event>, b: seq<Event>, path: string)
    ensures HasEventFor(a + b, path) <==> HasEventFor(a, path) || HasEventFor(b, path)
  {
    var all := a + b;
    if HasEventFor(a, path) {
      var i :| 0 <= i < |a| && path in Touches(a[i]);
      assert all[i] == a[i];
    } else if HasEventFor(b, path) {
      var i :| 0 <= i < |b| && path in Touches(b[i]);
      assert all[|a| + i] == b[i];
    }
  }

  lemma ToldPath(changes: seq<Event>, batch: seq<Change>, consumed: set<string>, from: nat, p: string) returns (k: nat)
    requires TellsAll(changes, batch, consumed, from) && HasEventFor(changes, p)
    ensures k < |batch| && batch[k].path == p && Reported(batch[k], consumed)
  {
    hide KindOf;
    var i :| 0 <= i < |changes| && p in Touches(changes[i]);
    assert Tells(changes[i], batch, consumed);
    k :| 0 <= k < |batch| && Reported(batch[k], consumed) && changes[i].path == batch[k].path;
  }

  lemma ChangesStayOut(changes: seq<Event>, batch: seq<Change>, consumed: set<string>, from: nat)
    requires TellsAll(changes, batch, consumed, from) && DistinctPaths(batch)
    ensures forall p :: HasEventFor(changes, p) ==> p !in consumed && exists k :: 0 <= k < |batch| && batch[k].path == p
    ensures forall k :: 0 <= k < |batch| ==> (HasEventFor(changes, batch[k].path) <==> Reported(batch[k], consumed))
  {
    hide KindOf, HasEventFor, Tells, TouchApart, Numbered;
    forall k | 0 <= k < |batch| && HasEventFor(changes, batch[k].path) ensures Reported(batch[k], consumed) {
      var l := ToldPath(changes, batch, consumed, from, batch[k].path);
      assert k == l;
    }
    forall p | HasEventFor(changes, p) ensures p !in consumed && exists k :: 0 <= k < |batch| && batch[k].path == p {
      var l := ToldPath(changes, batch, consumed, from, p);
    }
  }

  lemma JoinApart(a: seq<Event>, b: seq<Event>, consumed: set<string>)
    requires TouchApart(a) && TouchApart(b)
    requires (forall p :: HasEventFor(a, p) <==> p in consumed) && (forall p :: HasEventFor(b, p) ==> p !in consumed)
    ensures TouchApart(a + b)
  {
    forall i, j | 0 <= i < |a| && 0 <= j < |b| ensures Touches(a[i]) !! Touches(b[j]) {
      forall p ensures !(p in Touches(a[i]) && p in Touches(b[j])) {
        assert p in Touches(a[i]) ==> HasEventFor(a, p);
        assert p in Touches(b[j]) ==> HasEventFor(b, p);
      }
    }
  }
}
