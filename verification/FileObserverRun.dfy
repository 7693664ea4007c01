/** The observer's loop body by body: acceptChange, readyChanges, eventsForBatch and the flush of Observe in
    internal/adapters/filesystem/observer.go. */
module FileObserverRun {
  import opened Common
  import opened RenameMatch
  import opened FileObserver

  type States = map<string, FileState>

  const SEPARATOR := '/'

  predicate IsUnder(candidate: string, path: string) {
    path + [SEPARATOR] <= candidate
  }

  /** deleteStateTree */
  function WithoutTree(states: States, path: string, directory: bool): States {
    map p | p in states && p != path && !(directory && IsUnder(p, path)) :: states[p]
  }

  function StateOf(states: States, path: string): FileState {
    if path in states then states[path] else ABSENT
  }

  /** What came of looking at a notified path: its state, whether it is a symbolic link, and a new directory's tree. */
  datatype Look = Look(after: FileState, symlink: bool, tree: Option<States>)

  function StatesAfter(states: States, path: string, ops: set<Operation>, look: Look): States {
    var grown := if Create in ops && look.after.directory && look.tree.Some? then states + look.tree.value else states;
    if look.after.present then grown[path := look.after] else WithoutTree(grown, path, StateOf(states, path).directory)
  }

  /** The pending change at a path once the notification has joined it. */
  function Joined(pending: Pending, before: FileState, path: string, ops: set<Operation>, after: FileState, at: int): Change {
    if path in pending then
      var c := pending[path];
      c.(ops := c.ops + ops, after := after, last := at, count := c.count + 1)
    else Change(path, ops, before, after, at, at, 1)
  }

  lemma JoinedCounts(pending: Pending, before: FileState, path: string, ops: set<Operation>, after: FileState, at: int)
    requires Filed(pending)
    ensures var next := pending[path := Joined(pending, before, path, ops, after, at)];
            && Filed(next) && Total(next) == Total(pending) + 1
            && |next| == |pending| + if path in pending then 0 else 1
  {
    hide Total;
    var c := Joined(pending, before, path, ops, after, at);
    TotalWith(pending, path, c);
    PutSize(pending, path, c);
    if path in pending {
      TotalWithout(pending, path);
    } else {
      assert pending - {path} == pending;
    }
  }

  method LatestRename(pending: Pending) returns (latest: int)
    ensures IsLatestRename(pending, latest)
  {
    latest := 0;
    var left := pending.Keys;
    while left != {}
      invariant left <= pending.Keys && 0 <= latest
      invariant forall p :: p in pending && p !in left && NeedsRenameWindow(pending[p]) ==> pending[p].last <= latest
      invariant latest == 0 || exists p :: p in pending && NeedsRenameWindow(pending[p]) && pending[p].last == latest
      decreases |left|
    {
      var p :| p in left;
      left := left - {p};
      if NeedsRenameWindow(pending[p]) && pending[p].last > latest {
        latest := pending[p].last;
      }
    }
  }

  method DueKeys(pending: Pending, t: Timing, latest: int, all: bool) returns (keys: seq<string>)
    ensures Distinct(keys) && forall p :: p in keys <==> p in pending && (all || Due(pending[p], t, latest))
  {
    keys := [];
    var left := pending.Keys;
    while left != {}
      invariant left <= pending.Keys && Distinct(keys)
      invariant forall p :: p in keys <==> p in pending && p !in left && (all || Due(pending[p], t, latest))
      decreases |left|
    {
      var p :| p in left;
      left := left - {p};
      var item := pending[p];
      var age := t.now - item.last;
      var required := t.debounce;
      if NeedsRenameWindow(item) {
        age := t.now - latest;
        required := Max(required, t.renameWindow);
      }
      if all || age >= required {
        keys := keys + [p];
      }
    }
  }

  /** The first of the sorted due keys. */
  ghost predicate IsFirstDue(paths: seq<string>, pending: Pending, t: Timing, latest: int, all: bool, limit: nat) {
    && SortedBy(StringLess, paths) && |paths| <= limit && Distinct(paths)
    && (forall i :: 0 <= i < |paths| ==> paths[i] in pending && (all || Due(pending[paths[i]], t, latest)))
    && (forall p :: p in pending && p !in paths && (all || Due(pending[p], t, latest)) ==>
          |paths| == limit && forall i :: 0 <= i < |paths| ==> StringLess(paths[i], p))
  }

  lemma FirstDue(keys: seq<string>, pending: Pending, t: Timing, latest: int, all: bool, limit: nat)
    requires Distinct(keys) && forall p :: p in keys <==> p in pending && (all || Due(pending[p], t, latest))
    ensures var sorted := Sort(StringLess, keys);
            IsFirstDue(if |sorted| > limit then sorted[..limit] else sorted, pending, t, latest, all, limit)
  {
    hide Due, StringLess, Sort;
    SortedKeys(keys);
    FirstOfSorted(Sort(StringLess, keys), pending, t, latest, all, limit);
  }

  lemma SortedKeys(keys: seq<string>)
    requires Distinct(keys)
    ensures SortedBy(StringLess, Sort(StringLess, keys)) && Distinct(Sort(StringLess, keys))
    ensures forall p :: p in Sort(StringLess, keys) <==> p in keys
  {
    hide StringLess;
    StringLessOrders(Elements(keys));
    SortSorted(StringLess, keys);
    SortMultiset(StringLess, keys);
    SortElements(StringLess, keys);
    DistinctByMultiset(keys, Sort(StringLess, keys));
    assert forall p :: p in Sort(StringLess, keys) <==> p in Elements(Sort(StringLess, keys));
    assert forall p :: p in keys <==> p in Elements(keys);
  }

  lemma FirstOfSorted(sorted: seq<string>, pending: Pending, t: Timing, latest: int, all: bool, limit: nat)
    requires SortedBy(StringLess, sorted) && Distinct(sorted) && forall p :: p in sorted <==> p in pending && (all || Due(pending[p], t, latest))
    ensures IsFirstDue(if |sorted| > limit then sorted[..limit] else sorted, pending, t, latest, all, limit)
  {
    hide Due, StringLess;
    var paths := if |sorted| > limit then sorted[..limit] else sorted;
    forall i | 0 <= i < |paths| ensures paths[i] in pending && (all || Due(pending[paths[i]], t, latest)) {
      assert sorted[i] in sorted;
    }
    forall p | p in pending && p !in paths && (all || Due(pending[p], t, latest))
      ensures |paths| == limit && forall i :: 0 <= i < |paths| ==> StringLess(paths[i], p)
    {
      LeftOutIsLater(sorted, limit, p);
    }
  }

  lemma LeftOutIsLater(sorted: seq<string>, limit: nat, p: string)
    requires SortedBy(StringLess, sorted) && p in sorted && p !in if |sorted| > limit then sorted[..limit] else sorted
    ensures limit < |sorted| && forall i :: 0 <= i < limit ==> StringLess(sorted[i], p)
  {
    hide StringLess;
    var k :| 0 <= k < |sorted| && sorted[k] == p;
  }

  lemma FirstDueSplits(paths: seq<string>, pending: Pending, t: Timing, latest: int, all: bool, limit: nat, ready: seq<Change>, kept: Pending)
    requires IsFirstDue(paths, pending, t, latest, all, limit) && Filed(pending)
    requires |ready| == |paths| && forall i :: 0 <= i < |paths| ==> paths[i] in pending && ready[i] == pending[paths[i]]
    requires kept == pending - Elements(paths)
    ensures IsSplit(pending, ready, kept, t, latest, all, limit)
  {
    hide Due, StringLess;
    assert paths == seq(|ready|, i requires 0 <= i < |ready| => ready[i].path);
    forall p | p in kept && (all || Due(kept[p], t, latest))
      ensures |ready| == limit && forall i :: 0 <= i < |ready| ==> StringLess(ready[i].path, p)
    {
      assert p !in paths && p in pending;
      assert forall i :: 0 <= i < |ready| ==> ready[i].path == paths[i];
    }
  }

  lemma NothingTaken(pending: Pending, keys: seq<string>)
    ensures pending - Elements(keys[..0]) == pending
  {
  }

  /** Taking the i-th key as well. */
  lemma TakeOne(pending: Pending, keys: seq<string>, i: nat)
    requires i < |keys| && keys[i] !in keys[..i]
    ensures pending - Elements(keys[..i]) - {keys[i]} == pending - Elements(keys[..i + 1])
    ensures keys[i] in pending ==> keys[i] in pending - Elements(keys[..i])
  {
    assert keys[..i + 1] == keys[..i] + [keys[i]];
    ElementsSnoc(keys[..i], keys[i]);
  }

  class Observer {
    const maxPending: nat
    const batchSize: nat
    const relative: string -> string
    const dir: string -> string
    var states: States
    var pending: Pending
    var dropped: nat
    var sequence: nat
    /** How many notifications came in, and how many have been told of. */
    ghost var noted: nat
    ghost var told: nat

    ghost predicate Valid()
      reads this
    {
      && Filed(pending) && |pending| <= maxPending
      && noted == Total(pending) + dropped + told
    }

    constructor (maxPending: nat, batchSize: nat, relative: string -> string, dir: string -> string, states: States)
      ensures Valid() && pending == map[] && dropped == 0 && sequence == 0 && this.states == states
      ensures this.maxPending == maxPending && this.batchSize == batchSize && this.relative == relative && this.dir == dir
    {
      this.maxPending, this.batchSize, this.relative, this.dir, this.states := maxPending, batchSize, relative, dir, states;
      pending, dropped, sequence, noted, told := map[], 0, 0, 0, 0;
    }

    /** A notification lost before it got here. */
    method Lose()
      requires Valid()
      modifies this
      ensures Valid() && dropped == old(dropped) + 1 && noted == old(noted) + 1 && told == old(told)
      ensures pending == old(pending) && states == old(states) && sequence == old(sequence)
    {
      dropped := dropped + 1;
      noted := noted + 1;
    }

    /** path is None where the path lies outside the project or is ignored. */
    method AcceptChange(path: Option<string>, ops: set<Operation>, look: Look, at: int)
      requires Valid()
      modifies this
      ensures Valid() && told == old(told) && sequence == old(sequence)
      ensures path.None? || (look.after.present && look.symlink) ==>
                states == old(states) && pending == old(pending) && dropped == old(dropped) && noted == old(noted)
      ensures path.Some? && !(look.after.present && look.symlink) ==>
                && noted == old(noted) + 1 && states == StatesAfter(old(states), path.value, ops, look)
                && if path.value !in old(pending) && maxPending <= |old(pending)| then pending == old(pending) && dropped == old(dropped) + 1
                   else
                     && dropped == old(dropped)
                     && pending == old(pending)[path.value := Joined(old(pending), StateOf(old(states), path.value), path.value, ops, look.after, at)]
    {
      if path.None? || (look.after.present && look.symlink) {
        return;
      }
      var p := path.value;
      var before := StateOf(states, p);
      if Create in ops && look.after.directory && look.tree.Some? {
        states := states + look.tree.value;
      }
      if look.after.present {
        states := states[p := look.after];
      } else {
        states := WithoutTree(states, p, before.directory);
      }
      noted := noted + 1;
      Note(p, ops, before, look.after, at);
    }

    /** The pending part of acceptChange. */
    method Note(path: string, ops: set<Operation>, before: FileState, after: FileState, at: int)
      requires Filed(pending) && |pending| <= maxPending
      modifies `pending, `dropped
      ensures Filed(pending) && |pending| <= maxPending
      ensures Total(pending) + dropped == Total(old(pending)) + old(dropped) + 1
      ensures if path !in old(pending) && maxPending <= |old(pending)| then pending == old(pending) && dropped == old(dropped) + 1
              else dropped == old(dropped) && pending == old(pending)[path := Joined(old(pending), before, path, ops, after, at)]
    {
      hide Total;
      var current: Change;
      if path in pending {
        current := pending[path];
      } else {
        if |pending| >= maxPending {
          dropped := dropped + 1;
          return;
        }
        current := Change(path, {}, before, ABSENT, at, at, 0);
      }
      assert {} + ops == ops;
      current := current.(ops := current.ops + ops, after := after, last := at, count := current.count + 1);
      JoinedCounts(pending, before, path, ops, after, at);
      pending := pending[path := current];
    }

    method ReadyChanges(t: Timing, all: bool) returns (ready: seq<Change>, ghost latest: int)
      requires Filed(pending)
      modifies `pending
      ensures IsLatestRename(old(pending), latest)
      ensures IsSplit(old(pending), ready, pending, t, latest, all, batchSize)
    {
      hide IsSplit, IsFirstDue, IsLatestRename, Due, Sort, StringLess, Elements;
      var latestRenameChange := LatestRename(pending);
      latest := latestRenameChange;
      var keys := DueKeys(pending, t, latestRenameChange, all);
      FirstDue(keys, pending, t, latest, all, batchSize);
      keys := Sort(StringLess, keys);
      if |keys| > batchSize {
        keys := keys[..batchSize];
      }
      FirstDueInside(keys, pending, t, latest, all, batchSize);
      ready := [];
      NothingTaken(pending, keys);
      for i := 0 to |keys|
        invariant pending == old(pending) - Elements(keys[..i])
        invariant |ready| == i && forall j :: 0 <= j < i ==> ready[j] == old(pending)[keys[j]]
      {
        assert keys[i] !in keys[..i];
        TakeOne(old(pending), keys, i);
        ready := ready + [pending[keys[i]]];
        pending := pending - {keys[i]};
      }
      assert keys[..|keys|] == keys;
      FirstDueSplits(keys, old(pending), t, latest, all, batchSize, ready, pending);
    }

    method TellRenames(pairs: seq<Pair>) returns (events: seq<Event>)
      modifies `sequence
      ensures events == RenameEvents(pairs, dir, old(sequence)) && sequence == old(sequence) + |pairs|
    {
      events := [];
      for i := 0 to |pairs|
        invariant sequence == old(sequence) + i && |events| == i
        invariant events == RenameEvents(pairs, dir, old(sequence))[..i]
      {
        sequence := sequence + 1;
        events := events + [Event(sequence, RenameKind(pairs[i], dir), pairs[i].next.path, Some(pairs[i].prior.path))];
      }
    }

    method TellChanges(batch: seq<Change>, consumed: set<string>) returns (events: seq<Event>)
      modifies `sequence
      ensures events == ChangeEvents(batch, consumed, old(sequence)) && sequence == old(sequence) + |events|
    {
      hide KindOf;
      events := [];
      for i := 0 to |batch|
        invariant sequence == old(sequence) + |events|
        invariant events == ChangeEvents(batch[..i], consumed, old(sequence))
      {
        assert batch[..i + 1][..i] == batch[..i];
        var item := batch[i];
        if item.path in consumed {
          continue;
        }
        var kind := KindOf(item);
        if kind.None? {
          continue;
        }
        sequence := sequence + 1;
        events := events + [Event(sequence, kind.value, item.path, None)];
      }
      assert batch[..|batch|] == batch;
    }

    /** renames is git's answer; pairs and consumed are what became of it. */
    method EventsForBatch(batch: seq<Change>, renames: map<string, string>)
      returns (events: seq<Event>, ghost pairs: seq<Pair>, ghost consumed: set<string>)
      requires DistinctPaths(batch)
      modifies `sequence
      ensures sequence == old(sequence) + |events| && Numbered(events, old(sequence)) && SpeaksFor(events, batch, consumed)
      ensures GoodMatch(Match(pairs, consumed), batch, renames, relative)
      ensures events == BatchEvents(batch, pairs, consumed, dir, old(sequence))
      ensures TellsBatch(events, batch, pairs, consumed, dir)
    {
      hide SpeaksFor, GoodMatch, KindOf, Numbered, RenameEvents, ChangeEvents, TellsBatch;
      if |batch| == 0 {
        NothingMatches(renames, relative);
        BatchSpeaksOf(batch, [], {}, renames, relative, dir, sequence);
        BatchTells(batch, [], {}, dir, sequence);
        NoEvents(dir, sequence);
        return [], [], {};
      }
      var renamed, used, order := CorrelateRenames(batch, renames, relative);
      pairs, consumed := renamed, used;
      CorrelatedIsMatching(batch, renames, relative, order);
      BatchSpeaksOf(batch, renamed, used, renames, relative, dir, sequence);
      BatchTells(batch, renamed, used, dir, sequence);
      RenameCount(renamed, dir, sequence);
      var first := TellRenames(renamed);
      var rest := TellChanges(batch, used);
      events := first + rest;
    }

    /** One flush: a batch of events numbered on from the last one, and what was lost told at the end.
        The ghost results say which changes were released, and how they were paired. */
    method Flush(t: Timing, all: bool, renames: map<string, string>)
      returns (events: seq<Event>, ghost ready: seq<Change>, ghost latest: int, ghost pairs: seq<Pair>, ghost consumed: set<string>)
      requires Valid()
      modifies this
      ensures Valid() && noted == old(noted) && told == old(told) + Count(ready) + old(dropped) && dropped == 0 && states == old(states)
      ensures IsLatestRename(old(pending), latest) && IsSplit(old(pending), ready, pending, t, latest, all, batchSize)
      ensures GoodMatch(Match(pairs, consumed), ready, renames, relative)
      ensures sequence == old(sequence) + |events| && Numbered(events, old(sequence))
      ensures events == BatchEvents(ready, pairs, consumed, dir, old(sequence))
                        + if old(dropped) > 0 then [Event(sequence, Dropped(old(dropped)), "", None)] else []
      ensures SpeaksFor(BatchEvents(ready, pairs, consumed, dir, old(sequence)), ready, consumed)
      ensures if old(dropped) > 0
              then events != [] && TellsBatch(events[..|events| - 1], ready, pairs, consumed, dir)
                   && events[|events| - 1].kind == Dropped(old(dropped))
              else TellsBatch(events, ready, pairs, consumed, dir)
      ensures all ==> (pending == map[] <==> |old(pending)| <= batchSize)
    {
      hide IsSplit, SpeaksFor, GoodMatch, IsLatestRename, BatchEvents, Numbered, Total, Filed, DistinctPaths, Count, TellsBatch;
      var batch, window := ReadyChanges(t, all);
      ready, latest := batch, window;
      SplitConserves(old(pending), ready, pending, t, latest, all, batchSize);
      SplitKeepsFiled(old(pending), ready, pending, t, latest, all, batchSize);
      if all {
        FinalFlushEmptiesIff(old(pending), ready, pending, t, latest, batchSize);
      }
      told := told + Count(ready);
      if |batch| == 0 && dropped == 0 {
        NothingMatches(renames, relative);
        BatchSpeaksOf([], [], {}, renames, relative, dir, sequence);
        BatchTells([], [], {}, dir, sequence);
        NoEvents(dir, sequence);
        return [], batch, window, [], {};
      }
      var some, found, used := EventsForBatch(batch, renames);
      pairs, consumed := found, used;
      events := some;
      var lost := dropped;
      told := told + dropped;
      dropped := 0;
      if lost > 0 {
        sequence := sequence + 1;
        NumberedSnoc(events, old(sequence), Event(sequence, Dropped(lost), "", None));
        events := events + [Event(sequence, Dropped(lost), "", None)];
        assert events[..|events| - 1] == some;
      }
    }
  }

  lemma PutSize(pending: Pending, p: string, c: Change)
    ensures |pending[p := c]| == |pending| + if p in pending then 0 else 1
  {
    assert pending[p := c].Keys == pending.Keys + {p};
    assert |pending| == |pending.Keys| && |pending[p := c]| == |pending[p := c].Keys|;
  }

  lemma NumberedSnoc(events: seq<Event>, from: nat, e: Event)
    requires Numbered(events, from) && e.sequence == from + |events| + 1
    ensures Numbered(events + [e], from)
  {
  }

  lemma NoEvents(dir: string -> string, from: nat)
    ensures BatchEvents([], [], {}, dir, from) == []
  {
  }

  lemma FirstDueInside(paths: seq<string>, pending: Pending, t: Timing, latest: int, all: bool, limit: nat)
    requires IsFirstDue(paths, pending, t, latest, all, limit)
    ensures Distinct(paths) && forall i :: 0 <= i < |paths| ==> paths[i] in pending
  {
  }

  lemma NothingMatches(renames: map<string, string>, relative: string -> string)
    ensures GoodMatch(Match([], {}), [], renames, relative)
  {
  }

  lemma BatchSpeaksOf(batch: seq<Change>, pairs: seq<Pair>, consumed: set<string>, renames: map<string, string>, relative: string -> string,
                      dir: string -> string, from: nat)
    requires DistinctPaths(batch) && GoodMatch(Match(pairs, consumed), batch, renames, relative)
    ensures var events := BatchEvents(batch, pairs, consumed, dir, from);
            Numbered(events, from) && SpeaksFor(events, batch, consumed)
  {
    hide Numbered, SpeaksFor, KindOf;
    assert DistinctPaths(batch);
    forall p | p in consumed ensures exists k :: 0 <= k < |batch| && batch[k].path == p {
      var i :| 0 <= i < |pairs| && p in {pairs[i].prior.path, pairs[i].next.path};
      assert pairs[i] in Match(pairs, consumed).pairs;
    }
    BatchSpeaks(batch, pairs, consumed, dir, from);
  }

  lemma SplitKeepsFiled(pending: Pending, ready: seq<Change>, kept: Pending, t: Timing, latest: int, all: bool, limit: nat)
    requires IsSplit(pending, ready, kept, t, latest, all, limit) && Filed(pending)
    ensures Filed(kept) && |kept| <= |pending|
  {
    SplitSizes(pending, ready, kept, t, latest, all, limit);
  }

  // ----- what a notification leaves, told field by field -----

  /** A change that was pending keeps where it began and takes over where it is now; a new one begins with what was known. */
  lemma JoinedMeans(pending: Pending, before: FileState, path: string, ops: set<Operation>, after: FileState, at: int)
    ensures var c := Joined(pending, before, path, ops, after, at);
            && c.after == after && c.last == at
            && (path in pending ==>
                 var was := pending[path];
                 c.path == was.path && c.before == was.before && c.first == was.first && c.ops == was.ops + ops && c.count == was.count + 1)
            && (path !in pending ==> c.path == path && c.before == before && c.first == at && c.ops == ops && c.count == 1)
  {
  }

  /** A path that is there is known as seen; one that is gone is forgotten, with all below it if it was a directory; a new directory brings its tree. */
  lemma StatesMean(states: States, path: string, ops: set<Operation>, look: Look, p: string)
    ensures var now := StatesAfter(states, path, ops, look);
            var known := if Create in ops && look.after.directory && look.tree.Some? && p in look.tree.value then Some(look.tree.value[p])
                         else if p in states then Some(states[p]) else None;
            var shown := if look.after.present then if p == path then Some(look.after) else known
                         else if p == path || (path in states && states[path].directory && path + "/" <= p) then None
                         else known;
            (p in now <==> shown.Some?) && (p in now ==> now[p] == shown.value)
  {
    assert path + [SEPARATOR] == path + "/";
  }

  /** When a change is due: a possible part of a rename once both times have gone by since the last such change, any other once it has been quiet. */
  lemma DueMeans(c: Change, t: Timing, latest: int)
    ensures var partOfRename := Rename in c.ops || Remove in c.ops || (Create in c.ops && !c.before.present);
            && (NeedsRenameWindow(c) <==> partOfRename)
            && (partOfRename ==> (Due(c, t, latest) <==> latest + t.debounce <= t.now && latest + t.renameWindow <= t.now))
            && (!partOfRename ==> (Due(c, t, latest) <==> c.last + t.debounce <= t.now))
  {
  }
}
