/**
 Rebuilding a session view from persisted events: internal/replay/replay.go, with the store's
 own ordering from internal/store/store.go.
 */
module Replay {
  import opened Common
  import opened Protocol
  import opened SessionEngine
  import opened SessionGeometry

  // ----- the canonical order -----

  function ReplayRank(t: EventType): int {
    match t
    case SessionStarted => 0
    case SessionStopped => 2
    case _ => 1
  }

  /** The comparator of canonicalEvents: a missing monotonic stamp (zero) sorts last. */
  predicate ReplayLess(left: Event, right: Event) {
    if ReplayRank(left.eventType) != ReplayRank(right.eventType) then ReplayRank(left.eventType) < ReplayRank(right.eventType)
    else if left.timestamp != right.timestamp then left.timestamp < right.timestamp
    else if left.monotonic != right.monotonic then
      if left.monotonic == 0 then false
      else if right.monotonic == 0 then true
      else left.monotonic < right.monotonic
    else StringLess(left.eventId, right.eventId)
  }

  function LifecycleRank(t: EventType): int {
    if t.SessionStarted? then 0 else if t.SessionStopped? then 2 else 1
  }

  /** eventLess of the store, in which Events returns its rows. */
  predicate StoreLess(left: Event, right: Event) {
    var leftRank, rightRank := LifecycleRank(left.eventType), LifecycleRank(right.eventType);
    if leftRank != rightRank then leftRank < rightRank
    else if left.timestamp == right.timestamp then
      if left.monotonic == right.monotonic then StringLess(left.eventId, right.eventId)
      else left.monotonic != 0 && (right.monotonic == 0 || left.monotonic < right.monotonic)
    else left.timestamp < right.timestamp
  }

  lemma StoreOrderIsReplayOrder(left: Event, right: Event)
    ensures StoreLess(left, right) <==> ReplayLess(left, right)
  {
  }

  /** Events with equal IDs are equal. */
  ghost predicate Consistent(events: set<Event>) {
    forall x, y :: x in events && y in events && x.eventId == y.eventId ==> x == y
  }

  lemma ReplayLessTransitive(x: Event, y: Event, z: Event)
    requires ReplayLess(x, y) && ReplayLess(y, z)
    ensures ReplayLess(x, z)
  {
    if StringLess(x.eventId, y.eventId) && StringLess(y.eventId, z.eventId) {
      StringLessTransitive(x.eventId, y.eventId, z.eventId);
    }
  }

  /** A strict total order on events with distinct IDs. */
  lemma ReplayLessOrders(events: set<Event>)
    requires Consistent(events)
    ensures Orders(ReplayLess, events)
  {
    forall x ensures !ReplayLess(x, x) {
      StringLessIrreflexive(x.eventId);
    }
    forall x, y, z | ReplayLess(x, y) && ReplayLess(y, z) ensures ReplayLess(x, z) {
      ReplayLessTransitive(x, y, z);
    }
    forall x, y | x in events && y in events && x != y ensures ReplayLess(x, y) || ReplayLess(y, x) {
      StringLessTotal(x.eventId, y.eventId);
    }
  }

  // ----- deduplication and sorting -----

  /** The first event with each ID, in input order. */
  function FirstOfEach(events: seq<Event>): seq<Event> {
    if events == [] then []
    else
      var rest, e := FirstOfEach(events[..|events| - 1]), events[|events| - 1];
      if exists x :: x in rest && x.eventId == e.eventId then rest else rest + [e]
  }

  function Canonical(events: seq<Event>): seq<Event> {
    Sort(ReplayLess, FirstOfEach(events))
  }

  lemma {:induction false} FirstOfEachSubset(events: seq<Event>)
    ensures forall e :: e in FirstOfEach(events) ==> e in events
  {
    if events != [] {
      FirstOfEachSubset(events[..|events| - 1]);
    }
  }

  ghost predicate UniqueIds(r: seq<Event>) {
    forall i, j :: 0 <= i < j < |r| ==> r[i].eventId != r[j].eventId
  }

  lemma {:induction false} FirstOfEachUnique(events: seq<Event>)
    ensures UniqueIds(FirstOfEach(events))
  {
    if events != [] {
      FirstOfEachUnique(events[..|events| - 1]);
      var rest, e := FirstOfEach(events[..|events| - 1]), events[|events| - 1];
      if !(exists x :: x in rest && x.eventId == e.eventId) {
        assert FirstOfEach(events) == rest + [e];
        assert forall i :: 0 <= i < |rest| ==> rest[i] in rest;
        assert forall i :: 0 <= i < |rest| ==> rest[i].eventId != e.eventId;
      }
    }
  }

  lemma {:induction false} FirstOfEachCovers(events: seq<Event>, e: Event)
    requires e in events
    ensures exists x :: x in FirstOfEach(events) && x.eventId == e.eventId
  {
    var before, last := events[..|events| - 1], events[|events| - 1];
    var rest := FirstOfEach(before);
    if e in before {
      FirstOfEachCovers(before, e);
      var x :| x in rest && x.eventId == e.eventId;
      assert x in FirstOfEach(events);
    } else {
      assert e == last;
      assert FirstOfEach(events) == rest || e in FirstOfEach(events);
    }
  }

  lemma UniqueIdsAreConsistent(r: seq<Event>)
    requires UniqueIds(r)
    ensures Distinct(r) && Consistent(Elements(r))
  {
    forall x, y | x in Elements(r) && y in Elements(r) && x.eventId == y.eventId ensures x == y {
      var i :| 0 <= i < |r| && r[i] == x;
      var j :| 0 <= j < |r| && r[j] == y;
      assert i == j;
    }
  }

  lemma FirstOfEachFacts(events: seq<Event>)
    ensures Elements(FirstOfEach(events)) <= Elements(events)
    ensures Distinct(FirstOfEach(events)) && Consistent(Elements(FirstOfEach(events)))
    ensures forall e :: e in events ==> exists x :: x in FirstOfEach(events) && x.eventId == e.eventId
  {
    hide FirstOfEach;
    FirstOfEachSubset(events);
    FirstOfEachUnique(events);
    UniqueIdsAreConsistent(FirstOfEach(events));
    forall e | e in events ensures exists x :: x in FirstOfEach(events) && x.eventId == e.eventId {
      FirstOfEachCovers(events, e);
    }
  }

  /** On consistent input nothing but duplicates is dropped. */
  lemma FirstOfEachElements(events: seq<Event>)
    requires Consistent(Elements(events))
    ensures Elements(FirstOfEach(events)) == Elements(events)
  {
    FirstOfEachFacts(events);
    forall e | e in Elements(events) ensures e in Elements(FirstOfEach(events)) {
      var x :| x in FirstOfEach(events) && x.eventId == e.eventId;
      assert x in Elements(FirstOfEach(events)) && x in Elements(events);
    }
  }

  /** The canonical form is strictly sorted and has each ID once; any such form is this one. */
  lemma CanonicalIsTheSortedForm(events: seq<Event>)
    ensures SortedBy(ReplayLess, Canonical(events))
    ensures Elements(Canonical(events)) == Elements(FirstOfEach(events))
    ensures Distinct(Canonical(events)) && |Canonical(events)| == |FirstOfEach(events)|
    ensures forall other :: SortedBy(ReplayLess, other) && Elements(other) == Elements(FirstOfEach(events)) ==> other == Canonical(events)
  {
    var unique := FirstOfEach(events);
    FirstOfEachFacts(events);
    ReplayLessOrders(Elements(unique));
    SortElements(ReplayLess, unique);
    SortSorted(ReplayLess, unique);
    forall other | SortedBy(ReplayLess, other) && Elements(other) == Elements(unique) ensures other == Canonical(events) {
      SortedIsUnique(ReplayLess, Canonical(events), other);
    }
    SortedIsDistinct(Canonical(events));
  }

  lemma SortedIsDistinct(events: seq<Event>)
    requires SortedBy(ReplayLess, events)
    ensures Distinct(events)
  {
    forall i, j | 0 <= i < j < |events| ensures events[i] != events[j] {
      assert ReplayLess(events[i], events[j]);
      StringLessIrreflexive(events[i].eventId);
    }
  }

  /** Order and duplication of the input do not matter. */
  lemma CanonicalIgnoresOrder(a: seq<Event>, b: seq<Event>)
    requires Elements(a) == Elements(b) && Consistent(Elements(a))
    ensures Canonical(a) == Canonical(b)
  {
    FirstOfEachElements(a);
    FirstOfEachElements(b);
    CanonicalIsTheSortedForm(a);
    CanonicalIsTheSortedForm(b);
  }

  /** Rows in store order with distinct IDs are already canonical, so timeline positions and replay cursors agree. */
  lemma StoreOrderIsCanonical(rows: seq<Event>)
    requires SortedBy(StoreLess, rows) && Consistent(Elements(rows))
    ensures Canonical(rows) == rows
  {
    forall i, j | 0 <= i < j < |rows| ensures ReplayLess(rows[i], rows[j]) {
      assert StoreLess(rows[i], rows[j]);
      StoreOrderIsReplayOrder(rows[i], rows[j]);
    }
    FirstOfEachElements(rows);
    CanonicalIsTheSortedForm(rows);
  }

  ghost predicate IndexesFirst(unique: map<string, Event>, first: seq<Event>) {
    && (forall id :: id in unique ==> unique[id] in first && unique[id].eventId == id)
    && (forall x :: x in first ==> x.eventId in unique && unique[x.eventId] == x)
  }

  method IndexById(events: seq<Event>) returns (unique: map<string, Event>)
    ensures IndexesFirst(unique, FirstOfEach(events))
  {
    unique := map[];
    assert events[..0] == [];
    for i := 0 to |events|
      invariant IndexesFirst(unique, FirstOfEach(events[..i]))
    {
      assert events[..i + 1][..i] == events[..i];
      if events[i].eventId !in unique {
        unique := unique[events[i].eventId := events[i]];
      }
    }
    assert events[..|events|] == events;
  }

  /** The map of canonicalEvents, drained in whatever order it yields, then sorted. */
  method CanonicalEvents(events: seq<Event>) returns (ordered: seq<Event>)
    ensures ordered == Canonical(events)
  {
    hide FirstOfEach;
    var unique := IndexById(events);
    ghost var first := FirstOfEach(events);
    FirstOfEachFacts(events);
    var todo := unique.Keys;
    ordered := [];
    while todo != {}
      invariant todo <= unique.Keys
      invariant forall x :: x in ordered ==> x in first && x.eventId !in todo
      invariant forall id :: id in unique && id !in todo ==> unique[id] in ordered
      invariant Distinct(ordered)
    {
      var id :| id in todo;
      ordered := ordered + [unique[id]];
      todo := todo - {id};
    }
    forall x | x in Elements(first) ensures x in Elements(ordered) {
      assert unique[x.eventId] == x;
    }
    assert Elements(ordered) == Elements(first);
    ReplayLessOrders(Elements(ordered));
    SortElements(ReplayLess, ordered);
    SortSorted(ReplayLess, ordered);
    CanonicalIsTheSortedForm(events);
    ordered := Sort(ReplayLess, ordered);
  }

  // ----- applying events up to a cursor -----

  datatype Snapshot = Snapshot(state: Option<Session>, cursor: int, cursorAt: Time, eventCount: nat)

  /** applyDiff reads a work result off an event. */
  function WorkOf(e: Event): Option<Work> {
    if e.accessSequence.None? || e.accessSequence.value < 1 then None
    else Some(Work(e.accessSequence.value, e.linesAdded, e.linesDeleted,
                   if e.status == "" then "unknown" else e.status,
                   if e.operation == "" then "unknown" else e.operation, e.confidence))
  }

  function ApplyOne(sessions: Sessions, e: Event, idle: int): Reply {
    if e.eventType.DiffCalculated? then
      match WorkOf(e)
      case None => Reply(sessions, Err("diff result access_sequence is required"))
      case Some(w) => EngineWork(sessions, e.sessionId, w)
    else EngineApply(sessions, e, idle)
  }

  /** The engine after the first n events, and the state the last of them returned. */
  function ReplayTo(events: seq<Event>, n: nat, idle: int): Reply
    requires n <= |events|
  {
    if n == 0 then Reply(map[], Err("session start is missing from persisted events"))
    else
      var before := ReplayTo(events, n - 1, idle);
      if n > 1 && before.state.Err? then before else ApplyOne(before.sessions, events[n - 1], idle)
  }

  function LatestTime(events: seq<Event>): Time {
    if events == [] then ZERO_TIME else Max(LatestTime(events[..|events| - 1]), events[|events| - 1].timestamp)
  }

  function IdleOrDefault(idle: int): int {
    if idle <= 0 then DEFAULT_IDLE_TIMEOUT else idle
  }

  function Reconstruct(events: seq<Event>, cursor: int, idle: int, valid: Event -> bool): Result<Snapshot> {
    if exists e :: e in events && !valid(e) then Err("invalid replay event")
    else
      var ordered := Canonical(events);
      if |ordered| == 0 || cursor < 0 then Ok(Snapshot(None, -1, ZERO_TIME, |ordered|))
      else
        var at := Min(cursor, |ordered| - 1);
        var reply := ReplayTo(ordered, at + 1, IdleOrDefault(idle));
        var cursorAt := LatestTime(ordered[..at + 1]);
        match reply.state
        case Err(message) => Err(message)
        case Ok(s) =>
          var shown := if s.stoppedAt.None? && cursorAt != ZERO_TIME then PauseAt(s, cursorAt, IdleOrDefault(idle)) else s;
          Ok(Snapshot(Some(shown), at, cursorAt, |ordered|))
  }

  ghost predicate KeysMatch(sessions: Sessions) {
    forall id :: id in sessions ==> sessions[id].sessionId == id
  }

  lemma ApplyToSameId(s: Session, e: Event, idle: int)
    ensures ApplyTo(s, e, idle).sessionId == s.sessionId
  {
  }

  /** The returned state is the one the engine now holds for the event's session. */
  lemma ApplyOneHolds(sessions: Sessions, e: Event, idle: int)
    requires KeysMatch(sessions)
    ensures var r := ApplyOne(sessions, e, idle);
            && KeysMatch(r.sessions)
            && (r.state.Ok? ==> e.sessionId in r.sessions && r.sessions[e.sessionId] == r.state.value && r.state.value.sessionId == e.sessionId)
  {
    hide ApplyTo, WorkOn;
    if e.sessionId in sessions {
      ApplyToSameId(sessions[e.sessionId], e, idle);
      if WorkOf(e).Some? && WorkOn(sessions[e.sessionId], WorkOf(e).value).Some? {
        WorkSameTimes(sessions[e.sessionId], WorkOf(e).value);
      }
    }
  }

  lemma {:induction false} ErrorsStick(events: seq<Event>, n: nat, m: nat, idle: int)
    requires 0 < n <= m <= |events| && ReplayTo(events, n, idle).state.Err?
    ensures ReplayTo(events, m, idle).state == ReplayTo(events, n, idle).state
  {
    if n < m {
      ErrorsStick(events, n, m - 1, idle);
    }
  }

  method ApplyEvent(engine: Engine, e: Event) returns (state: Result<Session>)
    modifies engine
    ensures Reply(engine.sessions, state) == ApplyOne(old(engine.sessions), e, engine.idleTimeout)
  {
    if e.eventType.DiffCalculated? {
      var work := WorkOf(e);
      if work.None? {
        return Err("diff result access_sequence is required");
      }
      state := engine.SetWorkResult(e.sessionId, work.value);
    } else {
      state := engine.Apply(e);
    }
  }

  /** The loop of Reconstruct over a fresh engine: it stops at the first error. */
  method ReplayThrough(engine: Engine, ordered: seq<Event>, count: nat) returns (state: Result<Session>, cursorAt: Time)
    requires 0 < count <= |ordered| && engine.sessions == map[]
    modifies engine
    ensures state == ReplayTo(ordered, count, engine.idleTimeout).state
    ensures state.Ok? ==> cursorAt == LatestTime(ordered[..count])
    ensures state.Ok? ==> state.value.sessionId in engine.sessions && engine.sessions[state.value.sessionId] == state.value
  {
    hide ApplyOne;
    state := Err("session start is missing from persisted events");
    cursorAt := ZERO_TIME;
    assert ordered[..0] == [];
    for index := 0 to count
      invariant Reply(engine.sessions, state) == ReplayTo(ordered, index, engine.idleTimeout)
      invariant KeysMatch(engine.sessions)
      invariant index > 0 ==> state.Ok? && state.value.sessionId in engine.sessions && engine.sessions[state.value.sessionId] == state.value
      invariant cursorAt == LatestTime(ordered[..index])
    {
      assert ordered[..index + 1][..index] == ordered[..index];
      if ordered[index].timestamp > cursorAt {
        cursorAt := ordered[index].timestamp;
      }
      ApplyOneHolds(engine.sessions, ordered[index], engine.idleTimeout);
      state := ApplyEvent(engine, ordered[index]);
      if state.Err? {
        ErrorsStick(ordered, index + 1, count, engine.idleTimeout);
        return;
      }
    }
  }

  method ReconstructEvents(events: seq<Event>, cursor: int, idle: int, valid: Event -> bool) returns (snapshot: Result<Snapshot>)
    ensures snapshot == Reconstruct(events, cursor, idle, valid)
  {
    hide Canonical, PauseAt, FirstOfEach, ReplayTo, LatestTime;
    for i := 0 to |events|
      invariant forall k :: 0 <= k < i ==> valid(events[k])
    {
      if !valid(events[i]) {
        return Err("invalid replay event");
      }
    }
    var ordered := CanonicalEvents(events);
    if |ordered| == 0 || cursor < 0 {
      return Ok(Snapshot(None, -1, ZERO_TIME, |ordered|));
    }
    var last := if cursor >= |ordered| then |ordered| - 1 else cursor;
    var engine := new Engine(idle);
    var state, cursorAt := ReplayThrough(engine, ordered, last + 1);
    if state.Err? {
      return Err(state.message);
    }
    var s := state.value;
    if s.stoppedAt.None? && cursorAt != ZERO_TIME {
      var paused := engine.Pause(s.sessionId, cursorAt);
      s := paused.value;
    }
    return Ok(Snapshot(Some(s), last, cursorAt, |ordered|));
  }

  // ----- what replay guarantees -----

  /** The snapshot at every cursor depends on the set of events alone. */
  lemma ReconstructIgnoresOrder(a: seq<Event>, b: seq<Event>, cursor: int, idle: int, valid: Event -> bool)
    requires Elements(a) == Elements(b) && Consistent(Elements(a))
    ensures Reconstruct(a, cursor, idle, valid) == Reconstruct(b, cursor, idle, valid)
  {
    CanonicalIgnoresOrder(a, b);
    assert forall e :: (e in a <==> e in Elements(a)) && (e in b <==> e in Elements(b));
  }

  /** Sessions the engine can hold during a replay. */
  ghost predicate Replayable(s: Session, idle: int) {
    WellFormed(s, idle) && Live(s) && (s.stoppedAt.Some? ==> !HasOpen(s))
  }

  lemma ReplayableStep(s: Session, op: Op, idle: int)
    requires Replayable(s, idle) && 0 < idle && LiveOp(op)
    ensures Replayable(Step(s, op, idle), idle)
  {
    hide Touched, WorkOn, CloseCurrent, WellFormed, Live;
    StepKeeps(s, op, idle);
    LiveStep(s, op, idle);
    match op
    case WorkOp(w) =>
      if WorkOn(s, w).Some? { WorkSameTimes(s, w); }
    case ApplyOp(e) =>
      assert SoundIntervals(s, idle) by { SoundOfWellFormed(s, idle); }
      CloseKeeps(s, e.timestamp, idle);
      CloseSameLength(s, e.timestamp, idle);
      if !e.eventType.SessionStarted? && e.timestamp >= s.currentTimestamp && !e.eventType.SessionStopped? && s.stoppedAt.None? {
        if !s.paused {
          TouchedTimes(s, e, idle);
        }
      }
  }

  lemma SoundOfWellFormed(s: Session, idle: int)
    requires WellFormed(s, idle)
    ensures SoundIntervals(s, idle)
  {
  }

  /** Later states only extend earlier ones: positions and starts stay, and all but the last interval stay closed as they are. */
  ghost predicate Extends(earlier: seq<Interval>, later: seq<Interval>) {
    && |earlier| <= |later|
    && (forall i :: 0 <= i < |earlier| ==> later[i].sequence == earlier[i].sequence && later[i].startedAt == earlier[i].startedAt)
    && (forall i :: 0 <= i < |earlier| - 1 ==> later[i].endedAt == earlier[i].endedAt && later[i].duration == earlier[i].duration)
  }

  lemma CloseExtends(s: Session, at: Time, idle: int)
    ensures Extends(s.intervals, CloseCurrent(s, at, idle).intervals)
  {
  }

  lemma OpenExtends(s: Session, e: Event)
    ensures Extends(s.intervals, Opened(s, e).intervals)
  {
  }

  lemma ExtendsTransitive(a: seq<Interval>, b: seq<Interval>, c: seq<Interval>)
    requires Extends(a, b) && Extends(b, c)
    ensures Extends(a, c)
  {
  }

  lemma StepExtends(s: Session, op: Op, idle: int)
    requires LiveOp(op)
    ensures Extends(s.intervals, Step(s, op, idle).intervals)
  {
    hide Renamed, CloseCurrent, Opened, WorkOn, Extends;
    ExtendsItself(s.intervals);
    match op
    case WorkOp(w) =>
      if WorkOn(s, w).Some? {
        WorkSameTimes(s, w);
        SameTimesExtend(s.intervals, WorkOn(s, w).value.intervals);
      }
    case ApplyOp(e) =>
      CloseExtends(s, e.timestamp, idle);
      TouchedExtends(s, e, idle);
  }

  lemma ExtendsItself(a: seq<Interval>)
    ensures Extends(a, a)
  {
  }

  lemma SameTimesExtend(a: seq<Interval>, b: seq<Interval>)
    requires |a| == |b|
    requires forall i :: 0 <= i < |a| ==>
               b[i].startedAt == a[i].startedAt && b[i].endedAt == a[i].endedAt && b[i].duration == a[i].duration && b[i].sequence == a[i].sequence
    ensures Extends(a, b)
  {
  }

  lemma TouchedExtends(s: Session, e: Event, idle: int)
    ensures Extends(s.intervals, Touched(s, e, idle).intervals)
  {
    hide Renamed, CloseCurrent, Opened, Extends, FocusPriority;
    RenamedSameTimes(s, e);
    var t := Renamed(s, e);
    SameTimesExtend(s.intervals, t.intervals);
    var priority := FocusPriority(e);
    if priority.Some? && e.path != "" && !(e.timestamp == t.currentTimestamp && priority.value < t.currentPriority) {
      if t.activePath == e.path {
        var f := Focused(t, e, priority.value);
        if HasOpen(t) {
          SameTimesExtend(f.intervals, SetLast(f, Continued(Last(f), e)).intervals);
          ExtendsTransitive(s.intervals, t.intervals, SetLast(f, Continued(Last(f), e)).intervals);
        } else {
          OpenExtends(f, e);
          ExtendsTransitive(s.intervals, t.intervals, Opened(f, e).intervals);
        }
      } else {
        CloseExtends(t, e.timestamp, idle);
        var closed := CloseCurrent(t, e.timestamp, idle);
        ExtendsTransitive(s.intervals, t.intervals, closed.intervals);
        var moved := Focused(closed.(previousPath := closed.activePath, previousNodeId := closed.activeNodeId,
                                     activePath := e.path, activeNodeId := e.nodeId), e, priority.value);
        OpenExtends(moved, e);
        ExtendsTransitive(s.intervals, closed.intervals, Opened(moved, e).intervals);
      }
    }
  }

  function OpOf(e: Event): Op {
    if e.eventType.DiffCalculated? && WorkOf(e).Some? then WorkOp(WorkOf(e).value) else ApplyOp(e)
  }

  /** With a session known, applying an event is one engine step on it. */
  lemma ApplyOneIsStep(sessions: Sessions, e: Event, idle: int)
    requires ApplyOne(sessions, e, idle).state.Ok? && e.sessionId in sessions
    ensures ApplyOne(sessions, e, idle).state.value == Step(sessions[e.sessionId], OpOf(e), idle)
  {
    hide ApplyTo, WorkOn;
  }

  /** A session's first accepted event is its start. */
  lemma ApplyOneStarts(sessions: Sessions, e: Event, idle: int)
    requires ApplyOne(sessions, e, idle).state.Ok? && e.sessionId !in sessions
    ensures e.eventType.SessionStarted? && ApplyOne(sessions, e, idle).state.value == NewSession(e)
  {
  }

  lemma NewIsReplayable(e: Event, idle: int)
    ensures Replayable(NewSession(e), idle)
  {
  }

  /** A session as the engine holds it after events up to the time. */
  ghost predicate SoundBy(s: Session, idle: int, latest: Time) {
    Replayable(s, idle) && s.currentTimestamp <= latest
  }

  ghost predicate AllSoundBy(sessions: Sessions, idle: int, latest: Time) {
    KeysMatch(sessions) && forall id :: id in sessions ==> SoundBy(sessions[id], idle, latest)
  }

  lemma StepSoundBy(s: Session, e: Event, idle: int, latest: Time)
    requires SoundBy(s, idle, latest) && 0 < idle
    ensures SoundBy(Step(s, OpOf(e), idle), idle, Max(latest, e.timestamp))
  {
    hide Replayable, Step, OpOf;
    OpOfIsLive(e);
    ReplayableStep(s, OpOf(e), idle);
    StepTimestamp(s, e, idle);
  }

  /** Applying an event leaves the other sessions alone. */
  lemma ApplyOneElsewhere(sessions: Sessions, e: Event, idle: int, id: string)
    requires id != e.sessionId
    ensures id in ApplyOne(sessions, e, idle).sessions <==> id in sessions
    ensures id in sessions ==> ApplyOne(sessions, e, idle).sessions[id] == sessions[id]
  {
    hide ApplyTo, WorkOn;
  }

  lemma ApplyOneSoundBy(sessions: Sessions, e: Event, idle: int, latest: Time)
    requires AllSoundBy(sessions, idle, latest) && 0 < idle && ApplyOne(sessions, e, idle).state.Ok?
    ensures AllSoundBy(ApplyOne(sessions, e, idle).sessions, idle, Max(latest, e.timestamp))
  {
    hide ApplyOne, Step, OpOf, Replayable;
    var r := ApplyOne(sessions, e, idle);
    ApplyOneHolds(sessions, e, idle);
    forall id | id in r.sessions ensures SoundBy(r.sessions[id], idle, Max(latest, e.timestamp)) {
      if id != e.sessionId {
        ApplyOneElsewhere(sessions, e, idle, id);
      } else if id in sessions {
        ApplyOneIsStep(sessions, e, idle);
        StepSoundBy(sessions[id], e, idle, latest);
      } else {
        ApplyOneStarts(sessions, e, idle);
        NewIsReplayable(e, idle);
      }
    }
  }

  /** Every session held after the first n events is sound, and the state returned last is held. */
  lemma {:induction false} ReplayedSessions(events: seq<Event>, n: nat, idle: int)
    requires 0 < n <= |events| && 0 < idle && ReplayTo(events, n, idle).state.Ok?
    ensures var r := ReplayTo(events, n, idle);
            && AllSoundBy(r.sessions, idle, LatestTime(events[..n]))
            && r.state.value.sessionId == events[n - 1].sessionId
            && r.state.value.sessionId in r.sessions && r.sessions[r.state.value.sessionId] == r.state.value
  {
    hide ApplyOne, SoundBy;
    assert events[..n][..n - 1] == events[..n - 1];
    var before := ReplayTo(events, n - 1, idle);
    if n > 1 {
      ReplayedSessions(events, n - 1, idle);
    }
    ApplyOneSoundBy(before.sessions, events[n - 1], idle, LatestTime(events[..n - 1]));
    ApplyOneHolds(before.sessions, events[n - 1], idle);
  }

  lemma OpOfIsLive(e: Event)
    ensures LiveOp(OpOf(e))
  {
  }

  /** A session the engine holds it goes on holding, and its intervals are only extended, whichever sessions the later events are of. */
  lemma {:induction false} HeldExtends(events: seq<Event>, n: nat, m: nat, idle: int, id: string)
    requires 0 < n <= m <= |events| && 0 < idle
    requires ReplayTo(events, m, idle).state.Ok?
    ensures ReplayTo(events, n, idle).state.Ok?
    ensures id in ReplayTo(events, n, idle).sessions ==>
              id in ReplayTo(events, m, idle).sessions
              && Extends(ReplayTo(events, n, idle).sessions[id].intervals, ReplayTo(events, m, idle).sessions[id].intervals)
  {
    hide ApplyOne, Extends;
    if n == m {
      if id in ReplayTo(events, n, idle).sessions {
        ExtendsItself(ReplayTo(events, n, idle).sessions[id].intervals);
      }
    } else {
      HeldExtends(events, n, m - 1, idle, id);
      var before := ReplayTo(events, m - 1, idle);
      ReplayedSessions(events, m - 1, idle);
      if id in ReplayTo(events, n, idle).sessions {
        ApplyOneExtends(before.sessions, events[m - 1], idle, id);
        ExtendsTransitive(ReplayTo(events, n, idle).sessions[id].intervals, before.sessions[id].intervals,
                          ReplayTo(events, m, idle).sessions[id].intervals);
      }
    }
  }

  lemma ApplyOneExtends(sessions: Sessions, e: Event, idle: int, id: string)
    requires KeysMatch(sessions) && id in sessions && ApplyOne(sessions, e, idle).state.Ok?
    ensures id in ApplyOne(sessions, e, idle).sessions
    ensures Extends(sessions[id].intervals, ApplyOne(sessions, e, idle).sessions[id].intervals)
  {
    hide ApplyOne, Extends, Step, OpOf, KeysMatch;
    if id != e.sessionId {
      ApplyOneElsewhere(sessions, e, idle, id);
      ExtendsItself(sessions[id].intervals);
    } else {
      ApplyOneHolds(sessions, e, idle);
      ApplyOneIsStep(sessions, e, idle);
      OpOfIsLive(e);
      StepExtends(sessions[id], OpOf(e), idle);
    }
  }

  lemma {:induction false} LatestAfterZero(events: seq<Event>, n: nat)
    requires n <= |events|
    ensures ZERO_TIME <= LatestTime(events[..n])
    ensures LatestTime(events[..n]) != ZERO_TIME <==> exists k :: 0 <= k < n && ZERO_TIME < events[k].timestamp
  {
    if n > 0 {
      LatestAfterZero(events, n - 1);
      assert events[..n][..n - 1] == events[..n - 1];
    }
  }

  lemma CanonicalAfterZero(events: seq<Event>, valid: Event -> bool)
    requires (forall e :: valid(e) ==> ZERO_TIME < e.timestamp) && forall e :: e in events ==> valid(e)
    ensures forall k :: 0 <= k < |Canonical(events)| ==> ZERO_TIME < Canonical(events)[k].timestamp
  {
    CanonicalIsTheSortedForm(events);
    FirstOfEachFacts(events);
    var c := Canonical(events);
    forall k | 0 <= k < |c| ensures ZERO_TIME < c[k].timestamp {
      assert c[k] in Elements(c);
    }
  }

  ghost predicate AllClosed(intervals: seq<Interval>) {
    forall i :: 0 <= i < |intervals| ==> intervals[i].endedAt.Some?
  }

  /** What is shown of a sound session at the time of its latest event, or later. */
  lemma ShownIsSound(s: Session, at: Time, idle: int)
    requires SoundBy(s, idle, at) && 0 < idle
    ensures var shown := Shown(s, at, idle);
            && (AllClosed(shown.intervals) <==> at != ZERO_TIME || !HasOpen(s))
            && SoundIntervals(shown, idle) && Disjoint(shown.intervals)
  {
    hide Disjoint;
    CloseKeeps(s, at, idle);
    if s.intervals != [] {
      CloseEndsBy(s, at, idle);
    }
    var shown := Shown(s, at, idle);
    if HasOpen(s) && at == ZERO_TIME {
      assert shown.intervals[|s.intervals| - 1].endedAt.None?;
    }
  }

  /** The session that the events up to the cursor leave, before it is paused for showing. */
  function ReplayedAt(events: seq<Event>, cursor: nat, idle: int): Result<Session>
    requires Canonical(events) != []
  {
    ReplayTo(Canonical(events), Min(cursor, |Canonical(events)| - 1) + 1, IdleOrDefault(idle)).state
  }

  /**
   Whatever sessions the events are of, the intervals of the session shown are sound and apart, and
   all closed exactly when some applied event is later than the zero time or none was open.
   */
  lemma SnapshotIsClosedIff(events: seq<Event>, cursor: int, idle: int, valid: Event -> bool)
    requires var r := Reconstruct(events, cursor, idle, valid); r.Ok? && r.value.state.Some?
    ensures 0 <= cursor && Canonical(events) != [] && ReplayedAt(events, cursor, idle).Ok?
    ensures var n := Min(cursor, |Canonical(events)| - 1) + 1;
            var intervals := Reconstruct(events, cursor, idle, valid).value.state.value.intervals;
            AllClosed(intervals) <==>
            (exists k :: 0 <= k < n && ZERO_TIME < Canonical(events)[k].timestamp) || !HasOpen(ReplayedAt(events, cursor, idle).value)
    ensures var s := Reconstruct(events, cursor, idle, valid).value.state.value;
            SoundIntervals(s, IdleOrDefault(idle)) && Disjoint(s.intervals)
  {
    hide Canonical, LatestTime, ReplayTo, SoundBy, SoundIntervals, Disjoint, PauseAt, AllClosed, HasOpen;
    var ordered := Canonical(events);
    var n, idleTime := Min(cursor, |ordered| - 1) + 1, IdleOrDefault(idle);
    ReplayedSessions(ordered, n, idleTime);
    LatestAfterZero(ordered, n);
    ShownIsSound(ReplayTo(ordered, n, idleTime).state.value, LatestTime(ordered[..n]), idleTime);
  }

  /** With every event later than the zero time, all intervals shown are closed. */
  lemma SnapshotIsClosed(events: seq<Event>, cursor: int, idle: int, valid: Event -> bool)
    requires forall e :: valid(e) ==> ZERO_TIME < e.timestamp
    requires var r := Reconstruct(events, cursor, idle, valid); r.Ok? && r.value.state.Some?
    ensures var s := Reconstruct(events, cursor, idle, valid).value.state.value;
            AllClosed(s.intervals) && SoundIntervals(s, IdleOrDefault(idle)) && Disjoint(s.intervals)
  {
    hide Canonical, LatestTime, ReplayTo, ReplayedAt, SoundIntervals, Disjoint, PauseAt, AllClosed, HasOpen;
    SnapshotIsClosedIff(events, cursor, idle, valid);
    CanonicalAfterZero(events, valid);
    assert ZERO_TIME < Canonical(events)[0].timestamp;
  }

  /** A diff event's counts go onto the first interval with its number, each into the field of its name. */
  lemma DiffIsRecorded(sessions: Sessions, e: Event, idle: int, k: nat)
    requires e.eventType == DiffCalculated && e.sessionId in sessions
    requires e.accessSequence.Some? && 1 <= e.accessSequence.value
    requires var intervals := sessions[e.sessionId].intervals;
             && k < |intervals| && intervals[k].sequence == e.accessSequence.value
             && forall j :: 0 <= j < k ==> intervals[j].sequence != e.accessSequence.value
    ensures ApplyOne(sessions, e, idle).state.Ok?
    ensures var was, now := sessions[e.sessionId], ApplyOne(sessions, e, idle).state.value;
            && |now.intervals| == |was.intervals| && now.(intervals := was.intervals) == was
            && now.intervals[k].linesAdded == e.linesAdded && now.intervals[k].linesDeleted == e.linesDeleted
            && now.intervals[k].workStatus == (if e.status == "" then "unknown" else e.status)
            && now.intervals[k].workSource == (if e.operation == "" then "unknown" else e.operation)
            && now.intervals[k].workConfidence == Some(e.confidence)
            && (forall j :: 0 <= j < |was.intervals| && j != k ==> now.intervals[j] == was.intervals[j])
  {
    assert FindSequence(sessions[e.sessionId].intervals, e.accessSequence.value, 0) == k;
  }

  lemma {:induction false} LatestIsGreatest(events: seq<Event>)
    ensures ZERO_TIME <= LatestTime(events)
    ensures forall k :: 0 <= k < |events| ==> events[k].timestamp <= LatestTime(events)
    ensures LatestTime(events) == ZERO_TIME || exists k :: 0 <= k < |events| && events[k].timestamp == LatestTime(events)
  {
    if events != [] {
      var front, last := events[..|events| - 1], |events| - 1;
      LatestIsGreatest(front);
      assert forall k :: 0 <= k < last ==> events[k] == front[k];
      assert events[last].timestamp <= LatestTime(events);
      if LatestTime(front) != ZERO_TIME {
        var k :| 0 <= k < |front| && front[k].timestamp == LatestTime(front);
        assert events[k].timestamp == LatestTime(front);
      }
    }
  }

  /** What a successful snapshot tells of its place: the cursor cut to the events there are, their number, and the latest time applied. */
  lemma SnapshotTellsItsPlace(events: seq<Event>, cursor: int, idle: int, valid: Event -> bool)
    requires Reconstruct(events, cursor, idle, valid).Ok?
    ensures var r, ordered := Reconstruct(events, cursor, idle, valid).value, Canonical(events);
            && r.eventCount == |ordered|
            && (if ordered == [] || cursor < 0 then r.state == None && r.cursor == -1 && r.cursorAt == ZERO_TIME
                else
                  && r.state.Some? && r.cursor == (if cursor < |ordered| then cursor else |ordered| - 1)
                  && (forall k :: 0 <= k <= r.cursor ==> ordered[k].timestamp <= r.cursorAt)
                  && (r.cursorAt == ZERO_TIME || exists k :: 0 <= k <= r.cursor && ordered[k].timestamp == r.cursorAt)
                  && (r.state.value.stoppedAt.None? && r.cursorAt != ZERO_TIME ==> r.state.value.paused))
  {
    hide Canonical, ReplayTo, LatestTime, CloseCurrent;
    var ordered := Canonical(events);
    if ordered != [] && 0 <= cursor {
      var n := Min(cursor, |ordered| - 1) + 1;
      LatestIsGreatest(ordered[..n]);
      assert forall k :: 0 <= k < n ==> ordered[..n][k] == ordered[k];
      CloseSameLength(ReplayTo(ordered, n, IdleOrDefault(idle)).state.value, LatestTime(ordered[..n]), IdleOrDefault(idle));
    }
  }

  /** A session dated before the zero time: it starts, and a file is read. */
  const EARLY_START: Event := SampleEvent(SessionStarted, "", -5).(eventId := "a")
  const EARLY_READ: Event := SampleEvent(FileRead, "p", -4).(eventId := "b")

  /** Replayed up to the read, its interval is shown open, though only the zero time itself is refused. */
  lemma EarlyEventsStayOpen(idle: int, valid: Event -> bool)
    requires valid(EARLY_START) && valid(EARLY_READ)
    ensures var r := Reconstruct([EARLY_START, EARLY_READ], 1, idle, valid);
            r.Ok? && r.value.state.Some? && r.value.cursorAt == ZERO_TIME && !AllClosed(r.value.state.value.intervals)
  {
    hide Canonical, ReplayTo, LatestTime, ApplyTo, PauseAt, SoundIntervals, Disjoint;
    var events := [EARLY_START, EARLY_READ];
    EarlyIsCanonical();
    EarlyReplay(IdleOrDefault(idle));
    LatestAfterZero(events, 2);
    assert events[..2] == events;
    assert forall e :: e in events ==> valid(e);
    SnapshotIsClosedIff(events, 1, idle, valid);
  }

  lemma EarlyIsCanonical()
    ensures Canonical([EARLY_START, EARLY_READ]) == [EARLY_START, EARLY_READ]
  {
    assert EARLY_START.eventId != EARLY_READ.eventId;
    StoreOrderIsCanonical([EARLY_START, EARLY_READ]);
  }

  lemma EarlyReplay(idle: int)
    ensures var r := ReplayTo([EARLY_START, EARLY_READ], 2, idle).state;
            r.Ok? && r.value.stoppedAt.None? && |r.value.intervals| == 1 && r.value.intervals[0].endedAt.None?
  {
    var events := [EARLY_START, EARLY_READ];
    assert ReplayTo(events, 1, idle) == Reply(map["s" := NewSession(EARLY_START)], Ok(NewSession(EARLY_START)));
    assert ApplyTo(NewSession(EARLY_START), EARLY_READ, idle) == Switched(NewSession(EARLY_START), EARLY_READ, 33, idle);
  }

  lemma TouchedTimestamp(s: Session, e: Event, idle: int)
    ensures Touched(s, e, idle).currentTimestamp == s.currentTimestamp || Touched(s, e, idle).currentTimestamp == e.timestamp
  {
    hide Renamed, CloseCurrent, FocusPriority, Continued;
    RenamedSameTimes(s, e);
  }

  lemma StepTimestamp(s: Session, e: Event, idle: int)
    ensures Step(s, OpOf(e), idle).currentTimestamp <= Max(s.currentTimestamp, e.timestamp)
  {
    hide WorkOn, Touched, CloseCurrent;
    CloseSameLength(s, e.timestamp, idle);
    TouchedTimestamp(s, e, idle);
    if OpOf(e).WorkOp? && WorkOn(s, OpOf(e).work).Some? {
      WorkSameTimes(s, OpOf(e).work);
    }
  }

  /** The position among the canonical events that a cursor stands for. */
  function CursorPlace(events: seq<Event>, cursor: nat): nat
    requires Canonical(events) != []
  {
    Min(cursor, |Canonical(events)| - 1)
  }

  /** A successful snapshot shows the session of the event at the cursor. */
  lemma ShowsEventsSession(events: seq<Event>, cursor: nat, idle: int, valid: Event -> bool)
    requires Canonical(events) != []
    requires Reconstruct(events, cursor, idle, valid).Ok?
    ensures Reconstruct(events, cursor, idle, valid).value.state.Some?
    ensures Reconstruct(events, cursor, idle, valid).value.state.value.sessionId == Canonical(events)[CursorPlace(events, cursor)].sessionId
  {
    hide Canonical, LatestTime, ReplayTo, SoundBy, CloseCurrent;
    var ordered := Canonical(events);
    var n, idleTime := CursorPlace(events, cursor) + 1, IdleOrDefault(idle);
    ReplayedSessions(ordered, n, idleTime);
    CloseSameLength(ReplayTo(ordered, n, idleTime).state.value, LatestTime(ordered[..n]), idleTime);
  }

  /**
   Where the later of two cursors has a snapshot so has the earlier; and if the events at the two
   are of one session, the later keeps what the earlier showed, up to the interval last there.
   */
  lemma CursorsExtend(events: seq<Event>, c: nat, d: nat, idle: int, valid: Event -> bool)
    requires c <= d && Canonical(events) != [] && Reconstruct(events, d, idle, valid).Ok?
    ensures Reconstruct(events, c, idle, valid).Ok?
    ensures Reconstruct(events, c, idle, valid).value.state.Some? && Reconstruct(events, d, idle, valid).value.state.Some?
    ensures Canonical(events)[CursorPlace(events, c)].sessionId == Canonical(events)[CursorPlace(events, d)].sessionId ==>
              Extends(Reconstruct(events, c, idle, valid).value.state.value.intervals,
                      Reconstruct(events, d, idle, valid).value.state.value.intervals)
  {
    hide Canonical, LatestTime, ReplayTo, PauseAt, Extends, AllSoundBy;
    var ordered := Canonical(events);
    var n, m := CursorPlace(events, c) + 1, CursorPlace(events, d) + 1;
    var idleTime := IdleOrDefault(idle);
    HeldExtends(ordered, n, m, idleTime, ordered[n - 1].sessionId);
    ReplayedSessions(ordered, n, idleTime);
    ReplayedSessions(ordered, m, idleTime);
    if ordered[n - 1].sessionId == ordered[m - 1].sessionId {
      ExtendsPaused(ReplayTo(ordered, n, idleTime).state.value, ReplayTo(ordered, m, idleTime).state.value,
                    LatestTime(ordered[..n]), LatestTime(ordered[..m]), idleTime);
    }
  }

  function Shown(s: Session, cursorAt: Time, idle: int): Session {
    if s.stoppedAt.None? && cursorAt != ZERO_TIME then PauseAt(s, cursorAt, idle) else s
  }

  lemma PauseShows(s: Session, at: Time, idle: int)
    ensures |Shown(s, at, idle).intervals| == |s.intervals|
    ensures forall i :: 0 <= i < |s.intervals| ==>
              Shown(s, at, idle).intervals[i].startedAt == s.intervals[i].startedAt && Shown(s, at, idle).intervals[i].sequence == s.intervals[i].sequence
    ensures forall i :: 0 <= i < |s.intervals| - 1 ==> Shown(s, at, idle).intervals[i] == s.intervals[i]
  {
  }

  lemma ExtendsPaused(a: Session, b: Session, at: Time, bt: Time, idle: int)
    requires Extends(a.intervals, b.intervals)
    ensures Extends(Shown(a, at, idle).intervals, Shown(b, bt, idle).intervals)
  {
    hide Shown;
    PauseShows(a, at, idle);
    PauseShows(b, bt, idle);
  }

  // ----- replay is the live run -----

  function OpsOf(events: seq<Event>): seq<Op> {
    seq(|events|, i requires 0 <= i < |events| => OpOf(events[i]))
  }

  /** Replaying the events of one session is running the engine on them: its start, and then each as it comes. */
  lemma {:induction false} ReplayIsTheRun(events: seq<Event>, n: nat, idle: int)
    requires 0 < n <= |events| && 0 < idle && ReplayTo(events, n, idle).state.Ok?
    requires forall k :: 0 <= k < n ==> events[k].sessionId == events[0].sessionId
    ensures events[0].eventType == SessionStarted
    ensures ReplayTo(events, n, idle).state.value == Runs(events[0], OpsOf(events[1..n]), idle)
  {
    hide ApplyOne, Step, OpOf, AllSoundBy;
    var before, e := ReplayTo(events, n - 1, idle), events[n - 1];
    if n == 1 {
      ApplyOneStarts(before.sessions, e, idle);
      assert OpsOf(events[1..1]) == [];
    } else {
      ReplayIsTheRun(events, n - 1, idle);
      ReplayedSessions(events, n - 1, idle);
      ApplyOneIsStep(before.sessions, e, idle);
      assert OpsOf(events[1..n]) == OpsOf(events[1..n - 1]) + [OpOf(e)];
      RunsSnoc(events[0], OpsOf(events[1..n - 1]), OpOf(e), idle);
    }
  }

  /** What an event is to the engine: a diff result that names its interval is a work result, all else is applied. */
  lemma OpOfMeans(e: Event)
    ensures if e.eventType == DiffCalculated && e.accessSequence.Some? && 1 <= e.accessSequence.value
            then OpOf(e).WorkOp? && OpOf(e).work.sequence == e.accessSequence.value
                 && OpOf(e).work.added == e.linesAdded && OpOf(e).work.deleted == e.linesDeleted
            else OpOf(e) == ApplyOp(e)
  {
  }

  /** No snapshot is made of events of which one is not valid, nor of events that do not begin with a start. */
  lemma BadEventsAreRefused(events: seq<Event>, cursor: nat, idle: int, valid: Event -> bool)
    ensures (exists e :: e in events && !valid(e)) ==> Reconstruct(events, cursor, idle, valid).Err?
    ensures Canonical(events) != [] && Canonical(events)[0].eventType != SessionStarted ==> Reconstruct(events, cursor, idle, valid).Err?
  {
    hide Canonical, LatestTime, ApplyOne, PauseAt;
    var ordered := Canonical(events);
    if ordered != [] && ordered[0].eventType != SessionStarted {
      FirstMustStart(ordered, IdleOrDefault(idle));
      ErrorsStick(ordered, 1, Min(cursor, |ordered| - 1) + 1, IdleOrDefault(idle));
    }
  }

  lemma FirstMustStart(events: seq<Event>, idle: int)
    requires events != [] && events[0].eventType != SessionStarted
    ensures ReplayTo(events, 1, idle).state.Err?
  {
    assert ReplayTo(events, 0, idle).sessions == map[];
  }
}
