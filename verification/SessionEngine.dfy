/**
 Live focus and access intervals: internal/session/engine.go, and the crash recovery of
 internal/store/store.go that closes what the engine left open.
 */
module SessionEngine {
  import opened Common
  import opened Protocol

  datatype Interval = Interval(
    sequence: int,
    nodeId: string,
    path: string,
    startedAt: Time,
    endedAt: Option<Time>,
    duration: int,
    operations: seq<string>,
    source: Source,
    confidence: Confidence,
    agentId: string,
    linesAdded: Option<int>,
    linesDeleted: Option<int>,
    workStatus: string,
    workSource: string,
    workConfidence: Option<Confidence>)

  datatype Session = Session(
    sessionId: string,
    startedAt: Time,
    stoppedAt: Option<Time>,
    paused: bool,
    activePath: string,
    activeNodeId: string,
    previousPath: string,
    previousNodeId: string,
    secondaryPaths: seq<string>,
    activeOperation: string,
    activeSource: Option<Source>,
    activeConfidence: Option<Confidence>,
    activeTimestamp: Time,
    intervals: seq<Interval>,
    currentPriority: int,
    currentTimestamp: Time)

  const DEFAULT_IDLE_TIMEOUT: int := 120_000_000_000

  function NewSession(e: Event): Session {
    Session(e.sessionId, e.timestamp, None, false, "", "", "", "", [], "", None, None, ZERO_TIME, [], 0, e.timestamp)
  }

  // ----- intervals -----

  function Last(s: Session): Interval
    requires s.intervals != []
  {
    s.intervals[|s.intervals| - 1]
  }

  function SetLast(s: Session, interval: Interval): Session
    requires s.intervals != []
  {
    s.(intervals := s.intervals[|s.intervals| - 1 := interval])
  }

  predicate HasOpen(s: Session) {
    s.intervals != [] && Last(s).endedAt.None?
  }

  function Clamp(at: Time, start: Time, idle: int): Time {
    var capped := Min(at, start + idle);
    Max(capped, start)
  }

  function Closed(i: Interval, at: Time, idle: int): Interval {
    var end := Clamp(at, i.startedAt, idle);
    i.(endedAt := Some(end), duration := end - i.startedAt)
  }

  function CloseCurrent(s: Session, at: Time, idle: int): Session {
    if HasOpen(s) then SetLast(s, Closed(Last(s), at, idle)) else s
  }

  function AppendUnique(values: seq<string>, value: string): seq<string> {
    if value == "" || value in values then values else values + [value]
  }

  // ----- secondary paths -----

  /** The strings of a list; of one that may hold anything, those that are not empty. */
  function PathValues(values: seq<Option<string>>): seq<string> {
    if values == [] then []
    else
      var rest, last := PathValues(values[..|values| - 1]), values[|values| - 1];
      if last.Some? && last.value != "" then rest + [last.value] else rest
  }

  function RawPaths(list: PathList): seq<string> {
    match list
    case Strings(paths) => paths
    case Mixed(values) => PathValues(values)
    case _ => []
  }

  /** compactPaths: the first of each, and no empty one. */
  function Compacted(paths: seq<string>): seq<string> {
    if paths == [] then [] else AppendUnique(Compacted(paths[..|paths| - 1]), paths[|paths| - 1])
  }

  function SecondaryPaths(list: PathList): seq<string> {
    Sort(StringLess, Compacted(RawPaths(list)))
  }

  lemma {:induction false} CompactedLaw(paths: seq<string>)
    ensures Distinct(Compacted(paths))
    ensures forall p :: p in Compacted(paths) <==> p in paths && p != ""
  {
    if paths != [] {
      var front, last := paths[..|paths| - 1], paths[|paths| - 1];
      CompactedLaw(front);
      assert paths == front + [last];
      var rest := Compacted(front);
      assert forall i :: 0 <= i < |rest| ==> rest[i] in rest;
    }
  }

  predicate IsListed(list: PathList, p: string) {
    (list.Strings? && p in list.paths) || (list.Mixed? && Some(p) in list.values)
  }

  /** The secondary paths shown are the listed ones that are not empty, each once, in order. */
  lemma SecondaryPathsLaw(list: PathList)
    ensures SortedBy(StringLess, SecondaryPaths(list)) && Distinct(SecondaryPaths(list))
    ensures forall p :: p in SecondaryPaths(list) <==> p != "" && IsListed(list, p)
  {
    hide StringLess, Sort, Compacted;
    var paths := Compacted(RawPaths(list));
    CompactedLaw(RawPaths(list));
    if list.Mixed? {
      PathValuesLaw(list.values);
    }
    StringLessOrders(Elements(paths));
    SortSorted(StringLess, paths);
    SortElements(StringLess, paths);
    SortMultiset(StringLess, paths);
    DistinctByMultiset(paths, Sort(StringLess, paths));
    assert forall p :: p in Sort(StringLess, paths) <==> p in Elements(Sort(StringLess, paths));
    assert forall p :: p in paths <==> p in Elements(paths);
  }

  lemma {:induction false} PathValuesLaw(values: seq<Option<string>>)
    ensures forall p :: p in PathValues(values) <==> Some(p) in values && p != ""
  {
    if values != [] {
      PathValuesLaw(values[..|values| - 1]);
      assert values == values[..|values| - 1] + [values[|values| - 1]];
    }
  }

  method CompactPaths(paths: seq<string>) returns (out: seq<string>)
    ensures out == Compacted(paths)
  {
    out := [];
    var seen: set<string> := {};
    for i := 0 to |paths|
      invariant out == Compacted(paths[..i]) && seen == Elements(out)
    {
      assert paths[..i + 1][..i] == paths[..i];
      if paths[i] != "" && paths[i] !in seen {
        seen := seen + {paths[i]};
        out := out + [paths[i]];
      }
    }
    assert paths[..|paths|] == paths;
  }

  method ReadSecondaryPaths(list: PathList) returns (out: seq<string>)
    ensures out == SecondaryPaths(list)
  {
    if list.NoPaths? {
      SortNothing();
      return [];
    }
    out := [];
    match list {
      case Strings(paths) => out := paths;
      case Mixed(values) =>
        for i := 0 to |values|
          invariant out == PathValues(values[..i])
        {
          assert values[..i + 1][..i] == values[..i];
          if values[i].Some? && values[i].value != "" {
            out := out + [values[i].value];
          }
        }
        assert values[..|values|] == values;
      case _ =>
    }
    out := CompactPaths(out);
    out := Sort(StringLess, out);
  }

  lemma SortNothing()
    ensures Sort(StringLess, Compacted([])) == []
  {
  }

  // ----- focus -----

  function ConfidenceRank(c: Confidence): int {
    match c
    case Inferred => 0
    case Observed => 10
    case Correlated => 20
    case Exact => 30
  }

  /** focusPriority: None for events that never move the focus. */
  function FocusPriority(e: Event): Option<int> {
    match e.eventType
    case FileCreated => Some(ConfidenceRank(e.confidence) + 9)
    case FilePatched => Some(ConfidenceRank(e.confidence) + 8)
    case FileModified => Some(ConfidenceRank(e.confidence) + 8)
    case FileRenamed => Some(ConfidenceRank(e.confidence) + 7)
    case FileMoved => Some(ConfidenceRank(e.confidence) + 7)
    case FileDeleted => Some(ConfidenceRank(e.confidence) + 6)
    case FileFocused => Some(ConfidenceRank(e.confidence) + 5)
    case FileRead => Some(ConfidenceRank(e.confidence) + 3)
    case _ => None
  }

  function FocusedWith(s: Session, e: Event, priority: int, paths: seq<string>): Session {
    s.(currentPriority := priority, currentTimestamp := e.timestamp, activeOperation := e.operation,
       activeSource := Some(e.source), activeConfidence := Some(e.confidence), activeTimestamp := e.timestamp,
       secondaryPaths := paths)
  }

  function Focused(s: Session, e: Event, priority: int): Session {
    FocusedWith(s, e, priority, SecondaryPaths(e.secondaryPaths))
  }

  function NewInterval(s: Session, e: Event): Interval {
    Interval(|s.intervals| + 1, e.nodeId, e.path, e.timestamp, None, 0, AppendUnique([], e.operation),
             e.source, e.confidence, e.agentId, e.linesAdded, e.linesDeleted, "", "", None)
  }

  function Opened(s: Session, e: Event): Session {
    s.(intervals := s.intervals + [NewInterval(s, e)])
  }

  function Continued(i: Interval, e: Event): Interval {
    i.(operations := AppendUnique(i.operations, e.operation),
       linesAdded := if e.linesAdded.Some? then e.linesAdded else i.linesAdded,
       linesDeleted := if e.linesDeleted.Some? then e.linesDeleted else i.linesDeleted)
  }

  /** A rename of the active path carries the focus along without a new interval. */
  function Renamed(s: Session, e: Event): Session {
    if (e.eventType.FileRenamed? || e.eventType.FileMoved?) && s.activePath == e.previousPath && e.path != "" then
      var t := s.(activePath := e.path);
      if t.intervals == [] then t else SetLast(t, Last(t).(path := e.path))
    else s
  }

  /** Moves the focus to a different path. */
  function Switched(s: Session, e: Event, priority: int, idle: int): Session {
    var closed := CloseCurrent(s, e.timestamp, idle);
    var moved := closed.(previousPath := closed.activePath, previousNodeId := closed.activeNodeId,
                         activePath := e.path, activeNodeId := e.nodeId);
    Opened(Focused(moved, e, priority), e)
  }

  /** A claim that is not beaten takes the focus to its path. */
  function Claimed(s: Session, e: Event, priority: int, idle: int): Session {
    if s.activePath == e.path then
      var f := Focused(s, e, priority);
      if HasOpen(s) then SetLast(f, Continued(Last(f), e)) else Opened(f, e)
    else Switched(s, e, priority, idle)
  }

  function Touched(s: Session, e: Event, idle: int): Session {
    var t := Renamed(s, e);
    var priority := FocusPriority(e);
    if priority.None? || e.path == "" then t
    else if e.timestamp == t.currentTimestamp && priority.value < t.currentPriority then t
    else Claimed(t, e, priority.value, idle)
  }

  /** Apply for a known session and any event but session_started. */
  function ApplyTo(s: Session, e: Event, idle: int): Session {
    if e.timestamp < s.currentTimestamp then s
    else if e.eventType.SessionStopped? then CloseCurrent(s, e.timestamp, idle).(stoppedAt := Some(e.timestamp))
    else if s.stoppedAt.Some? || s.paused then s
    else Touched(s, e, idle)
  }

  function PauseAt(s: Session, at: Time, idle: int): Session {
    CloseCurrent(s, at, idle).(paused := true)
  }

  function ResumeNow(s: Session): Session {
    s.(paused := false)
  }

  function AdvanceTo(s: Session, now: Time, idle: int): Session {
    if HasOpen(s) && now - Last(s).startedAt >= idle then CloseCurrent(s, Last(s).startedAt + idle, idle) else s
  }

  datatype Work = Work(sequence: int, added: Option<int>, deleted: Option<int>, status: string, source: string, confidence: Confidence)

  function Worked(i: Interval, w: Work): Interval {
    i.(linesAdded := w.added, linesDeleted := w.deleted, workStatus := w.status, workSource := w.source, workConfidence := Some(w.confidence))
  }

  /** The first interval with the sequence, if there is one. */
  function FindSequence(intervals: seq<Interval>, sequence: int, from: nat): (k: nat)
    requires from <= |intervals|
    ensures from <= k <= |intervals|
    ensures k < |intervals| ==> intervals[k].sequence == sequence
    ensures forall j :: from <= j < k ==> intervals[j].sequence != sequence
    decreases |intervals| - from
  {
    if from == |intervals| || intervals[from].sequence == sequence then from else FindSequence(intervals, sequence, from + 1)
  }

  function WorkOn(s: Session, w: Work): Option<Session> {
    var k := FindSequence(s.intervals, w.sequence, 0);
    if k == |s.intervals| then None else Some(s.(intervals := s.intervals[k := Worked(s.intervals[k], w)]))
  }

  // ----- the engine -----

  type Sessions = map<string, Session>

  datatype Reply = Reply(sessions: Sessions, state: Result<Session>)

  function EngineApply(sessions: Sessions, e: Event, idle: int): Reply {
    if e.sessionId == "" then Reply(sessions, Err("session_id is required"))
    else if e.eventType.SessionStarted? then
      if e.sessionId in sessions then Reply(sessions, Ok(sessions[e.sessionId]))
      else Reply(sessions[e.sessionId := NewSession(e)], Ok(NewSession(e)))
    else if e.sessionId !in sessions then Reply(sessions, Err("session has not started"))
    else
      var s := ApplyTo(sessions[e.sessionId], e, idle);
      Reply(sessions[e.sessionId := s], Ok(s))
  }

  function EngineWork(sessions: Sessions, id: string, w: Work): Reply {
    if id !in sessions then Reply(sessions, Err("unknown session"))
    else
      match WorkOn(sessions[id], w)
      case None => Reply(sessions, Err("unknown access interval"))
      case Some(s) => Reply(sessions[id := s], Ok(s))
  }

  function EngineUpdate(sessions: Sessions, id: string, change: Session -> Session): Reply {
    if id !in sessions then Reply(sessions, Err("unknown session"))
    else Reply(sessions[id := change(sessions[id])], Ok(change(sessions[id])))
  }

  class Engine {
    const idleTimeout: int
    var sessions: Sessions

    constructor (idleTimeout: int)
      ensures this.idleTimeout == if idleTimeout <= 0 then DEFAULT_IDLE_TIMEOUT else idleTimeout
      ensures sessions == map[]
    {
      this.idleTimeout := if idleTimeout <= 0 then DEFAULT_IDLE_TIMEOUT else idleTimeout;
      sessions := map[];
    }

    /** closeCurrent */
    method Close(id: string, at: Time)
      requires id in sessions
      modifies this`sessions
      ensures sessions == old(sessions)[id := CloseCurrent(old(sessions)[id], at, idleTimeout)]
    {
      var s := sessions[id];
      if !HasOpen(s) {
        return;
      }
      var c := Last(s);
      var end := at;
      var limit := c.startedAt + idleTimeout;
      if end > limit {
        end := limit;
      }
      if end < c.startedAt {
        end := c.startedAt;
      }
      c := c.(endedAt := Some(end), duration := end - c.startedAt);
      sessions := sessions[id := SetLast(s, c)];
    }

    method Apply(e: Event) returns (state: Result<Session>)
      modifies this`sessions
      ensures Reply(sessions, state) == EngineApply(old(sessions), e, idleTimeout)
    {
      if e.sessionId == "" {
        return Err("session_id is required");
      }
      var id := e.sessionId;
      if e.eventType.SessionStarted? {
        if id !in sessions {
          sessions := sessions[id := NewSession(e)];
        }
        return Ok(sessions[id]);
      }
      if id !in sessions {
        return Err("session has not started");
      }
      if e.timestamp < sessions[id].currentTimestamp {
        return Ok(sessions[id]);
      }
      if e.eventType.SessionStopped? {
        Close(id, e.timestamp);
        sessions := sessions[id := sessions[id].(stoppedAt := Some(e.timestamp))];
        return Ok(sessions[id]);
      }
      if sessions[id].stoppedAt.Some? || sessions[id].paused {
        return Ok(sessions[id]);
      }
      if e.eventType.FileRenamed? || e.eventType.FileMoved? {
        var s := sessions[id];
        if s.activePath == e.previousPath && e.path != "" {
          s := s.(activePath := e.path);
          if s.intervals != [] {
            s := SetLast(s, Last(s).(path := e.path));
          }
          sessions := sessions[id := s];
        }
      }
      assert sessions[id] == Renamed(old(sessions)[id], e);
      var priority := FocusPriority(e);
      if priority.None? || e.path == "" {
        return Ok(sessions[id]);
      }
      var s := sessions[id];
      if e.timestamp == s.currentTimestamp && priority.value < s.currentPriority {
        return Ok(s);
      }
      MoveFocus(id, e, priority.value);
      return Ok(sessions[id]);
    }

    /** The rest of Apply, for a claim that is not beaten. */
    method MoveFocus(id: string, e: Event, priority: int)
      requires id in sessions
      modifies this`sessions
      ensures sessions == old(sessions)[id := Claimed(old(sessions)[id], e, priority, idleTimeout)]
    {
      hide CloseCurrent, Continued, SecondaryPaths;
      var s := sessions[id];
      var paths := ReadSecondaryPaths(e.secondaryPaths);
      if s.activePath == e.path {
        var wasOpen := HasOpen(s);
        s := FocusedWith(s, e, priority, paths);
        if wasOpen {
          s := SetLast(s, Continued(Last(s), e));
        } else {
          s := s.(intervals := s.intervals + [NewInterval(s, e)]);
        }
        sessions := sessions[id := s];
        return;
      }
      Close(id, e.timestamp);
      s := sessions[id];
      s := s.(previousPath := s.activePath, previousNodeId := s.activeNodeId);
      s := s.(activePath := e.path, activeNodeId := e.nodeId);
      s := FocusedWith(s, e, priority, paths);
      s := s.(intervals := s.intervals + [NewInterval(s, e)]);
      sessions := sessions[id := s];
    }

    method Pause(id: string, at: Time) returns (state: Result<Session>)
      modifies this`sessions
      ensures Reply(sessions, state) == EngineUpdate(old(sessions), id, s => PauseAt(s, at, idleTimeout))
    {
      if id !in sessions {
        return Err("unknown session");
      }
      Close(id, at);
      sessions := sessions[id := sessions[id].(paused := true)];
      return Ok(sessions[id]);
    }

    method Resume(id: string) returns (state: Result<Session>)
      modifies this`sessions
      ensures Reply(sessions, state) == EngineUpdate(old(sessions), id, ResumeNow)
    {
      if id !in sessions {
        return Err("unknown session");
      }
      sessions := sessions[id := sessions[id].(paused := false)];
      return Ok(sessions[id]);
    }

    method Advance(id: string, now: Time) returns (state: Result<Session>)
      modifies this`sessions
      ensures Reply(sessions, state) == EngineUpdate(old(sessions), id, s => AdvanceTo(s, now, idleTimeout))
    {
      if id !in sessions {
        return Err("unknown session");
      }
      var s := sessions[id];
      if HasOpen(s) && now - Last(s).startedAt >= idleTimeout {
        Close(id, Last(s).startedAt + idleTimeout);
      }
      return Ok(sessions[id]);
    }

    method SetWorkResult(id: string, w: Work) returns (state: Result<Session>)
      modifies this`sessions
      ensures Reply(sessions, state) == EngineWork(old(sessions), id, w)
    {
      if id !in sessions {
        return Err("unknown session");
      }
      var s := sessions[id];
      for index := 0 to |s.intervals|
        invariant sessions == old(sessions)
        invariant FindSequence(s.intervals, w.sequence, 0) == FindSequence(s.intervals, w.sequence, index)
      {
        if s.intervals[index].sequence != w.sequence {
          continue;
        }
        s := s.(intervals := s.intervals[index := Worked(s.intervals[index], w)]);
        sessions := sessions[id := s];
        return Ok(s);
      }
      return Err("unknown access interval");
    }
  }

  // ----- what every reachable session keeps -----

  /** Numbering, closing and ordering of the intervals. */
  ghost predicate SoundIntervals(s: Session, idle: int) {
    && (forall i :: 0 <= i < |s.intervals| ==> s.intervals[i].sequence == i + 1)
    && (forall i :: 0 <= i < |s.intervals| - 1 ==> s.intervals[i].endedAt.Some?)
    && (forall i :: 0 <= i < |s.intervals| ==> IntervalOk(s.intervals[i], idle))
    && (forall i, j :: 0 <= i <= j < |s.intervals| ==> s.intervals[i].startedAt <= s.intervals[j].startedAt)
    && (s.intervals != [] ==> s.startedAt <= s.intervals[0].startedAt && Last(s).startedAt <= s.currentTimestamp)
    && s.startedAt <= s.currentTimestamp
  }

  ghost predicate WellFormed(s: Session, idle: int) {
    && SoundIntervals(s, idle)
    && (s.activePath == "" <==> s.intervals == [])
    && (s.intervals != [] ==> s.activePath == Last(s).path)
    && (s.intervals == [] ==> s.currentPriority == 0)
  }

  predicate IntervalOk(i: Interval, idle: int) {
    if i.endedAt.Some? then 0 <= i.duration <= idle && i.duration == i.endedAt.value - i.startedAt
    else i.duration == 0
  }

  datatype Op = ApplyOp(event: Event) | PauseOp(at: Time) | ResumeOp | AdvanceOp(now: Time) | WorkOp(work: Work)

  /** One engine call on a started session; a call that errs changes nothing. */
  function Step(s: Session, op: Op, idle: int): Session {
    match op
    case ApplyOp(e) => if e.eventType.SessionStarted? then s else ApplyTo(s, e, idle)
    case PauseOp(at) => PauseAt(s, at, idle)
    case ResumeOp => ResumeNow(s)
    case AdvanceOp(now) => AdvanceTo(s, now, idle)
    case WorkOp(w) => if WorkOn(s, w).Some? then WorkOn(s, w).value else s
  }

  function Runs(start: Event, ops: seq<Op>, idle: int): Session {
    if ops == [] then NewSession(start) else Step(Runs(start, ops[..|ops| - 1], idle), ops[|ops| - 1], idle)
  }

  lemma CloseKeeps(s: Session, at: Time, idle: int)
    requires SoundIntervals(s, idle) && 0 < idle
    ensures var t := CloseCurrent(s, at, idle);
            && SoundIntervals(t, idle) && !HasOpen(t)
            && |t.intervals| == |s.intervals| && (s.intervals != [] ==> Last(t).path == Last(s).path)
            && t.(intervals := s.intervals) == s
  {
  }

  lemma OpenKeeps(s: Session, e: Event, idle: int)
    requires SoundIntervals(s, idle) && 0 < idle && !HasOpen(s)
    requires e.path != "" && s.activePath == e.path && s.currentTimestamp == e.timestamp
    ensures WellFormed(Opened(s, e), idle)
  {
    var t := Opened(s, e);
    forall i | 0 <= i < |t.intervals|
      ensures IntervalOk(t.intervals[i], idle) && t.intervals[i].sequence == i + 1 && t.intervals[i].startedAt <= e.timestamp
    {
      if i < |s.intervals| {
        assert t.intervals[i] == s.intervals[i] && s.intervals[i].startedAt <= Last(s).startedAt;
      }
    }
  }

  lemma RenameKeeps(s: Session, e: Event, idle: int)
    requires WellFormed(s, idle)
    ensures var t := Renamed(s, e);
            && SoundIntervals(t, idle) && |t.intervals| == |s.intervals|
            && t.currentTimestamp == s.currentTimestamp && t.currentPriority == s.currentPriority
            && (t.intervals != [] ==> WellFormed(t, idle))
            && (t.intervals == [] ==> t == s || (t.activePath == e.path && e.path != "" && FocusPriority(e).Some?))
  {
  }

  lemma FocusKeeps(s: Session, t: Session, idle: int)
    requires SoundIntervals(s, idle) && t.intervals == s.intervals && t.startedAt == s.startedAt && s.currentTimestamp <= t.currentTimestamp
    ensures SoundIntervals(t, idle)
  {
  }

  lemma PriorityPositive(e: Event)
    ensures FocusPriority(e).Some? ==> 0 < FocusPriority(e).value
  {
  }

  lemma TouchedKeeps(s: Session, e: Event, idle: int)
    requires WellFormed(s, idle) && 0 < idle && s.currentTimestamp <= e.timestamp
    ensures WellFormed(Touched(s, e, idle), idle)
  {
    hide Renamed, CloseCurrent, Opened, Continued, FocusPriority, SoundIntervals;
    RenameKeeps(s, e, idle);
    PriorityPositive(e);
    var t := Renamed(s, e);
    var priority := FocusPriority(e);
    if priority.None? || e.path == "" || (e.timestamp == t.currentTimestamp && priority.value < t.currentPriority) {
    } else if t.activePath == e.path {
      var f := Focused(t, e, priority.value);
      FocusKeeps(t, f, idle);
      if HasOpen(t) {
        ContinueKeeps(f, e, idle);
      } else {
        OpenKeeps(f, e, idle);
      }
    } else {
      CloseKeeps(t, e.timestamp, idle);
      var closed := CloseCurrent(t, e.timestamp, idle);
      var moved := Focused(closed.(previousPath := closed.activePath, previousNodeId := closed.activeNodeId,
                                   activePath := e.path, activeNodeId := e.nodeId), e, priority.value);
      FocusKeeps(closed, moved, idle);
      OpenKeeps(moved, e, idle);
    }
  }

  lemma ContinueKeeps(s: Session, e: Event, idle: int)
    requires s.intervals != [] && WellFormed(s, idle)
    ensures WellFormed(SetLast(s, Continued(Last(s), e)), idle)
  {
  }

  lemma WorkKeeps(s: Session, w: Work, idle: int)
    requires WellFormed(s, idle) && WorkOn(s, w).Some?
    ensures WellFormed(WorkOn(s, w).value, idle)
  {
  }

  lemma StepKeeps(s: Session, op: Op, idle: int)
    requires WellFormed(s, idle) && 0 < idle
    ensures WellFormed(Step(s, op, idle), idle)
  {
    hide Touched, CloseCurrent, WorkOn;
    match op
    case ApplyOp(e) =>
      if e.timestamp >= s.currentTimestamp {
        CloseKeeps(s, e.timestamp, idle);
        TouchedKeeps(s, e, idle);
      }
    case PauseOp(at) => CloseKeeps(s, at, idle);
    case ResumeOp =>
    case AdvanceOp(now) => if HasOpen(s) { CloseKeeps(s, Last(s).startedAt + idle, idle); }
    case WorkOp(w) => if WorkOn(s, w).Some? { WorkKeeps(s, w, idle); }
  }

  /** Whatever is called on a session, in whatever order and with whatever clocks, it stays well formed. */
  lemma {:induction false} EveryRunIsWellFormed(start: Event, ops: seq<Op>, idle: int)
    requires 0 < idle
    ensures WellFormed(Runs(start, ops, idle), idle)
  {
    if ops != [] {
      EveryRunIsWellFormed(start, ops[..|ops| - 1], idle);
      StepKeeps(Runs(start, ops[..|ops| - 1], idle), ops[|ops| - 1], idle);
    }
  }
}
