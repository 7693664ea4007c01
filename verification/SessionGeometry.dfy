/**
 When access intervals overlap and when they cannot, how much time they add up to, and how
 crash recovery relates to an ordinary stop.
 */
module SessionGeometry {
  import opened Common
  import opened Protocol
  import opened SessionEngine

  /** Each interval ends before the next one starts. */
  ghost predicate Disjoint(intervals: seq<Interval>) {
    forall i :: 0 <= i < |intervals| - 1 && intervals[i].endedAt.Some? ==> intervals[i].endedAt.value <= intervals[i + 1].startedAt
  }

  function TotalDuration(intervals: seq<Interval>): int {
    if intervals == [] then 0 else TotalDuration(intervals[..|intervals| - 1]) + intervals[|intervals| - 1].duration
  }

  // ----- the step that can break disjointness -----

  /** The event starts a new interval: it is accepted, it moves the focus, and no open interval has its path. */
  predicate OpensInterval(s: Session, e: Event) {
    && s.currentTimestamp <= e.timestamp && !e.eventType.SessionStopped? && s.stoppedAt.None? && !s.paused
    && FocusPriority(e).Some? && e.path != ""
    && !(e.timestamp == s.currentTimestamp && FocusPriority(e).value < s.currentPriority)
    && !(Renamed(s, e).activePath == e.path && HasOpen(s))
  }

  /** The new interval starts before the recorded end of the last one. */
  predicate OpensEarly(s: Session, e: Event) {
    OpensInterval(s, e) && s.intervals != [] && Last(s).endedAt.Some? && e.timestamp < Last(s).endedAt.value
  }

  /** Closing sets the end of the last interval only. */
  lemma CloseDisjoint(s: Session, at: Time, idle: int)
    ensures Disjoint(CloseCurrent(s, at, idle).intervals) <==> Disjoint(s.intervals)
  {
    var t := CloseCurrent(s, at, idle).intervals;
    assert |t| == |s.intervals|;
    assert forall i :: 0 <= i < |t| ==> t[i].startedAt == s.intervals[i].startedAt;
    assert forall i :: 0 <= i < |t| - 1 ==> t[i] == s.intervals[i];
  }

  lemma CloseEndsBy(s: Session, at: Time, idle: int)
    requires s.intervals != [] && Last(s).startedAt <= at && 0 < idle
    ensures HasOpen(s) ==> Last(CloseCurrent(s, at, idle)).endedAt.Some? && Last(CloseCurrent(s, at, idle)).endedAt.value <= at
    ensures !HasOpen(s) ==> CloseCurrent(s, at, idle) == s
    ensures Disjoint(s.intervals) <==> Disjoint(CloseCurrent(s, at, idle).intervals)
  {
    var t := CloseCurrent(s, at, idle);
    assert forall i :: 0 <= i < |s.intervals| - 1 ==> t.intervals[i] == s.intervals[i];
    assert |s.intervals| > 1 ==> t.intervals[|s.intervals| - 1].startedAt == s.intervals[|s.intervals| - 1].startedAt;
  }

  lemma OpenedDisjoint(s: Session, e: Event)
    ensures Disjoint(Opened(s, e).intervals) <==>
            Disjoint(s.intervals) && (s.intervals != [] && Last(s).endedAt.Some? ==> Last(s).endedAt.value <= e.timestamp)
  {
    var t := Opened(s, e).intervals;
    assert forall i :: 0 <= i < |s.intervals| ==> t[i] == s.intervals[i];
    if Disjoint(t) && s.intervals != [] && Last(s).endedAt.Some? {
      assert t[|s.intervals| - 1].endedAt.value <= t[|s.intervals| - 1 + 1].startedAt;
    }
    if Disjoint(t) {
      forall i | 0 <= i < |s.intervals| - 1 && s.intervals[i].endedAt.Some?
        ensures s.intervals[i].endedAt.value <= s.intervals[i + 1].startedAt
      {
        assert t[i].endedAt.value <= t[i + 1].startedAt;
      }
    }
  }

  lemma RenamedSameTimes(s: Session, e: Event)
    ensures var t := Renamed(s, e);
            && |t.intervals| == |s.intervals|
            && (forall i :: 0 <= i < |s.intervals| ==>
                 t.intervals[i].startedAt == s.intervals[i].startedAt && t.intervals[i].endedAt == s.intervals[i].endedAt
                 && t.intervals[i].duration == s.intervals[i].duration && t.intervals[i].sequence == s.intervals[i].sequence)
            && (HasOpen(t) <==> HasOpen(s)) && (Disjoint(t.intervals) <==> Disjoint(s.intervals))
            && t.currentTimestamp == s.currentTimestamp && t.stoppedAt == s.stoppedAt && t.paused == s.paused
            && t.startedAt == s.startedAt && t.currentPriority == s.currentPriority
  {
  }

  /** What Touched does to the times of the intervals. */
  lemma TouchedTimes(s: Session, e: Event, idle: int)
    requires WellFormed(s, idle) && 0 < idle && s.currentTimestamp <= e.timestamp && s.stoppedAt.None? && !s.paused
    requires !e.eventType.SessionStopped?
    ensures var t := Touched(s, e, idle);
            && |t.intervals| == |s.intervals| + (if OpensInterval(s, e) then 1 else 0)
            && t.stoppedAt.None? && !t.paused && t.startedAt == s.startedAt
            && (OpensInterval(s, e) ==> HasOpen(t))
            && (!OpensInterval(s, e) ==> (HasOpen(t) <==> HasOpen(s)))
            && (Disjoint(t.intervals) <==> Disjoint(s.intervals) && !OpensEarly(s, e))
  {
    hide Renamed, CloseCurrent, Opened, FocusPriority, Disjoint;
    RenamedSameTimes(s, e);
    var t := Renamed(s, e);
    var priority := FocusPriority(e);
    if priority.None? || e.path == "" || (e.timestamp == t.currentTimestamp && priority.value < t.currentPriority) {
    } else if t.activePath == e.path {
      var f := Focused(t, e, priority.value);
      if HasOpen(t) {
        ContinuedDisjoint(f, e);
      } else {
        OpenedDisjoint(f, e);
        OpenedIsOpen(f, e);
      }
    } else {
      if t.intervals != [] {
        assert Last(t).startedAt == Last(s).startedAt;
        CloseEndsBy(t, e.timestamp, idle);
      } else {
        CloseNothing(t, e.timestamp, idle);
      }
      CloseSameLength(t, e.timestamp, idle);
      var closed := CloseCurrent(t, e.timestamp, idle);
      var moved := Focused(closed.(previousPath := closed.activePath, previousNodeId := closed.activeNodeId,
                                   activePath := e.path, activeNodeId := e.nodeId), e, priority.value);
      OpenedDisjoint(moved, e);
      OpenedIsOpen(moved, e);
    }
  }

  lemma CloseNothing(s: Session, at: Time, idle: int)
    requires s.intervals == []
    ensures CloseCurrent(s, at, idle) == s
  {
  }

  lemma CloseSameLength(s: Session, at: Time, idle: int)
    ensures |CloseCurrent(s, at, idle).intervals| == |s.intervals|
    ensures CloseCurrent(s, at, idle).(intervals := s.intervals) == s
  {
  }

  lemma OpenedIsOpen(s: Session, e: Event)
    ensures HasOpen(Opened(s, e)) && |Opened(s, e).intervals| == |s.intervals| + 1
    ensures Opened(s, e).(intervals := s.intervals) == s
  {
  }

  lemma ContinuedDisjoint(s: Session, e: Event)
    requires s.intervals != []
    ensures var t := SetLast(s, Continued(Last(s), e));
            Disjoint(t.intervals) <==> Disjoint(s.intervals)
  {
    var t := SetLast(s, Continued(Last(s), e)).intervals;
    assert forall i :: 0 <= i < |t| ==> t[i].startedAt == s.intervals[i].startedAt && t[i].endedAt == s.intervals[i].endedAt;
  }

  /** One accepted event makes intervals overlap exactly when it opens one before the last one's recorded end. */
  lemma OverlapIff(s: Session, e: Event, idle: int)
    requires WellFormed(s, idle) && 0 < idle
    ensures Disjoint(ApplyTo(s, e, idle).intervals) <==> Disjoint(s.intervals) && !OpensEarly(s, e)
  {
    hide Touched, Disjoint, CloseCurrent;
    if e.timestamp >= s.currentTimestamp {
      if e.eventType.SessionStopped? {
        if s.intervals != [] {
          CloseEndsBy(s, e.timestamp, idle);
        } else {
          CloseNothing(s, e.timestamp, idle);
        }
      } else if s.stoppedAt.None? && !s.paused {
        TouchedTimes(s, e, idle);
      }
    }
  }

  lemma StepOverlapIff(s: Session, op: Op, idle: int)
    requires WellFormed(s, idle) && 0 < idle
    ensures Disjoint(Step(s, op, idle).intervals) <==> Disjoint(s.intervals) && !(op.ApplyOp? && OpensEarly(s, op.event))
  {
    hide Disjoint, CloseCurrent, WorkOn, ApplyTo;
    match op
    case ApplyOp(e) => OverlapIff(s, e, idle);
    case PauseOp(at) => CloseDisjoint(s, at, idle);
    case ResumeOp =>
    case AdvanceOp(now) => if HasOpen(s) { CloseDisjoint(s, Last(s).startedAt + idle, idle); }
    case WorkOp(w) => if WorkOn(s, w).Some? { WorkSameTimes(s, w); }
  }

  /** After any calls two intervals overlap exactly when some event applied on the way opened one before the recorded end of the last. */
  lemma {:induction false} RunOverlapsIff(start: Event, ops: seq<Op>, idle: int)
    requires 0 < idle
    ensures WellFormed(Runs(start, ops, idle), idle)
    ensures Disjoint(Runs(start, ops, idle).intervals) <==>
            forall k :: 0 <= k < |ops| && ops[k].ApplyOp? ==> !OpensEarly(Runs(start, ops[..k], idle), ops[k].event)
  {
    hide WellFormed, Disjoint, Step, OpensEarly;
    if ops == [] {
      NewIsWellFormed(start, idle);
    } else {
      var last := |ops| - 1;
      RunOverlapsIff(start, ops[..last], idle);
      StepKeeps(Runs(start, ops[..last], idle), ops[last], idle);
      StepOverlapIff(Runs(start, ops[..last], idle), ops[last], idle);
      assert forall k :: 0 <= k < last ==> ops[..last][..k] == ops[..k];
    }
  }

  lemma NewIsWellFormed(start: Event, idle: int)
    ensures WellFormed(NewSession(start), idle) && Disjoint(NewSession(start).intervals)
  {
  }

  /** Pausing ahead of a later event of another path makes two intervals overlap. */
  lemma PauseAheadOverlaps(s: Session, at: Time, e: Event, idle: int)
    requires WellFormed(s, idle) && 0 < idle && HasOpen(s)
    requires s.stoppedAt.None? && !s.paused && s.currentTimestamp < e.timestamp && !e.eventType.SessionStopped?
    requires FocusPriority(e).Some? && e.path != ""
    requires e.timestamp < at && e.timestamp < Last(s).startedAt + idle
    ensures !Disjoint(ApplyTo(ResumeNow(PauseAt(s, at, idle)), e, idle).intervals)
  {
    hide Disjoint, FocusPriority;
    StepKeeps(s, PauseOp(at), idle);
    var t := ResumeNow(PauseAt(s, at, idle));
    CloseEndsBy(s, at, idle);
    assert Last(t).endedAt.value == Clamp(at, Last(s).startedAt, idle);
    OverlapIff(t, e, idle);
  }

  function SampleEvent(eventType: EventType, path: string, at: Time): Event {
    Event("id", "s", "", NativeHook, Exact, eventType, "", "", at, 0, "", "", path, "", "", None, None, None, NoPaths)
  }

  /** So does a tick that ran an idle timeout ahead of such an event. */
  lemma AdvanceAheadOverlaps(s: Session, now: Time, e: Event, idle: int)
    requires WellFormed(s, idle) && 0 < idle && HasOpen(s)
    requires s.stoppedAt.None? && !s.paused && s.currentTimestamp < e.timestamp && !e.eventType.SessionStopped?
    requires FocusPriority(e).Some? && e.path != ""
    requires e.timestamp < Last(s).startedAt + idle <= now
    ensures !Disjoint(ApplyTo(AdvanceTo(s, now, idle), e, idle).intervals)
  {
    hide Disjoint, FocusPriority;
    StepKeeps(s, AdvanceOp(now), idle);
    OverlapIff(AdvanceTo(s, now, idle), e, idle);
  }

  /** One read opens an interval; then a pause, or a tick, ahead of the next read makes the two overlap. */
  lemma OverlapsHappen(path: string, other: string)
    requires path != "" && other != ""
    ensures var start, read, late := SampleEvent(SessionStarted, "", 1), ApplyOp(SampleEvent(FileRead, path, 1)), ApplyOp(SampleEvent(FileRead, other, 2));
            && !Disjoint(Runs(start, [read, PauseOp(3), ResumeOp, late], 1000).intervals)
            && !Disjoint(Runs(start, [read, AdvanceOp(2000), late], 1000).intervals)
  {
    hide Disjoint, FocusPriority, Step;
    var start, read, late := SampleEvent(SessionStarted, "", 1), ApplyOp(SampleEvent(FileRead, path, 1)), ApplyOp(SampleEvent(FileRead, other, 2));
    OneReadOpens(path);
    RunOverlapsIff(start, [read], 1000);
    var s := Runs(start, [read], 1000);
    RunsSnoc(start, [read], PauseOp(3), 1000);
    RunsSnoc(start, [read] + [PauseOp(3)], ResumeOp, 1000);
    RunsSnoc(start, [read] + [PauseOp(3)] + [ResumeOp], late, 1000);
    assert [read] + [PauseOp(3)] + [ResumeOp] + [late] == [read, PauseOp(3), ResumeOp, late];
    LateRead(s, other);
    RunsSnoc(start, [read], AdvanceOp(2000), 1000);
    RunsSnoc(start, [read] + [AdvanceOp(2000)], late, 1000);
    assert [read] + [AdvanceOp(2000)] + [late] == [read, AdvanceOp(2000), late];
  }

  lemma LateRead(s: Session, other: string)
    requires WellFormed(s, 1000) && HasOpen(s) && Last(s).startedAt == 1 && s.stoppedAt.None? && !s.paused && s.currentTimestamp == 1
    requires other != ""
    ensures var late := ApplyOp(SampleEvent(FileRead, other, 2));
            && !Disjoint(Step(Step(Step(s, PauseOp(3), 1000), ResumeOp, 1000), late, 1000).intervals)
            && !Disjoint(Step(Step(s, AdvanceOp(2000), 1000), late, 1000).intervals)
  {
    hide Disjoint, CloseCurrent, Touched, WellFormed;
    var e := SampleEvent(FileRead, other, 2);
    PauseAheadOverlaps(s, 3, e, 1000);
    AdvanceAheadOverlaps(s, 2000, e, 1000);
  }

  lemma RunsSnoc(start: Event, ops: seq<Op>, op: Op, idle: int)
    ensures Runs(start, ops + [op], idle) == Step(Runs(start, ops, idle), op, idle)
  {
    hide Step;
    assert (ops + [op])[..|ops|] == ops;
  }

  lemma OneReadOpens(path: string)
    requires path != ""
    ensures var s := Runs(SampleEvent(SessionStarted, "", 1), [ApplyOp(SampleEvent(FileRead, path, 1))], 1000);
            HasOpen(s) && Last(s).startedAt == 1 && s.stoppedAt.None? && !s.paused && s.currentTimestamp == 1
  {
    var start, read := SampleEvent(SessionStarted, "", 1), ApplyOp(SampleEvent(FileRead, path, 1));
    assert [read][..0] == [];
    assert Runs(start, [read], 1000) == Step(NewSession(start), read, 1000);
  }

  // ----- the recorded stop -----

  /** Call k is a stop the engine accepts: it is no older than the session's latest focus. */
  predicate AcceptsStop(start: Event, ops: seq<Op>, idle: int, k: nat) {
    && k < |ops| && ops[k].ApplyOp? && ops[k].event.eventType.SessionStopped?
    && Runs(start, ops[..k], idle).currentTimestamp <= ops[k].event.timestamp
  }

  function StopTime(start: Event, ops: seq<Op>, idle: int, k: nat): Option<Time>
    requires k <= |ops|
  {
    Runs(start, ops[..k], idle).stoppedAt
  }

  lemma StopTimeStep(start: Event, ops: seq<Op>, idle: int, k: nat)
    requires k < |ops|
    ensures StopTime(start, ops, idle, k + 1) ==
            if AcceptsStop(start, ops, idle, k) then Some(ops[k].event.timestamp) else StopTime(start, ops, idle, k)
  {
    hide CloseCurrent, Touched, WorkOn;
    assert ops[..k + 1][..k] == ops[..k];
    var s := Runs(start, ops[..k], idle);
    match ops[k]
    case ApplyOp(e) =>
      CloseSameLength(s, e.timestamp, idle);
      TouchedKeepsStop(s, e, idle);
    case PauseOp(at) => CloseSameLength(s, at, idle);
    case ResumeOp =>
    case AdvanceOp(now) => if HasOpen(s) { CloseSameLength(s, Last(s).startedAt + idle, idle); }
    case WorkOp(w) => if WorkOn(s, w).Some? { WorkSameTimes(s, w); }
  }

  lemma TouchedKeepsStop(s: Session, e: Event, idle: int)
    ensures Touched(s, e, idle).stoppedAt == s.stoppedAt
  {
    hide CloseCurrent;
    CloseSameLength(Renamed(s, e), e.timestamp, idle);
  }

  /** The recorded stop is the time of some accepted one. */
  lemma {:induction false} StopIsAccepted(start: Event, ops: seq<Op>, idle: int, n: nat)
    requires n <= |ops|
    ensures StopTime(start, ops, idle, n).Some? ==>
              exists k :: 0 <= k < n && AcceptsStop(start, ops, idle, k) && ops[k].event.timestamp == StopTime(start, ops, idle, n).value
  {
    if n > 0 {
      hide AcceptsStop, StopTime;
      StopIsAccepted(start, ops, idle, n - 1);
      StopTimeStep(start, ops, idle, n - 1);
    } else {
      assert ops[..0] == [];
    }
  }

  /** Between any two points of the run the recorded stop stays or moves forward. */
  ghost predicate StopsAdvance(start: Event, ops: seq<Op>, idle: int) {
    forall i, j :: 0 <= i <= j <= |ops| && StopTime(start, ops, idle, i).Some? ==>
      StopTime(start, ops, idle, j).Some? && StopTime(start, ops, idle, i).value <= StopTime(start, ops, idle, j).value
  }

  ghost predicate StopsAcceptedInOrder(start: Event, ops: seq<Op>, idle: int) {
    forall i, j :: 0 <= i < j < |ops| && AcceptsStop(start, ops, idle, i) && AcceptsStop(start, ops, idle, j) ==>
      ops[i].event.timestamp <= ops[j].event.timestamp
  }

  lemma {:induction false} StopsForward(start: Event, ops: seq<Op>, idle: int, i: nat, j: nat)
    requires StopsAcceptedInOrder(start, ops, idle) && i <= j <= |ops| && StopTime(start, ops, idle, i).Some?
    ensures StopTime(start, ops, idle, j).Some? && StopTime(start, ops, idle, i).value <= StopTime(start, ops, idle, j).value
  {
    hide AcceptsStop, StopTime;
    if i < j {
      StopsForward(start, ops, idle, i, j - 1);
      StopTimeStep(start, ops, idle, j - 1);
      StopIsAccepted(start, ops, idle, j - 1);
    }
  }

  /** Along a run the recorded stop never moves back exactly when no accepted stop is earlier than one accepted before it. */
  lemma StopsAdvanceIff(start: Event, ops: seq<Op>, idle: int)
    ensures StopsAdvance(start, ops, idle) <==> StopsAcceptedInOrder(start, ops, idle)
  {
    hide StopTime, Runs;
    if StopsAcceptedInOrder(start, ops, idle) {
      forall i: nat, j: nat | 0 <= i <= j <= |ops| && StopTime(start, ops, idle, i).Some?
        ensures StopTime(start, ops, idle, j).Some? && StopTime(start, ops, idle, i).value <= StopTime(start, ops, idle, j).value
      {
        StopsForward(start, ops, idle, i, j);
      }
    }
    if StopsAdvance(start, ops, idle) {
      forall i: nat, j: nat | 0 <= i < j < |ops| && AcceptsStop(start, ops, idle, i) && AcceptsStop(start, ops, idle, j)
        ensures ops[i].event.timestamp <= ops[j].event.timestamp
      {
        StopTimeStep(start, ops, idle, i);
        StopTimeStep(start, ops, idle, j);
        assert StopTime(start, ops, idle, i + 1).value <= StopTime(start, ops, idle, j + 1).value;
      }
    }
  }

  /** A second stop can move it back: the session starts at 1 and is stopped at 10 and then at 5. */
  lemma StopMovesBack(idle: int)
    ensures var start, first, second := SampleEvent(SessionStarted, "", 1), ApplyOp(SampleEvent(SessionStopped, "", 10)), ApplyOp(SampleEvent(SessionStopped, "", 5));
            && StopTime(start, [first, second], idle, 1) == Some(10)
            && StopTime(start, [first, second], idle, 2) == Some(5)
            && !StopsAdvance(start, [first, second], idle)
  {
    var start, first, second := SampleEvent(SessionStarted, "", 1), ApplyOp(SampleEvent(SessionStopped, "", 10)), ApplyOp(SampleEvent(SessionStopped, "", 5));
    var ops := [first, second];
    assert ops[..0] == [] && ops[..1] == [first];
    StopTimeStep(start, ops, idle, 0);
    assert Runs(start, ops[..1], idle) == Step(NewSession(start), first, idle) by { RunsSnoc(start, [], first, idle); assert [] + [first] == [first]; }
    StopTimeStep(start, ops, idle, 1);
    assert StopTime(start, ops, idle, 1).value > StopTime(start, ops, idle, 2).value;
  }

  // ----- live runs: events and work results only -----

  predicate LiveOp(op: Op) {
    op.ApplyOp? || op.WorkOp?
  }

  ghost predicate Live(s: Session) {
    && Disjoint(s.intervals) && !s.paused
    && (s.stoppedAt.None? ==> s.intervals == [] || HasOpen(s))
  }

  lemma WorkSameTimes(s: Session, w: Work)
    requires WorkOn(s, w).Some?
    ensures var t := WorkOn(s, w).value;
            && t.(intervals := s.intervals) == s && |t.intervals| == |s.intervals|
            && (forall i :: 0 <= i < |s.intervals| ==>
                 t.intervals[i].startedAt == s.intervals[i].startedAt && t.intervals[i].endedAt == s.intervals[i].endedAt
                 && t.intervals[i].duration == s.intervals[i].duration && t.intervals[i].sequence == s.intervals[i].sequence)
            && (HasOpen(t) <==> HasOpen(s)) && (Disjoint(t.intervals) <==> Disjoint(s.intervals))
  {
  }

  lemma LiveStep(s: Session, op: Op, idle: int)
    requires WellFormed(s, idle) && 0 < idle && Live(s) && LiveOp(op)
    ensures Live(Step(s, op, idle))
  {
    hide Touched, WorkOn, CloseCurrent, Disjoint;
    match op
    case WorkOp(w) =>
      if WorkOn(s, w).Some? { WorkSameTimes(s, w); }
    case ApplyOp(e) =>
      if !e.eventType.SessionStarted? && e.timestamp >= s.currentTimestamp {
        OverlapIff(s, e, idle);
        CloseSameLength(s, e.timestamp, idle);
        if !e.eventType.SessionStopped? && s.stoppedAt.None? {
          TouchedTimes(s, e, idle);
        }
      }
  }

  lemma {:induction false} LiveRun(start: Event, ops: seq<Op>, idle: int)
    requires 0 < idle && forall k :: 0 <= k < |ops| ==> LiveOp(ops[k])
    ensures WellFormed(Runs(start, ops, idle), idle) && Live(Runs(start, ops, idle))
  {
    if ops != [] {
      LiveRun(start, ops[..|ops| - 1], idle);
      var s := Runs(start, ops[..|ops| - 1], idle);
      LiveStep(s, ops[|ops| - 1], idle);
      StepKeeps(s, ops[|ops| - 1], idle);
    }
  }

  /** Disjoint closed intervals fit, one after the other, between the first start and the last end. */
  lemma {:induction false} DurationsFit(s: Session, n: nat, idle: int)
    requires SoundIntervals(s, idle) && Disjoint(s.intervals) && 0 < n <= |s.intervals|
    requires s.intervals[n - 1].endedAt.Some?
    ensures TotalDuration(s.intervals[..n]) <= s.intervals[n - 1].endedAt.value - s.startedAt
  {
    assert s.intervals[..n][..n - 1] == s.intervals[..n - 1];
    assert IntervalOk(s.intervals[n - 1], idle);
    if n > 1 {
      DurationsFit(s, n - 1, idle);
      assert s.intervals[n - 2].endedAt.value <= s.intervals[n - 2 + 1].startedAt;
    } else {
      assert s.intervals[..0] == [];
    }
  }

  /** With events delivered in any order, intervals never overlap and their time fits the session. */
  lemma LiveRunsNeverOverlap(start: Event, ops: seq<Op>, idle: int)
    requires 0 < idle && forall k :: 0 <= k < |ops| ==> LiveOp(ops[k])
    ensures var s := Runs(start, ops, idle);
            && (forall i, j :: 0 <= i < j < |s.intervals| ==> s.intervals[i].endedAt.Some? && s.intervals[i].endedAt.value <= s.intervals[j].startedAt)
            && (s.intervals != [] && Last(s).endedAt.Some? ==> TotalDuration(s.intervals) <= Last(s).endedAt.value - s.startedAt)
            && (HasOpen(s) ==> TotalDuration(s.intervals) <= Last(s).startedAt - s.startedAt)
  {
    LiveRun(start, ops, idle);
    var s := Runs(start, ops, idle);
    forall i, j | 0 <= i < j < |s.intervals|
      ensures s.intervals[i].endedAt.Some? && s.intervals[i].endedAt.value <= s.intervals[j].startedAt
    {
      assert s.intervals[i].endedAt.value <= s.intervals[i + 1].startedAt <= s.intervals[j].startedAt;
    }
    var n := |s.intervals|;
    assert s.intervals[..n] == s.intervals;
    if s.intervals != [] {
      assert IntervalOk(Last(s), idle);
      if Last(s).endedAt.Some? {
        DurationsFit(s, n, idle);
      } else if n > 1 {
        DurationsFit(s, n - 1, idle);
        assert s.intervals[n - 2].endedAt.value <= s.intervals[n - 2 + 1].startedAt;
      }
    }
  }

  // ----- recovery after a crash -----

  datatype Stale = Stale(session: Session, recoveredAt: Time)

  /** closeStaleInterval */
  function CloseStale(s: Session, observedAt: Time, idle: int): Stale {
    if s.intervals == [] then Stale(s, observedAt)
    else if Last(s).endedAt.Some? then Stale(s, Last(s).endedAt.value)
    else
      var capped := if observedAt > Last(s).startedAt + idle then Last(s).startedAt + idle else observedAt;
      var end := if capped < Last(s).startedAt then Last(s).startedAt else capped;
      Stale(SetLast(s, Last(s).(endedAt := Some(end), duration := end - Last(s).startedAt)), end)
  }

  /** The state RecoverActiveSessions writes for a session the crash left running or paused. */
  function Recover(s: Session, observedAt: Time): Session {
    var stale := CloseStale(s, observedAt, DEFAULT_IDLE_TIMEOUT);
    stale.session.(stoppedAt := Some(stale.recoveredAt), paused := false)
  }

  /** A session read back from the store, as the recovery loop changes it. */
  class StoredSession {
    var state: Session

    constructor (state: Session)
      ensures this.state == state
    {
      this.state := state;
    }

    method CloseStaleInterval(observedAt: Time, idle: int) returns (recoveredAt: Time)
      modifies this
      ensures Stale(state, recoveredAt) == CloseStale(old(state), observedAt, idle)
    {
      recoveredAt := observedAt;
      if |state.intervals| == 0 {
        return;
      }
      var interval := Last(state);
      if interval.endedAt.Some? {
        return interval.endedAt.value;
      }
      var limit := interval.startedAt + idle;
      if recoveredAt > limit {
        recoveredAt := limit;
      }
      if recoveredAt < interval.startedAt {
        recoveredAt := interval.startedAt;
      }
      interval := interval.(endedAt := Some(recoveredAt));
      interval := interval.(duration := recoveredAt - interval.startedAt);
      state := SetLast(state, interval);
    }

    /** The body of the recovery loop for one session. */
    method RecoverActive(at: Time)
      modifies this
      ensures state == Recover(old(state), at)
    {
      var recoveredAt := CloseStaleInterval(at, DEFAULT_IDLE_TIMEOUT);
      state := state.(stoppedAt := Some(recoveredAt));
      state := state.(paused := false);
    }
  }

  /**
   Recovering at t leaves the intervals an ordinary stop at t would have left; the recorded stop
   is the end of the last interval, or t when there is none.
   */
  lemma RecoveryIsAStop(s: Session, stop: Event)
    requires WellFormed(s, DEFAULT_IDLE_TIMEOUT) && s.stoppedAt.None?
    requires stop.eventType.SessionStopped? && s.currentTimestamp <= stop.timestamp
    ensures var recovered := Recover(s, stop.timestamp);
            var stopped := ApplyTo(s, stop, DEFAULT_IDLE_TIMEOUT);
            && recovered.intervals == stopped.intervals
            && recovered.stoppedAt == (if s.intervals == [] then stopped.stoppedAt else Last(stopped).endedAt)
            && (!s.paused ==> recovered.(stoppedAt := stopped.stoppedAt) == stopped)
  {
    CloseSameLength(s, stop.timestamp, DEFAULT_IDLE_TIMEOUT);
  }

  /** Recovery never invents work: it keeps every recorded interval and adds at most the idle limit. */
  lemma RecoveryKeeps(s: Session, observedAt: Time)
    requires WellFormed(s, DEFAULT_IDLE_TIMEOUT)
    ensures var r := Recover(s, observedAt);
            && WellFormed(r, DEFAULT_IDLE_TIMEOUT) && !HasOpen(r) && |r.intervals| == |s.intervals|
            && TotalDuration(r.intervals) <= TotalDuration(s.intervals) + DEFAULT_IDLE_TIMEOUT
            && (!HasOpen(s) ==> r.intervals == s.intervals)
  {
    if HasOpen(s) {
      var r := CloseStale(s, observedAt, DEFAULT_IDLE_TIMEOUT).session;
      assert r.intervals[..|r.intervals| - 1] == s.intervals[..|s.intervals| - 1];
    }
  }
}
