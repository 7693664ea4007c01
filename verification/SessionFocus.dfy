/** Which event holds the focus: the comparison of timestamps and priorities in Apply of internal/session/engine.go. */
module SessionFocus {
  import opened Common
  import opened Protocol
  import opened SessionEngine
  import opened SessionGeometry

  /** An event that claims the focus for a path. */
  predicate IsClaim(e: Event) {
    FocusPriority(e).Some? && e.path != ""
  }

  predicate IsMove(e: Event) {
    e.eventType.FileRenamed? || e.eventType.FileMoved?
  }

  predicate Listens(s: Session) {
    s.stoppedAt.None? && !s.paused
  }

  /** A move of the active path takes the focus along even if it claims less than the session's present claim. */
  predicate Carries(s: Session, e: Event) {
    IsMove(e) && e.timestamp == s.currentTimestamp && s.activePath == e.previousPath
  }

  function PriorityOf(e: Event): int {
    if FocusPriority(e).Some? then FocusPriority(e).value else 0
  }

  /** The claim is older than the time, or as old and no stronger. */
  predicate AtMost(e: Event, at: Time, priority: int) {
    e.timestamp < at || (e.timestamp == at && PriorityOf(e) <= priority)
  }

  predicate Tops(s: Session, e: Event) {
    s.currentTimestamp == e.timestamp && s.currentPriority == PriorityOf(e)
  }

  /** The claim was delivered while the session was neither paused nor stopped. */
  ghost predicate Heard(start: Event, ops: seq<Op>, idle: int, e: Event) {
    IsClaim(e) && exists k :: 0 <= k < |ops| && ops[k] == ApplyOp(e) && Listens(Runs(start, ops[..k], idle))
  }

  ghost predicate NoMoveHeard(start: Event, ops: seq<Op>, idle: int) {
    forall e :: Heard(start, ops, idle, e) ==> !IsMove(e)
  }

  ghost predicate HeardInTime(start: Event, ops: seq<Op>, idle: int, e: Event) {
    Heard(start, ops, idle, e) && start.timestamp <= e.timestamp
  }

  /** No claim beats the one the session's time and priority are of, and the focus is on its path unless a rename carried it on. */
  ghost predicate StrongestHolds(start: Event, ops: seq<Op>, idle: int, s: Session) {
    && start.timestamp <= s.currentTimestamp
    && (forall e :: Heard(start, ops, idle, e) ==> AtMost(e, s.currentTimestamp, s.currentPriority))
    && (if exists e :: HeardInTime(start, ops, idle, e)
        then exists e :: HeardInTime(start, ops, idle, e) && Tops(s, e) && (NoMoveHeard(start, ops, idle) ==> s.activePath == e.path)
        else s.activePath == "" && s.currentTimestamp == start.timestamp && s.currentPriority == 0)
  }

  predicate SameFocus(s: Session, t: Session) {
    t.activePath == s.activePath && t.currentTimestamp == s.currentTimestamp && t.currentPriority == s.currentPriority
  }

  /** Only a claim that is heard moves the focus. */
  lemma QuietStep(s: Session, op: Op, idle: int)
    requires !(op.ApplyOp? && IsClaim(op.event) && Listens(s))
    ensures SameFocus(s, Step(s, op, idle))
  {
    hide FocusPriority;
    if op.ApplyOp? && (op.event.eventType.FileRenamed? || op.event.eventType.FileMoved?) {
      MovesHavePriority(op.event);
    }
  }

  lemma MovesHavePriority(e: Event)
    requires IsMove(e)
    ensures FocusPriority(e).Some?
  {
  }

  lemma ClaimStep(s: Session, e: Event, idle: int)
    requires IsClaim(e) && Listens(s)
    ensures var t := Step(s, ApplyOp(e), idle);
            if AtMost(e, s.currentTimestamp, s.currentPriority) && !Tops(s, e)
            then t.currentTimestamp == s.currentTimestamp && t.currentPriority == s.currentPriority
                 && t.activePath == (if Carries(s, e) then e.path else s.activePath)
            else Tops(t, e) && t.activePath == e.path
  {
  }

  lemma HeardSnoc(start: Event, ops: seq<Op>, op: Op, idle: int)
    ensures forall e :: Heard(start, ops + [op], idle, e) <==>
              Heard(start, ops, idle, e) || (op == ApplyOp(e) && IsClaim(e) && Listens(Runs(start, ops, idle)))
  {
    hide Runs, IsClaim, Listens;
    var all, last := ops + [op], |ops|;
    assert all[..last] == ops;
    assert forall k :: 0 <= k < last ==> all[..k] == ops[..k];
    forall e ensures Heard(start, all, idle, e) <==>
                     Heard(start, ops, idle, e) || (op == ApplyOp(e) && IsClaim(e) && Listens(Runs(start, ops, idle)))
    {
      if op == ApplyOp(e) && IsClaim(e) && Listens(Runs(start, ops, idle)) {
        assert all[last] == ApplyOp(e) && Listens(Runs(start, all[..last], idle));
      }
      if Heard(start, ops, idle, e) {
        var k :| 0 <= k < last && ops[k] == ApplyOp(e) && Listens(Runs(start, ops[..k], idle));
        assert all[k] == ApplyOp(e) && Listens(Runs(start, all[..k], idle));
      }
    }
  }

  lemma ClaimIsPositive(e: Event)
    requires IsClaim(e)
    ensures 0 < PriorityOf(e)
  {
  }

  lemma StrongestQuiet(start: Event, ops: seq<Op>, op: Op, idle: int, s: Session, t: Session)
    requires StrongestHolds(start, ops, idle, s) && SameFocus(s, t)
    requires forall e :: Heard(start, ops + [op], idle, e) <==> Heard(start, ops, idle, e)
    ensures StrongestHolds(start, ops + [op], idle, t)
  {
    hide Heard;
    assert forall e :: HeardInTime(start, ops + [op], idle, e) <==> HeardInTime(start, ops, idle, e);
    assert NoMoveHeard(start, ops + [op], idle) <==> NoMoveHeard(start, ops, idle);
    if exists e :: HeardInTime(start, ops, idle, e) {
      var e :| HeardInTime(start, ops, idle, e) && Tops(s, e) && (NoMoveHeard(start, ops, idle) ==> s.activePath == e.path);
      assert HeardInTime(start, ops + [op], idle, e) && Tops(t, e);
    }
  }

  lemma StrongestClaim(start: Event, ops: seq<Op>, e: Event, idle: int, s: Session, t: Session)
    requires StrongestHolds(start, ops, idle, s) && IsClaim(e) && Listens(s) && t == Step(s, ApplyOp(e), idle)
    requires forall f :: Heard(start, ops + [ApplyOp(e)], idle, f) <==> Heard(start, ops, idle, f) || f == e
    ensures StrongestHolds(start, ops + [ApplyOp(e)], idle, t)
  {
    hide Heard, Step, IsClaim, IsMove;
    ClaimStep(s, e, idle);
    ClaimIsPositive(e);
    var all := ops + [ApplyOp(e)];
    assert forall f :: HeardInTime(start, ops, idle, f) ==> HeardInTime(start, all, idle, f);
    assert NoMoveHeard(start, all, idle) ==> NoMoveHeard(start, ops, idle) && !IsMove(e);
    if AtMost(e, s.currentTimestamp, s.currentPriority) && !Tops(s, e) {
      assert forall f :: HeardInTime(start, all, idle, f) ==> HeardInTime(start, ops, idle, f) || f == e;
      if exists f :: HeardInTime(start, ops, idle, f) {
        var f :| HeardInTime(start, ops, idle, f) && Tops(s, f) && (NoMoveHeard(start, ops, idle) ==> s.activePath == f.path);
        assert HeardInTime(start, all, idle, f) && Tops(t, f) && (NoMoveHeard(start, all, idle) ==> t.activePath == f.path);
      } else {
        assert e.timestamp < start.timestamp;
        assert forall f :: !HeardInTime(start, all, idle, f);
        assert t.activePath == "" && t.currentTimestamp == start.timestamp && t.currentPriority == 0;
      }
    } else {
      assert HeardInTime(start, all, idle, e) && Tops(t, e);
    }
  }

  /**
   The session's time and priority are those of the latest claim heard, and among claims of one
   moment of the strongest, however they were delivered; unless a rename was heard the focus is on
   its path.
   */
  lemma {:induction false} FocusIsWithTheStrongest(start: Event, ops: seq<Op>, idle: int)
    ensures StrongestHolds(start, ops, idle, Runs(start, ops, idle))
  {
    hide Step, StrongestHolds, Heard, IsClaim, Listens;
    if ops == [] {
      NothingHeard(start, idle);
    } else {
      var front, op := ops[..|ops| - 1], ops[|ops| - 1];
      FocusIsWithTheStrongest(start, front, idle);
      assert ops == front + [op];
      HeardSnoc(start, front, op, idle);
      var s := Runs(start, front, idle);
      if op.ApplyOp? && IsClaim(op.event) && Listens(s) {
        StrongestClaim(start, front, op.event, idle, s, Step(s, op, idle));
      } else {
        QuietStep(s, op, idle);
        StrongestQuiet(start, front, op, idle, s, Step(s, op, idle));
      }
    }
  }

  lemma NothingHeard(start: Event, idle: int)
    ensures StrongestHolds(start, [], idle, Runs(start, [], idle))
  {
  }

  /** Two claims as late and as strong as each other name one path. */
  ghost predicate TiesAgree(start: Event, ops: seq<Op>, idle: int) {
    forall e, f :: Heard(start, ops, idle, e) && Heard(start, ops, idle, f) && e.timestamp == f.timestamp && PriorityOf(e) == PriorityOf(f)
      ==> e.path == f.path
  }

  /** The order of delivery decides neither time nor priority of the focus and, without renames, not its path. */
  lemma FocusIgnoresDeliveryOrder(start: Event, one: seq<Op>, two: seq<Op>, idle: int)
    requires forall e :: Heard(start, one, idle, e) <==> Heard(start, two, idle, e)
    ensures var s, t := Runs(start, one, idle), Runs(start, two, idle);
            && s.currentTimestamp == t.currentTimestamp && s.currentPriority == t.currentPriority
            && (NoMoveHeard(start, one, idle) && TiesAgree(start, one, idle) ==> s.activePath == t.activePath)
  {
    hide Runs, Heard;
    FocusIsWithTheStrongest(start, one, idle);
    FocusIsWithTheStrongest(start, two, idle);
    var s, t := Runs(start, one, idle), Runs(start, two, idle);
    assert forall e :: HeardInTime(start, one, idle, e) <==> HeardInTime(start, two, idle, e);
    assert NoMoveHeard(start, one, idle) <==> NoMoveHeard(start, two, idle);
    if exists e :: HeardInTime(start, one, idle, e) {
      var e :| HeardInTime(start, one, idle, e) && Tops(s, e) && (NoMoveHeard(start, one, idle) ==> s.activePath == e.path);
      var f :| HeardInTime(start, two, idle, f) && Tops(t, f) && (NoMoveHeard(start, two, idle) ==> t.activePath == f.path);
      assert AtMost(e, t.currentTimestamp, t.currentPriority) && AtMost(f, s.currentTimestamp, s.currentPriority);
    }
  }

  /** With a rename the order shows: a weaker rename of one moment moves the focus when it comes after the claim it renames. */
  lemma RenamesShowDeliveryOrder(a: string, b: string, idle: int)
    requires a != "" && b != "" && a != b
    ensures var start, made := SampleEvent(SessionStarted, "", 1), SampleEvent(FileCreated, a, 5);
            var renamed := SampleEvent(FileRenamed, b, 5).(previousPath := a);
            && PriorityOf(renamed) < PriorityOf(made)
            && Runs(start, [ApplyOp(made), ApplyOp(renamed)], idle).activePath == b
            && Runs(start, [ApplyOp(renamed), ApplyOp(made)], idle).activePath == a
  {
    hide Step, IsClaim;
    var start, made := SampleEvent(SessionStarted, "", 1), SampleEvent(FileCreated, a, 5);
    var renamed := SampleEvent(FileRenamed, b, 5).(previousPath := a);
    SamplesClaim(made, renamed);
    var s := NewSession(start);
    ListensOn(s, made, idle);
    ListensOn(s, renamed, idle);
    ClaimStep(s, made, idle);
    ClaimStep(s, renamed, idle);
    BeatenMove(Step(s, ApplyOp(made), idle), renamed, idle);
    ClaimStep(Step(s, ApplyOp(renamed), idle), made, idle);
    TwoSteps(start, ApplyOp(made), ApplyOp(renamed), idle);
    TwoSteps(start, ApplyOp(renamed), ApplyOp(made), idle);
  }

  lemma SamplesClaim(made: Event, renamed: Event)
    requires made.eventType == FileCreated && made.confidence == Exact && made.path != ""
    requires renamed.eventType == FileRenamed && renamed.confidence == Exact && renamed.path != ""
    ensures IsClaim(made) && IsClaim(renamed) && PriorityOf(made) == 39 && PriorityOf(renamed) == 37
  {
  }

  lemma ListensOn(s: Session, e: Event, idle: int)
    requires Listens(s) && !e.eventType.SessionStopped?
    ensures Listens(Step(s, ApplyOp(e), idle))
  {
  }

  /** A rename of the active path that loses still carries the focus along. */
  lemma BeatenMove(s: Session, e: Event, idle: int)
    requires Listens(s) && IsMove(e) && IsClaim(e) && s.activePath == e.previousPath
    requires e.timestamp == s.currentTimestamp && PriorityOf(e) < s.currentPriority
    ensures Step(s, ApplyOp(e), idle).activePath == e.path
  {
  }

  lemma TwoSteps(start: Event, x: Op, y: Op, idle: int)
    ensures Runs(start, [x, y], idle) == Step(Step(NewSession(start), x, idle), y, idle)
  {
    RunsSnoc(start, [], x, idle);
    RunsSnoc(start, [x], y, idle);
    assert [] + [x] == [x] && [x] + [y] == [x, y];
  }

  // ----- exactly when the order of delivery shows -----

  function Applies(claims: seq<Event>): seq<Op> {
    seq(|claims|, i requires 0 <= i < |claims| => ApplyOp(claims[i]))
  }

  function Delivered(start: Event, order: seq<Event>, idle: int): Session {
    Runs(start, Applies(order), idle)
  }

  ghost predicate IsDelivery(order: seq<Event>, claims: set<Event>) {
    Distinct(order) && Elements(order) == claims
  }

  ghost predicate AllClaims(claims: set<Event>) {
    forall e :: e in claims ==> IsClaim(e)
  }

  /** No claim beats this one. */
  ghost predicate IsTop(start: Event, claims: set<Event>, e: Event) {
    e in claims && start.timestamp <= e.timestamp && forall f :: f in claims ==> AtMost(f, e.timestamp, PriorityOf(e))
  }

  /** The claims that none beats name one path, and no move of their moment leads away from it. */
  ghost predicate Settled(start: Event, claims: set<Event>) {
    && (forall e, f :: IsTop(start, claims, e) && IsTop(start, claims, f) ==> e.path == f.path)
    && (forall e, m :: IsTop(start, claims, e) && m in claims && IsMove(m) && m.timestamp == e.timestamp && m.previousPath == e.path
          ==> m.path == e.path)
  }

  lemma DeliveredSnoc(start: Event, order: seq<Event>, e: Event, idle: int)
    ensures Delivered(start, order + [e], idle) == Step(Delivered(start, order, idle), ApplyOp(e), idle)
  {
    assert Applies(order + [e]) == Applies(order) + [ApplyOp(e)];
    RunsSnoc(start, Applies(order), ApplyOp(e), idle);
  }

  lemma ClaimsAreNoStops(e: Event)
    requires IsClaim(e)
    ensures !e.eventType.SessionStopped?
  {
  }

  /** The session's claim is at most the top one; once a top claim has come the focus stays where Settled has it. */
  ghost predicate TopSoFar(s: Session, start: Event, top: Event, seen: seq<Event>, claims: set<Event>) {
    && Listens(s)
    && (s.currentTimestamp < top.timestamp || (s.currentTimestamp == top.timestamp && s.currentPriority <= PriorityOf(top)))
    && ((exists k :: 0 <= k < |seen| && IsTop(start, claims, seen[k])) ==> Tops(s, top) && s.activePath == top.path)
  }

  lemma TopStep(s: Session, start: Event, top: Event, seen: seq<Event>, claims: set<Event>, e: Event, idle: int)
    requires AllClaims(claims) && IsTop(start, claims, top) && Settled(start, claims) && e in claims
    requires TopSoFar(s, start, top, seen, claims)
    ensures TopSoFar(Step(s, ApplyOp(e), idle), start, top, seen + [e], claims)
  {
    hide Step, IsMove, FocusPriority;
    assert IsClaim(e) && !e.eventType.SessionStopped? by { ClaimsAreNoStops(e); }
    ListensOn(s, e, idle);
    ClaimStep(s, e, idle);
    var all := seen + [e];
    if exists k :: 0 <= k < |all| && IsTop(start, claims, all[k]) {
      var k :| 0 <= k < |all| && IsTop(start, claims, all[k]);
      assert k < |seen| ==> seen[k] == all[k];
    }
  }

  lemma {:induction false} TopHolds(start: Event, top: Event, claims: set<Event>, order: seq<Event>, idle: int)
    requires AllClaims(claims) && IsTop(start, claims, top) && Settled(start, claims)
    requires forall k :: 0 <= k < |order| ==> order[k] in claims
    ensures TopSoFar(Delivered(start, order, idle), start, top, order, claims)
  {
    hide AllClaims, IsTop, Settled, Step;
    if order == [] {
      assert IsClaim(top) && start.timestamp <= top.timestamp by { TopClaims(start, claims, top); }
      ClaimIsPositive(top);
    } else {
      var last := |order| - 1;
      TopHolds(start, top, claims, order[..last], idle);
      TopStep(Delivered(start, order[..last], idle), start, top, order[..last], claims, order[last], idle);
      DeliveredSnoc(start, order[..last], order[last], idle);
      assert order == order[..last] + [order[last]];
    }
  }

  lemma TopClaims(start: Event, claims: set<Event>, top: Event)
    requires AllClaims(claims) && IsTop(start, claims, top)
    ensures top in claims && IsClaim(top) && start.timestamp <= top.timestamp
  {
  }

  /** Without a top claim everything is older than the session, and the focus stays empty. */
  lemma {:induction false} NoTopHolds(start: Event, claims: set<Event>, order: seq<Event>, idle: int)
    requires forall k :: 0 <= k < |order| ==> order[k].timestamp < start.timestamp
    ensures Delivered(start, order, idle) == NewSession(start)
  {
    if order != [] {
      var last := |order| - 1;
      NoTopHolds(start, claims, order[..last], idle);
      DeliveredSnoc(start, order[..last], order[last], idle);
      assert order == order[..last] + [order[last]];
    }
  }

  /** Of the claims not older than the session one is top. */
  lemma {:induction false} TopExists(start: Event, claims: set<Event>) returns (top: Option<Event>)
    ensures top.Some? ==> IsTop(start, claims, top.value)
    ensures top.None? ==> forall e :: e in claims ==> e.timestamp < start.timestamp
  {
    top := None;
    if claims != {} {
      var e :| e in claims;
      var rest := TopExists(start, claims - {e});
      hide FocusPriority;
      assert forall f :: f in claims ==> f == e || f in claims - {e};
      if e.timestamp < start.timestamp {
        top := rest;
      } else if rest.None? || AtMost(rest.value, e.timestamp, PriorityOf(e)) {
        top := Some(e);
      } else {
        top := rest;
      }
    }
  }

  lemma SettledHidesOrder(start: Event, claims: set<Event>, one: seq<Event>, two: seq<Event>, idle: int)
    requires AllClaims(claims) && Settled(start, claims) && IsDelivery(one, claims) && IsDelivery(two, claims)
    ensures Delivered(start, one, idle).activePath == Delivered(start, two, idle).activePath
  {
    hide AllClaims, IsTop, Settled, Delivered;
    assert (forall k :: 0 <= k < |one| ==> one[k] in Elements(one)) && forall k :: 0 <= k < |two| ==> two[k] in Elements(two);
    var top := TopExists(start, claims);
    if top.None? {
      NoTopHolds(start, claims, one, idle);
      NoTopHolds(start, claims, two, idle);
    } else {
      TopHolds(start, top.value, claims, one, idle);
      TopHolds(start, top.value, claims, two, idle);
      assert top.value in claims by { assert IsTop(start, claims, top.value); InClaims(start, claims, top.value); }
      assert top.value in Elements(one) && top.value in Elements(two);
    }
  }

  lemma InClaims(start: Event, claims: set<Event>, top: Event)
    requires IsTop(start, claims, top)
    ensures top in claims
  {
  }

  /** After whatever else came, a top claim takes the focus to its path. */
  lemma TopLast(start: Event, claims: set<Event>, order: seq<Event>, e: Event, idle: int)
    requires AllClaims(claims) && IsTop(start, claims, e) && forall k :: 0 <= k < |order| ==> order[k] in claims
    ensures var s := Delivered(start, order + [e], idle); Listens(s) && Tops(s, e) && s.activePath == e.path
  {
    hide Step, FocusPriority, Delivered, Settled;
    AtMostTop(start, claims, order, e, idle);
    DeliveredSnoc(start, order, e, idle);
    ClaimStep(Delivered(start, order, idle), e, idle);
    ClaimsAreNoStops(e);
    ListensOn(Delivered(start, order, idle), e, idle);
  }

  lemma {:induction false} AtMostTop(start: Event, claims: set<Event>, order: seq<Event>, e: Event, idle: int)
    requires AllClaims(claims) && IsTop(start, claims, e) && forall k :: 0 <= k < |order| ==> order[k] in claims
    ensures var s := Delivered(start, order, idle);
            && Listens(s)
            && (s.currentTimestamp < e.timestamp || (s.currentTimestamp == e.timestamp && s.currentPriority <= PriorityOf(e)))
  {
    hide Step, FocusPriority;
    if order == [] {
      ClaimIsPositive(e);
    } else {
      var last := |order| - 1;
      var s := Delivered(start, order[..last], idle);
      AtMostTop(start, claims, order[..last], e, idle);
      assert IsClaim(order[last]);
      ClaimsAreNoStops(order[last]);
      ListensOn(s, order[last], idle);
      ClaimStep(s, order[last], idle);
      DeliveredSnoc(start, order[..last], order[last], idle);
      assert order == order[..last] + [order[last]];
    }
  }

  lemma EndsWith(claims: set<Event>, e: Event) returns (order: seq<Event>)
    requires e in claims
    ensures IsDelivery(order + [e], claims) && forall k :: 0 <= k < |order| ==> order[k] in claims
  {
    order := ListSet(claims - {e});
    ElementsSnoc(order, e);
    assert forall k :: 0 <= k < |order| ==> order[k] in Elements(order);
  }

  ghost predicate OrderHidden(start: Event, claims: set<Event>, idle: int) {
    forall one, two :: IsDelivery(one, claims) && IsDelivery(two, claims) ==>
      Delivered(start, one, idle).activePath == Delivered(start, two, idle).activePath
  }

  lemma HiddenTops(start: Event, claims: set<Event>, idle: int, e: Event, f: Event)
    requires AllClaims(claims) && OrderHidden(start, claims, idle) && IsTop(start, claims, e) && IsTop(start, claims, f)
    ensures e.path == f.path
  {
    hide AllClaims, IsDelivery, Delivered;
    var one := EndsWith(claims, e);
    var two := EndsWith(claims, f);
    hide IsTop;
    TopLast(start, claims, one, e, idle);
    TopLast(start, claims, two, f, idle);
  }

  lemma HiddenMoves(start: Event, claims: set<Event>, idle: int, e: Event, m: Event)
    requires AllClaims(claims) && OrderHidden(start, claims, idle) && IsTop(start, claims, e)
    requires m in claims && IsMove(m) && m.timestamp == e.timestamp && m.previousPath == e.path
    ensures m.path == e.path
  {
    hide IsDelivery, Delivered, Step, FocusPriority, OrderHidden;
    if m != e {
      var one := EndsWith(claims, e);
      TopLast(start, claims, one, e, idle);
      var front := EndsWith(claims - {m}, e);
      TopLast(start, claims, front, e, idle);
      var s := Delivered(start, front + [e], idle);
      ClaimStep(s, m, idle);
      DeliveredSnoc(start, front + [e], m, idle);
      DeliveryMore(front + [e], claims - {m}, m);
      assert claims - {m} + {m} == claims;
      HiddenAgree(start, claims, idle, one + [e], front + [e] + [m]);
    }
  }

  lemma DeliveryMore(order: seq<Event>, claims: set<Event>, m: Event)
    requires IsDelivery(order, claims) && m !in claims
    ensures IsDelivery(order + [m], claims + {m})
  {
    ElementsSnoc(order, m);
  }

  lemma HiddenAgree(start: Event, claims: set<Event>, idle: int, one: seq<Event>, two: seq<Event>)
    requires OrderHidden(start, claims, idle) && IsDelivery(one, claims) && IsDelivery(two, claims)
    ensures Delivered(start, one, idle).activePath == Delivered(start, two, idle).activePath
  {
  }

  /**
   All orders of delivering some claims end with one active path exactly when the claims none beats
   name one path and no move of their moment leads away from it.
   */
  lemma OrderHiddenIff(start: Event, claims: set<Event>, idle: int)
    requires AllClaims(claims)
    ensures OrderHidden(start, claims, idle) <==> Settled(start, claims)
  {
    hide AllClaims, IsTop, Delivered, IsDelivery;
    if Settled(start, claims) {
      forall one, two | IsDelivery(one, claims) && IsDelivery(two, claims)
        ensures Delivered(start, one, idle).activePath == Delivered(start, two, idle).activePath
      {
        SettledHidesOrder(start, claims, one, two, idle);
      }
    }
    if OrderHidden(start, claims, idle) {
      forall e, f | IsTop(start, claims, e) && IsTop(start, claims, f) ensures e.path == f.path {
        HiddenTops(start, claims, idle, e, f);
      }
      forall e, m | IsTop(start, claims, e) && m in claims && IsMove(m) && m.timestamp == e.timestamp && m.previousPath == e.path
        ensures m.path == e.path
      {
        HiddenMoves(start, claims, idle, e, m);
      }
    }
  }

  // ----- the order of claims, told by types and confidences -----

  /** Exact beats correlated beats observed beats inferred. */
  predicate Surer(a: Confidence, b: Confidence) {
    match a
    case Exact => !b.Exact?
    case Correlated => b.Observed? || b.Inferred?
    case Observed => b.Inferred?
    case Inferred => false
  }

  const CLAIM_TYPES: set<EventType> := {FileCreated, FilePatched, FileModified, FileRenamed, FileMoved, FileDeleted, FileFocused, FileRead}

  /** The types a claim of this type beats at one confidence. */
  function Lighter(t: EventType): set<EventType> {
    match t
    case FileCreated => {FilePatched, FileModified, FileRenamed, FileMoved, FileDeleted, FileFocused, FileRead}
    case FilePatched => {FileRenamed, FileMoved, FileDeleted, FileFocused, FileRead}
    case FileModified => {FileRenamed, FileMoved, FileDeleted, FileFocused, FileRead}
    case FileRenamed => {FileDeleted, FileFocused, FileRead}
    case FileMoved => {FileDeleted, FileFocused, FileRead}
    case FileDeleted => {FileFocused, FileRead}
    case FileFocused => {FileRead}
    case _ => {}
  }

  predicate Outranks(e: Event, f: Event) {
    Surer(e.confidence, f.confidence) || (e.confidence == f.confidence && f.eventType in Lighter(e.eventType))
  }

  lemma ClaimTypesClaim(e: Event)
    ensures IsClaim(e) <==> e.eventType in CLAIM_TYPES && e.path != ""
  {
  }

  lemma OutranksIff(e: Event, f: Event)
    requires e.eventType in CLAIM_TYPES && f.eventType in CLAIM_TYPES
    ensures Outranks(e, f) <==> PriorityOf(f) < PriorityOf(e)
  {
  }

  /** The event was delivered to a session neither paused nor stopped, names a path, and is of a type that claims the focus. */
  ghost predicate Claims(start: Event, ops: seq<Op>, idle: int, e: Event) {
    && e.eventType in CLAIM_TYPES && e.path != ""
    && exists k :: 0 <= k < |ops| && ops[k] == ApplyOp(e)
         && Runs(start, ops[..k], idle).stoppedAt.None? && !Runs(start, ops[..k], idle).paused
  }

  lemma ClaimsAreHeard(start: Event, ops: seq<Op>, idle: int, e: Event)
    ensures Claims(start, ops, idle, e) <==> Heard(start, ops, idle, e)
  {
    hide Runs;
    ClaimTypesClaim(e);
    if Claims(start, ops, idle, e) {
      var k :| 0 <= k < |ops| && ops[k] == ApplyOp(e)
               && Runs(start, ops[..k], idle).stoppedAt.None? && !Runs(start, ops[..k], idle).paused;
      assert Listens(Runs(start, ops[..k], idle));
    }
    if Heard(start, ops, idle, e) {
      var k :| 0 <= k < |ops| && ops[k] == ApplyOp(e) && Listens(Runs(start, ops[..k], idle));
      assert Runs(start, ops[..k], idle).stoppedAt.None? && !Runs(start, ops[..k], idle).paused;
    }
  }

  /** No claim is later than e, and none of its moment outranks it. */
  ghost predicate Unbeaten(start: Event, ops: seq<Op>, idle: int, e: Event) {
    && Claims(start, ops, idle, e) && start.timestamp <= e.timestamp
    && forall f :: Claims(start, ops, idle, f) ==> f.timestamp < e.timestamp || (f.timestamp == e.timestamp && !Outranks(f, e))
  }

  /**
   After any calls the session's latest moment is that of a claim that is not beaten, by later
   ones or by types and confidences, and without renames and moves the focus is on its path.
   */
  lemma FocusIsUnbeaten(start: Event, ops: seq<Op>, idle: int, claim: Event)
    requires Claims(start, ops, idle, claim) && start.timestamp <= claim.timestamp
    ensures exists e :: Unbeaten(start, ops, idle, e) && Runs(start, ops, idle).currentTimestamp == e.timestamp
              && ((forall f :: Claims(start, ops, idle, f) ==> !f.eventType.FileRenamed? && !f.eventType.FileMoved?)
                  ==> Runs(start, ops, idle).activePath == e.path)
  {
    hide Runs, Claims, Heard, Outranks;
    forall e ensures Claims(start, ops, idle, e) <==> Heard(start, ops, idle, e) {
      ClaimsAreHeard(start, ops, idle, e);
    }
    FocusIsWithTheStrongest(start, ops, idle);
    assert HeardInTime(start, ops, idle, claim);
    var s := Runs(start, ops, idle);
    var e :| HeardInTime(start, ops, idle, e) && Tops(s, e) && (NoMoveHeard(start, ops, idle) ==> s.activePath == e.path);
    HeardIsClaim(start, ops, idle, e);
    forall f | Claims(start, ops, idle, f) ensures f.timestamp < e.timestamp || (f.timestamp == e.timestamp && !Outranks(f, e)) {
      HeardIsClaim(start, ops, idle, f);
      OutranksIff(f, e);
    }
    assert Unbeaten(start, ops, idle, e);
  }

  lemma HeardIsClaim(start: Event, ops: seq<Op>, idle: int, e: Event)
    requires Heard(start, ops, idle, e)
    ensures e.eventType in CLAIM_TYPES && e.path != ""
  {
    ClaimTypesClaim(e);
  }

  /** Events of other types, or without a path, leave the focus where it is. */
  lemma OthersLeaveTheFocus(start: Event, ops: seq<Op>, e: Event, idle: int)
    requires e.eventType !in CLAIM_TYPES || e.path == ""
    ensures SameFocus(Runs(start, ops, idle), Runs(start, ops + [ApplyOp(e)], idle))
  {
    hide Runs, Step;
    ClaimTypesClaim(e);
    RunsSnoc(start, ops, ApplyOp(e), idle);
    QuietStep(Runs(start, ops, idle), ApplyOp(e), idle);
  }

  /** Of two claims of one moment the focus is with the one that outranks the other, in both orders, and else with the later delivered. */
  lemma TwoClaims(start: Event, e: Event, f: Event, idle: int)
    requires e.eventType in CLAIM_TYPES - {FileRenamed, FileMoved} && f.eventType in CLAIM_TYPES - {FileRenamed, FileMoved}
    requires e.path != "" && f.path != "" && start.timestamp <= e.timestamp == f.timestamp
    ensures Runs(start, [ApplyOp(e), ApplyOp(f)], idle).activePath == if Outranks(e, f) then e.path else f.path
    ensures Runs(start, [ApplyOp(f), ApplyOp(e)], idle).activePath == if Outranks(f, e) then f.path else e.path
  {
    FirstOfTwo(start, e, f, idle);
    FirstOfTwo(start, f, e, idle);
  }

  lemma FirstOfTwo(start: Event, e: Event, f: Event, idle: int)
    requires e.eventType in CLAIM_TYPES - {FileRenamed, FileMoved} && f.eventType in CLAIM_TYPES - {FileRenamed, FileMoved}
    requires e.path != "" && f.path != "" && start.timestamp <= e.timestamp == f.timestamp
    ensures Runs(start, [ApplyOp(e), ApplyOp(f)], idle).activePath == if Outranks(e, f) then e.path else f.path
  {
    hide Step, FocusPriority, Outranks, Lighter, Surer;
    ClaimTypesClaim(e);
    ClaimTypesClaim(f);
    ClaimIsPositive(e);
    OutranksIff(e, f);
    TwoSteps(start, ApplyOp(e), ApplyOp(f), idle);
    var s := NewSession(start);
    ClaimStep(s, e, idle);
    ListensOn(s, e, idle);
    ClaimStep(Step(s, ApplyOp(e), idle), f, idle);
  }

  // ----- what an accepted claim records -----

  /** The claim is not older than the session, and at its moment not outranked by the priority on record. */
  predicate IsAccepted(s: Session, e: Event) {
    && Listens(s) && e.eventType in CLAIM_TYPES && e.path != ""
    && (s.currentTimestamp < e.timestamp || (s.currentTimestamp == e.timestamp && s.currentPriority <= PriorityOf(e)))
  }

  lemma AcceptedIsClaimed(s: Session, e: Event, idle: int)
    requires IsAccepted(s, e)
    ensures ApplyTo(s, e, idle) == Claimed(Renamed(s, e), e, PriorityOf(e), idle)
  {
    hide Renamed, Claimed;
    ClaimTypesClaim(e);
    RenamedSameTimes(s, e);
  }

  /** The path the focus is on once a move of it has been carried along. */
  function CarriedPath(s: Session, e: Event): string {
    if (e.eventType.FileRenamed? || e.eventType.FileMoved?) && s.activePath == e.previousPath then e.path else s.activePath
  }

  lemma RenamedShape(s: Session, e: Event)
    requires e.path != ""
    ensures var t := Renamed(s, e);
            && t.activePath == CarriedPath(s, e) && t.(activePath := s.activePath, intervals := s.intervals) == s
            && |t.intervals| == |s.intervals| && (HasOpen(t) <==> HasOpen(s))
            && (forall i :: 0 <= i < |s.intervals| - 1 ==> t.intervals[i] == s.intervals[i])
            && (s.intervals != [] ==> Last(t).(path := Last(s).path) == Last(s) && (Last(t).path == Last(s).path || Last(t).path == e.path))
  {
  }

  /** The session shows the event: path, operation, source, confidence, time and secondary paths. */
  lemma AcceptedIsShown(s: Session, e: Event, idle: int)
    requires IsAccepted(s, e)
    ensures var t := ApplyTo(s, e, idle);
            && t.activePath == e.path && t.activeOperation == e.operation && t.activeSource == Some(e.source)
            && t.activeConfidence == Some(e.confidence) && t.activeTimestamp == e.timestamp && t.currentTimestamp == e.timestamp
            && t.secondaryPaths == SecondaryPaths(e.secondaryPaths)
            && t.sessionId == s.sessionId && t.startedAt == s.startedAt && t.stoppedAt == s.stoppedAt && t.paused == s.paused
  {
    hide SecondaryPaths, CloseCurrent, Continued, NewInterval, Renamed, ApplyTo, PriorityOf;
    AcceptedIsClaimed(s, e, idle);
    RenamedShape(s, e);
    CloseSameLength(Renamed(s, e), e.timestamp, idle);
  }

  /** An event of another path, or of the active one with no interval open, starts an interval of its own. */
  lemma AcceptedOpens(s: Session, e: Event, idle: int)
    requires IsAccepted(s, e) && !(CarriedPath(s, e) == e.path && HasOpen(s))
    ensures var t := ApplyTo(s, e, idle);
            && |t.intervals| == |s.intervals| + 1
            && Last(t) == Interval(|s.intervals| + 1, e.nodeId, e.path, e.timestamp, None, 0, if e.operation == "" then [] else [e.operation],
                                   e.source, e.confidence, e.agentId, e.linesAdded, e.linesDeleted, "", "", None)
            && (CarriedPath(s, e) != e.path ==>
                 t.activeNodeId == e.nodeId && t.previousPath == s.activePath && t.previousNodeId == s.activeNodeId)
            && (CarriedPath(s, e) == e.path ==>
                 t.activeNodeId == s.activeNodeId && t.previousPath == s.previousPath && t.previousNodeId == s.previousNodeId)
  {
    hide SecondaryPaths, CloseCurrent, Renamed, ApplyTo, PriorityOf, Continued;
    AcceptedIsClaimed(s, e, idle);
    RenamedShape(s, e);
    CloseSameLength(Renamed(s, e), e.timestamp, idle);
  }

  /** An event of the active path goes into its open interval: its operation, and its counts where it has any. */
  lemma AcceptedContinues(s: Session, e: Event, idle: int)
    requires IsAccepted(s, e) && CarriedPath(s, e) == e.path && HasOpen(s)
    ensures var t := ApplyTo(s, e, idle);
            && |t.intervals| == |s.intervals| && (forall i :: 0 <= i < |s.intervals| - 1 ==> t.intervals[i] == s.intervals[i])
            && t.activeNodeId == s.activeNodeId && t.previousPath == s.previousPath && t.previousNodeId == s.previousNodeId
            && ContinuedBy(Last(s), e, Last(t))
  {
    hide SecondaryPaths, Switched, Renamed, ApplyTo, PriorityOf, Continued, ContinuedBy;
    AcceptedIsClaimed(s, e, idle);
    RenamedShape(s, e);
    IntervalContinues(Last(s), Last(Renamed(s, e)), e);
  }

  /** now is the interval was with the event in it. */
  predicate ContinuedBy(was: Interval, e: Event, now: Interval) {
    && now.linesAdded == (if e.linesAdded.Some? then e.linesAdded else was.linesAdded)
    && now.linesDeleted == (if e.linesDeleted.Some? then e.linesDeleted else was.linesDeleted)
    && now.operations == was.operations + (if e.operation == "" || e.operation in was.operations then [] else [e.operation])
    && now == was.(path := now.path, operations := now.operations, linesAdded := now.linesAdded, linesDeleted := now.linesDeleted)
    && (now.path == was.path || now.path == e.path)
  }

  lemma IntervalContinues(was: Interval, carried: Interval, e: Event)
    requires carried.(path := was.path) == was && (carried.path == was.path || carried.path == e.path)
    ensures ContinuedBy(was, e, Continued(carried, e))
  {
  }

  /** Closing at a time ends the open interval then, but not before its start and not more than the idle timeout after it. */
  lemma ClosesAt(s: Session, at: Time, idle: int)
    requires HasOpen(s) && 0 < idle
    ensures var t := CloseCurrent(s, at, idle);
            var start := Last(s).startedAt;
            var end := if at < start then start else if start + idle < at then start + idle else at;
            && |t.intervals| == |s.intervals| && t.intervals != [] && t.(intervals := s.intervals) == s
            && Last(t) == Last(s).(endedAt := Some(end), duration := end - start)
            && (forall i :: 0 <= i < |s.intervals| - 1 ==> t.intervals[i] == s.intervals[i])
  {
  }

  /** Which session an event concerns, and what it takes for it to be applied. */
  lemma ApplyConcernsOne(sessions: Sessions, e: Event, idle: int)
    ensures var r := EngineApply(sessions, e, idle);
            && (forall id :: id != e.sessionId ==> (id in r.sessions <==> id in sessions) && (id in sessions ==> r.sessions[id] == sessions[id]))
            && (r.state.Err? <==> e.sessionId == "" || (e.sessionId !in sessions && e.eventType != SessionStarted))
            && (r.state.Err? ==> r.sessions == sessions)
            && (r.state.Ok? ==> e.sessionId in r.sessions && r.sessions[e.sessionId] == r.state.value)
            && (r.state.Ok? && e.eventType == SessionStarted && e.sessionId in sessions ==> r.sessions == sessions)
            && (r.state.Ok? && e.sessionId !in sessions ==>
                 var s := r.state.value;
                 && s.sessionId == e.sessionId && s.startedAt == e.timestamp && s.currentTimestamp == e.timestamp && s.currentPriority == 0
                 && s.stoppedAt == None && !s.paused && s.activePath == "" && s.intervals == [] && s.secondaryPaths == [])
  {
    hide ApplyTo;
  }

  /** A work result goes onto the first interval with its number, each count into the field of its name. */
  lemma WorkIsRecorded(s: Session, w: Work, k: nat)
    requires k < |s.intervals| && s.intervals[k].sequence == w.sequence
    requires forall j :: 0 <= j < k ==> s.intervals[j].sequence != w.sequence
    ensures var t := Step(s, WorkOp(w), 0);
            && t.(intervals := s.intervals) == s && |t.intervals| == |s.intervals|
            && t.intervals[k].linesAdded == w.added && t.intervals[k].linesDeleted == w.deleted
            && t.intervals[k].workStatus == w.status && t.intervals[k].workSource == w.source && t.intervals[k].workConfidence == Some(w.confidence)
            && t.intervals[k].path == s.intervals[k].path && t.intervals[k].startedAt == s.intervals[k].startedAt
            && t.intervals[k].endedAt == s.intervals[k].endedAt && t.intervals[k].operations == s.intervals[k].operations
            && (forall j :: 0 <= j < |s.intervals| && j != k ==> t.intervals[j] == s.intervals[j])
  {
    assert FindSequence(s.intervals, w.sequence, 0) == k;
  }
}
