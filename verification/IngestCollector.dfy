/** The collector of internal/ingest/collector.go: any number of submitters, one worker, its context, one stop. */
module IngestCollector {
  import opened Common
  import opened Protocol
  import opened IngestQueue

  /** Where the worker is: draining, waiting in its select, draining for the last time, or returned. */
  datatype Phase = Draining | Waiting | FinalDrain | Done

  datatype Fate = IsQueued | WasHandled | WasCoalesced | WasDisplaced

  /** What the worker saw in its select when it went into its last drain. */
  datatype Exit = ByStop | ByCancel

  /**
   fates follows every event taken in, by its serial; stopMark is how many were taken in when the
   stop was requested, drainMark how many when the worker ended its last drain.
   */
  datatype Collector = Collector(
    queue: Queue,
    phase: Phase,
    wake: bool,
    cancelled: bool,
    stopMark: Option<nat>,
    exit: Option<Exit>,
    drainMark: Option<nat>,
    handled: seq<Entry>,
    fates: map<nat, Fate>)

  function Start(capacity: nat): Collector {
    Collector(Queue(capacity, [], 0, 0, 0, 0), Draining, false, false, None, None, None, [], map[])
  }

  datatype Step = Submits(event: Event) | RequestsStop | Cancels | Handles | FindsEmpty | Wakes | TimesOut | SeesStop | SeesCancel

  predicate Enabled(c: Collector, step: Step) {
    match step
    case Submits(_) => true
    case RequestsStop => true
    case Cancels => true
    case Handles => (c.phase.Draining? || c.phase.FinalDrain?) && c.queue.items != []
    case FindsEmpty => (c.phase.Draining? || c.phase.FinalDrain?) && c.queue.items == []
    case Wakes => c.phase.Waiting? && c.wake
    case TimesOut => c.phase.Waiting?
    case SeesStop => c.phase.Waiting? && c.stopMark.Some?
    case SeesCancel => c.phase.Waiting? && c.cancelled
  }

  /** The fates after an offer: the newcomer is queued, and what it replaced or displaced is not. */
  function OfferFates(c: Collector, e: Event): map<nat, Fate> {
    match Decide(c.queue, e)
    case Coalesced(k) => c.fates[c.queue.items[k].serial := WasCoalesced][c.queue.next := IsQueued]
    case Appended => c.fates[c.queue.next := IsQueued]
    case Displaced(k) => c.fates[c.queue.items[k].serial := WasDisplaced][c.queue.next := IsQueued]
    case Refused => c.fates
  }

  function Next(c: Collector, step: Step): Collector
    requires Enabled(c, step)
  {
    match step
    case Submits(e) =>
      c.(queue := Offer(c.queue, e), fates := OfferFates(c, e), wake := c.wake || !Decide(c.queue, e).Refused?)
    case Cancels => c.(cancelled := true)
    case RequestsStop => if c.stopMark.Some? then c else c.(stopMark := Some(c.queue.next))
    case Handles =>
      c.(queue := Pop(c.queue), handled := c.handled + [c.queue.items[0]], fates := c.fates[c.queue.items[0].serial := WasHandled])
    case FindsEmpty =>
      if c.phase.Draining? then c.(phase := Waiting) else c.(phase := Done, drainMark := Some(c.queue.next))
    case Wakes => c.(phase := Draining, wake := false)
    case TimesOut => c.(phase := Draining)
    case SeesStop => c.(phase := FinalDrain, exit := Some(ByStop))
    case SeesCancel => c.(phase := FinalDrain, exit := Some(ByCancel))
  }

  // ----- what every schedule keeps -----

  /** Exactly the queued events have the fate "queued", and each serial below next has one fate. */
  ghost predicate QueuedFates(items: seq<Entry>, fates: map<nat, Fate>, next: nat) {
    && (forall i: nat :: i in fates <==> i < next)
    && (forall k :: 0 <= k < |items| ==> items[k].serial in fates && fates[items[k].serial] == IsQueued)
    && (forall i :: i in fates && fates[i] == IsQueued ==> exists k :: 0 <= k < |items| && items[k].serial == i)
    && (forall k, l :: 0 <= k < l < |items| ==> items[k].serial != items[l].serial)
  }

  ghost predicate FatesOk(c: Collector) {
    QueuedFates(c.queue.items, c.fates, c.queue.next)
  }

  /** Handled events and the fate "handled" correspond, each once. */
  ghost predicate HandledOk(c: Collector) {
    && (forall k :: 0 <= k < |c.handled| ==> c.handled[k].serial in c.fates && c.fates[c.handled[k].serial] == WasHandled)
    && (forall i :: i in c.fates && c.fates[i] == WasHandled ==> exists k :: 0 <= k < |c.handled| && c.handled[k].serial == i)
    && (forall k, l :: 0 <= k < l < |c.handled| ==> c.handled[k].serial != c.handled[l].serial)
  }

  /** The last drain left nothing behind, and nothing is taken out of the queue after it. */
  ghost predicate StopOk(c: Collector) {
    && (c.exit.Some? <==> c.phase.FinalDrain? || c.phase.Done?)
    && (c.drainMark.Some? <==> c.phase.Done?)
    && (c.exit == Some(ByStop) ==> c.stopMark.Some?)
    && (c.exit == Some(ByCancel) ==> c.cancelled)
    && (c.stopMark.Some? ==> c.stopMark.value <= c.queue.next)
    && (c.phase.Done? ==> c.drainMark.value <= c.queue.next)
    && (c.phase.Done? && c.exit == Some(ByStop) ==> c.stopMark.value <= c.drainMark.value)
    && (c.phase.Done? ==> forall k :: 0 <= k < |c.queue.items| ==> c.drainMark.value <= c.queue.items[k].serial)
    && (c.phase.Done? ==> forall k :: 0 <= k < |c.handled| ==> c.handled[k].serial < c.drainMark.value)
    && (c.phase.Done? && c.drainMark.value < c.queue.next ==> IsOpen(c, c.queue.next - 1))
  }

  /** The event taken in with the serial still waits in the queue. */
  ghost predicate IsOpen(c: Collector, serial: int) {
    0 <= serial && serial in c.fates && c.fates[serial] == IsQueued
  }

  ghost predicate Inv(c: Collector) {
    FatesOk(c) && HandledOk(c) && StopOk(c)
  }

  lemma AppendFates(items: seq<Entry>, fates: map<nat, Fate>, next: nat, e: Event)
    requires QueuedFates(items, fates, next)
    ensures QueuedFates(items + [Entry(e, next)], fates[next := IsQueued], next + 1)
  {
    var after, now := items + [Entry(e, next)], fates[next := IsQueued];
    forall i | i in now && now[i] == IsQueued ensures exists k :: 0 <= k < |after| && after[k].serial == i {
      if i == next {
        assert after[|items|].serial == i;
      } else {
        var k :| 0 <= k < |items| && items[k].serial == i;
        assert after[k].serial == i;
      }
    }
  }

  lemma RemoveFates(items: seq<Entry>, fates: map<nat, Fate>, next: nat, k: nat, fate: Fate)
    requires QueuedFates(items, fates, next) && k < |items| && fate != IsQueued
    ensures QueuedFates(RemoveAt(items, k), fates[items[k].serial := fate], next)
  {
    var after, now := RemoveAt(items, k), fates[items[k].serial := fate];
    forall i | i in now && now[i] == IsQueued ensures exists l :: 0 <= l < |after| && after[l].serial == i {
      var j :| 0 <= j < |items| && items[j].serial == i;
      assert j != k;
      assert after[if j < k then j else j - 1].serial == i;
    }
    forall l | 0 <= l < |after| ensures after[l].serial != items[k].serial {
      assert after[l] == items[if l < k then l else l + 1];
    }
  }

  lemma ReplaceFates(items: seq<Entry>, fates: map<nat, Fate>, next: nat, k: nat, e: Event)
    requires QueuedFates(items, fates, next) && k < |items|
    ensures QueuedFates(items[k := Entry(e, next)], fates[items[k].serial := WasCoalesced][next := IsQueued], next + 1)
  {
    var after, now := items[k := Entry(e, next)], fates[items[k].serial := WasCoalesced][next := IsQueued];
    forall i | i in now && now[i] == IsQueued ensures exists l :: 0 <= l < |after| && after[l].serial == i {
      if i == next {
        assert after[k].serial == i;
      } else {
        var j :| 0 <= j < |items| && items[j].serial == i;
        assert after[j].serial == i;
      }
    }
  }

  lemma SubmitFates(c: Collector, e: Event)
    requires FatesOk(c)
    ensures FatesOk(Next(c, Submits(e)))
  {
    hide Decide, QueuedFates, RemoveAt;
    match Decide(c.queue, e)
    case Coalesced(k) => ReplaceFates(c.queue.items, c.fates, c.queue.next, k, e);
    case Appended => AppendFates(c.queue.items, c.fates, c.queue.next, e);
    case Displaced(k) =>
      RemoveFates(c.queue.items, c.fates, c.queue.next, k, WasDisplaced);
      AppendFates(RemoveAt(c.queue.items, k), c.fates[c.queue.items[k].serial := WasDisplaced], c.queue.next, e);
    case Refused =>
  }

  lemma SubmitHandled(c: Collector, e: Event)
    requires FatesOk(c) && HandledOk(c)
    ensures HandledOk(Next(c, Submits(e)))
  {
    hide Decide, Offer;
    var t := Next(c, Submits(e));
    assert c.queue.next !in c.fates;
    forall i | i in t.fates && t.fates[i] == WasHandled ensures exists k :: 0 <= k < |t.handled| && t.handled[k].serial == i {
      assert i in c.fates && c.fates[i] == WasHandled;
    }
  }

  lemma HandleFates(c: Collector)
    requires Enabled(c, Handles) && FatesOk(c)
    ensures FatesOk(Next(c, Handles))
  {
    RemoveFates(c.queue.items, c.fates, c.queue.next, 0, WasHandled);
    assert RemoveAt(c.queue.items, 0) == c.queue.items[1..];
  }

  lemma HandleHandled(c: Collector)
    requires Enabled(c, Handles) && FatesOk(c) && HandledOk(c)
    ensures HandledOk(Next(c, Handles))
  {
    var t := Next(c, Handles);
    var serial := c.queue.items[0].serial;
    assert c.fates[serial] == IsQueued;
    forall i | i in t.fates && t.fates[i] == WasHandled ensures exists k :: 0 <= k < |t.handled| && t.handled[k].serial == i {
      if i == serial {
        assert t.handled[|c.handled|].serial == i;
      } else {
        var k :| 0 <= k < |c.handled| && c.handled[k].serial == i;
        assert t.handled[k].serial == i;
      }
    }
  }

  lemma SubmitStop(c: Collector, e: Event)
    requires StopOk(c)
    ensures StopOk(Next(c, Submits(e)))
  {
    hide Decide;
  }

  lemma StopStep(c: Collector, step: Step)
    requires Enabled(c, step) && StopOk(c) && FatesOk(c) && HandledOk(c)
    ensures StopOk(Next(c, step))
  {
    hide Offer, OfferFates, Decide;
    if step.Submits? {
      SubmitStop(c, step.event);
    }
  }

  lemma InvStep(c: Collector, step: Step)
    requires Enabled(c, step) && Inv(c)
    ensures Inv(Next(c, step))
  {
    hide Offer, OfferFates, Decide;
    StopStep(c, step);
    if step.Submits? {
      SubmitFates(c, step.event);
      SubmitHandled(c, step.event);
    } else if step.Handles? {
      HandleFates(c);
      HandleHandled(c);
    }
  }

  ghost predicate IsRun(run: seq<Collector>, steps: seq<Step>) {
    && |run| == |steps| + 1
    && (forall k :: 0 <= k < |steps| ==> Enabled(run[k], steps[k]) && run[k + 1] == Next(run[k], steps[k]))
  }

  lemma {:induction false} RunKeepsInv(capacity: nat, run: seq<Collector>, steps: seq<Step>, k: nat)
    requires IsRun(run, steps) && k < |run| && run[0] == Start(capacity)
    ensures Inv(run[k])
  {
    if k > 0 {
      hide Inv, Next;
      RunKeepsInv(capacity, run, steps, k - 1);
      InvStep(run[k - 1], steps[k - 1]);
      assert run[k] == Next(run[k - 1], steps[k - 1]);
    }
  }

  /** Stop has returned: it was requested and the worker is gone. */
  predicate StopReturned(c: Collector) {
    c.phase.Done? && c.stopMark.Some?
  }

  /** Nothing that was taken in before the stop is left in the queue. */
  ghost predicate Drained(c: Collector) {
    c.stopMark.Some? && forall serial :: 0 <= serial < c.stopMark.value ==> !IsOpen(c, serial)
  }

  /**
   When Stop has returned, an event taken in before it has been handled once, coalesced away or
   displaced, unless the worker had left on a cancelled context and the event came after its last
   drain. Such an event is never handled.
   */
  lemma StopDrains(capacity: nat, run: seq<Collector>, steps: seq<Step>, k: nat, serial: nat)
    requires IsRun(run, steps) && k < |run| && run[0] == Start(capacity)
    requires StopReturned(run[k]) && serial < run[k].stopMark.value
    ensures run[k].exit.Some? && run[k].drainMark.Some? && serial in run[k].fates
    ensures run[k].fates[serial] == IsQueued ==> run[k].exit.value == ByCancel && run[k].drainMark.value <= serial
    ensures run[k].fates[serial] == WasHandled <==> exists j :: 0 <= j < |run[k].handled| && run[k].handled[j].serial == serial
    ensures run[k].fates[serial] == WasHandled ==> serial < run[k].drainMark.value
    ensures forall i, j :: 0 <= i < j < |run[k].handled| ==> run[k].handled[i].serial != run[k].handled[j].serial
  {
    RunKeepsInv(capacity, run, steps, k);
  }

  /**
   At the step with which Stop returns, everything taken in before it has left the queue exactly
   when the worker did not leave on a cancelled context with events taken in after its last drain.
   */
  lemma StopDrainsIff(capacity: nat, run: seq<Collector>, steps: seq<Step>, k: nat)
    requires IsRun(run, steps) && k < |steps| && run[0] == Start(capacity)
    requires !StopReturned(run[k]) && StopReturned(run[k + 1])
    ensures run[k + 1].exit.Some? && run[k + 1].drainMark.Some?
    ensures Drained(run[k + 1]) <==>
            !(run[k + 1].exit.value == ByCancel && run[k + 1].drainMark.value < run[k + 1].stopMark.value)
  {
    RunKeepsInv(capacity, run, steps, k);
    RunKeepsInv(capacity, run, steps, k + 1);
    var c, t := run[k], run[k + 1];
    assert t == Next(c, steps[k]);
    if steps[k].RequestsStop? {
      assert t.stopMark == Some(t.queue.next) && t.drainMark == c.drainMark;
      if t.drainMark.value < t.queue.next {
        assert IsOpen(t, t.queue.next - 1);
      }
    } else {
      assert steps[k].FindsEmpty?;
    }
  }

  /** The context is cancelled, the worker drains and leaves, an event is taken in, and the stop is requested. */
  function LateSteps(e: Event): seq<Step> {
    [FindsEmpty, Cancels, SeesCancel, FindsEmpty, Submits(e), RequestsStop]
  }

  /**
   The event of that run was taken in before the stop, Stop returns at once, and however the run
   goes on the event is never handled; while nothing else is submitted it stays queued.
   */
  lemma LateEventIsStranded(capacity: nat, run: seq<Collector>, steps: seq<Step>, e: Event, k: nat)
    requires 0 < capacity && IsRun(run, steps) && run[0] == Start(capacity)
    requires 6 <= k < |run| && steps[..6] == LateSteps(e)
    ensures StopReturned(run[k]) && run[k].stopMark == Some(1) && run[k].handled == []
    ensures !Drained(run[6]) && IsOpen(run[6], 0)
    ensures (forall j :: 6 <= j < k ==> !steps[j].Submits?) ==> run[k].queue.items == [Entry(e, 0)] && IsOpen(run[k], 0)
  {
    LateStart(capacity, run, steps, e);
    LateStays(run, steps, k);
    assert IsOpen(run[6], 0) && run[6].stopMark.value == 1;
  }

  lemma LateStart(capacity: nat, run: seq<Collector>, steps: seq<Step>, e: Event)
    requires 0 < capacity && IsRun(run, steps) && run[0] == Start(capacity) && 6 <= |steps| && steps[..6] == LateSteps(e)
    ensures run[6].phase.Done? && run[6].stopMark == Some(1) && run[6].handled == []
    ensures run[6].queue.items == [Entry(e, 0)] && run[6].fates == map[0 := IsQueued]
  {
    forall j | 0 <= j < 6 ensures steps[j] == LateSteps(e)[j] && run[j + 1] == Next(run[j], steps[j]) {
      assert steps[..6][j] == steps[j];
    }
    assert run[1] == Start(capacity).(phase := Waiting);
    assert run[2] == run[1].(cancelled := true);
    assert run[3] == run[2].(phase := FinalDrain, exit := Some(ByCancel));
    assert run[4] == Start(capacity).(phase := Done, cancelled := true, exit := Some(ByCancel), drainMark := Some(0));
    assert Decide(run[4].queue, e) == Appended;
    assert run[5].queue.items == [Entry(e, 0)];
  }

  lemma {:induction false} LateStays(run: seq<Collector>, steps: seq<Step>, k: nat)
    requires IsRun(run, steps) && 6 <= k < |run| && StopReturned(run[6])
    ensures StopReturned(run[k]) && run[k].stopMark == run[6].stopMark && run[k].handled == run[6].handled
    ensures (forall j :: 6 <= j < k ==> !steps[j].Submits?) ==>
              run[k].queue.items == run[6].queue.items && run[k].fates == run[6].fates
  {
    if 6 < k {
      LateStays(run, steps, k - 1);
      assert run[k] == Next(run[k - 1], steps[k - 1]);
      assert !steps[k - 1].Handles?;
    }
  }
}
