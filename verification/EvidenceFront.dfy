/**
 The bounded queue in front of the evidence gate, Emit of adapter/go/wrapper/evidence.go: while it
 is full strong events are handed on beside the gate, and fallback events are refused.
 */
module EvidenceFront {
  import opened Common
  import opened Protocol
  import opened EvidenceGate
  import opened EvidenceSafety

  datatype Item = Item(event: Event, key: string)

  /** A strong event handed on beside the gate: when, and after how many of the gate's inputs. */
  datatype Beside = Beside(item: Item, now: Time, at: nat)

  /** trace is what the gate has been handed so far; offered is everything ever offered. */
  datatype Front = Front(
    room: nat,
    queue: seq<seq<Item>>,
    trace: seq<Timed>,
    beside: seq<Beside>,
    refused: seq<Item>,
    offered: seq<Item>,
    clock: Time,
    drained: bool)

  datatype Step = Offers(batch: seq<Item>, now: Time) | Takes(now: Time) | Ticks(now: Time) | Drains(now: Time)

  function Start(room: nat, clock: Time): Front {
    Front(room, [], [], [], [], [], clock, false)
  }

  predicate Enabled(f: Front, step: Step) {
    && f.clock <= step.now
    && match step
       case Offers(_, _) => true
       case Takes(_) => !f.drained && f.queue != []
       case Ticks(_) => !f.drained
       case Drains(_) => !f.drained && f.queue == []
  }

  predicate IsStrong(i: Item) {
    !IsFallback(i.event)
  }

  predicate IsWeak(i: Item) {
    IsFallback(i.event)
  }

  function Arrivals(batch: seq<Item>, now: Time): seq<Timed> {
    seq(|batch|, k requires 0 <= k < |batch| => Timed(Arrives(batch[k].event, batch[k].key), now))
  }

  function PassedBy(items: seq<Item>, now: Time, at: nat): seq<Beside> {
    seq(|items|, k requires 0 <= k < |items| => Beside(items[k], now, at))
  }

  function Next(f: Front, step: Step): Front
    requires Enabled(f, step)
  {
    match step
    case Offers(batch, now) =>
      var g := f.(clock := now, offered := f.offered + batch);
      if batch == [] then g
      else if |f.queue| < f.room then g.(queue := f.queue + [batch])
      else g.(beside := f.beside + PassedBy(Where(IsStrong, batch), now, |f.trace|), refused := f.refused + Where(IsWeak, batch))
    case Takes(now) => f.(clock := now, queue := f.queue[1..], trace := f.trace + Arrivals(f.queue[0], now))
    case Ticks(now) => f.(clock := now, trace := f.trace + [Timed(Tick, now)])
    case Drains(now) => f.(clock := now, trace := f.trace + [Timed(Drain, now)], drained := true)
  }

  // ----- nothing strong is lost -----

  function Queued(queue: seq<seq<Item>>): seq<Item> {
    if queue == [] then [] else Queued(queue[..|queue| - 1]) + queue[|queue| - 1]
  }

  function Arrived(trace: seq<Timed>): seq<Item> {
    if trace == [] then []
    else
      var last := trace[|trace| - 1].input;
      Arrived(trace[..|trace| - 1]) + if last.Arrives? then [Item(last.event, last.key)] else []
  }

  function BesideItems(beside: seq<Beside>): seq<Item> {
    seq(|beside|, k requires 0 <= k < |beside| => beside[k].item)
  }

  /** Every offered item is queued, has arrived at the gate, went beside it, or was refused, and only fallbacks are refused. */
  ghost predicate Conserved(f: Front) {
    && multiset(f.offered) == multiset(Queued(f.queue)) + multiset(Arrived(f.trace)) + multiset(BesideItems(f.beside)) + multiset(f.refused)
    && (forall k :: 0 <= k < |f.refused| ==> IsWeak(f.refused[k]))
    && (forall k :: 0 <= k < |f.beside| ==> IsStrong(f.beside[k].item))
  }

  lemma QueuedSnoc(queue: seq<seq<Item>>, batch: seq<Item>)
    ensures Queued(queue + [batch]) == Queued(queue) + batch
  {
    assert (queue + [batch])[..|queue|] == queue;
  }

  lemma {:induction false} QueuedFirst(queue: seq<seq<Item>>)
    requires queue != []
    ensures Queued(queue) == queue[0] + Queued(queue[1..])
  {
    if |queue| == 1 {
      assert queue[..0] == [] && queue[1..] == [];
    } else {
      var front, last := queue[..|queue| - 1], queue[|queue| - 1];
      QueuedFirst(front);
      assert queue[1..] == front[1..] + [last];
      QueuedSnoc(front[1..], last);
      assert queue[0] + (Queued(front[1..]) + last) == queue[0] + Queued(front[1..]) + last;
    }
  }

  lemma ArrivedSnoc(trace: seq<Timed>, i: Item, now: Time)
    ensures Arrived(trace + [Timed(Arrives(i.event, i.key), now)]) == Arrived(trace) + [i]
  {
    assert (trace + [Timed(Arrives(i.event, i.key), now)])[..|trace|] == trace;
  }

  lemma ArrivalsSnoc(batch: seq<Item>, i: Item, now: Time)
    ensures Arrivals(batch + [i], now) == Arrivals(batch, now) + [Timed(Arrives(i.event, i.key), now)]
  {
  }

  lemma NoArrivals(now: Time)
    ensures Arrivals([], now) == []
  {
  }

  lemma {:induction false} ArrivedMore(trace: seq<Timed>, batch: seq<Item>, now: Time)
    ensures Arrived(trace + Arrivals(batch, now)) == Arrived(trace) + batch
  {
    hide Arrived, Arrivals;
    if batch == [] {
      NoArrivals(now);
      assert trace + [] == trace && Arrived(trace) + batch == Arrived(trace);
    } else {
      var front, last := batch[..|batch| - 1], batch[|batch| - 1];
      assert batch == front + [last];
      ArrivedMore(trace, front, now);
      ArrivalsSnoc(front, last, now);
      ArrivedSnoc(trace + Arrivals(front, now), last, now);
      assert trace + Arrivals(batch, now) == trace + Arrivals(front, now) + [Timed(Arrives(last.event, last.key), now)];
      assert Arrived(trace) + front + [last] == Arrived(trace) + batch;
    }
  }

  lemma ArrivedQuiet(trace: seq<Timed>, t: Timed)
    requires !t.input.Arrives?
    ensures Arrived(trace + [t]) == Arrived(trace)
  {
    assert (trace + [t])[..|trace|] == trace;
  }

  lemma {:induction false} Parted(batch: seq<Item>)
    ensures multiset(Where(IsStrong, batch)) + multiset(Where(IsWeak, batch)) == multiset(batch)
  {
    if batch == [] {
      assert Where(IsStrong, batch) == [] && Where(IsWeak, batch) == [];
    } else {
      hide Where, IsStrong, IsWeak;
      var front, last := batch[..|batch| - 1], batch[|batch| - 1];
      Parted(front);
      WhereSnoc(IsStrong, front, last);
      WhereSnoc(IsWeak, front, last);
      StrongOrWeak(last);
      assert batch == front + [last];
      assert multiset(batch) == multiset(front) + multiset{last};
    }
  }

  lemma StrongOrWeak(i: Item)
    ensures IsStrong(i) <==> !IsWeak(i)
  {
  }

  lemma WhereSnoc(p: Item -> bool, front: seq<Item>, last: Item)
    ensures Where(p, front + [last]) == Where(p, front) + if p(last) then [last] else []
  {
    assert (front + [last])[..|front|] == front;
  }

  lemma BesideMore(beside: seq<Beside>, items: seq<Item>, now: Time, at: nat)
    ensures BesideItems(beside + PassedBy(items, now, at)) == BesideItems(beside) + items
  {
  }

  lemma OverflowConserves(f: Front, batch: seq<Item>, now: Time)
    requires Enabled(f, Offers(batch, now)) && Conserved(f) && batch != [] && f.room <= |f.queue|
    ensures Conserved(Next(f, Offers(batch, now)))
  {
    hide Where, Queued, Arrived, IsStrong, IsWeak, PassedBy, BesideItems;
    var strong, weak := Where(IsStrong, batch), Where(IsWeak, batch);
    Parted(batch);
    BesideMore(f.beside, strong, now, |f.trace|);
    PassedAre(strong, now, |f.trace|);
    WhereLaw(IsStrong, batch);
    WhereLaw(IsWeak, batch);
    assert (forall k :: 0 <= k < |strong| ==> strong[k] in strong) && forall k :: 0 <= k < |weak| ==> weak[k] in weak;
  }

  lemma PassedAre(items: seq<Item>, now: Time, at: nat)
    ensures |PassedBy(items, now, at)| == |items|
    ensures forall k :: 0 <= k < |items| ==> PassedBy(items, now, at)[k].item == items[k]
  {
  }

  lemma OfferConserves(f: Front, batch: seq<Item>, now: Time)
    requires Enabled(f, Offers(batch, now)) && Conserved(f)
    ensures Conserved(Next(f, Offers(batch, now)))
  {
    hide Where, Queued, Arrived, IsStrong, IsWeak, PassedBy;
    if batch == [] {
      assert f.offered + batch == f.offered;
    } else if |f.queue| < f.room {
      QueuedSnoc(f.queue, batch);
    } else {
      OverflowConserves(f, batch, now);
    }
  }

  lemma StepConserves(f: Front, step: Step)
    requires Enabled(f, step) && Conserved(f)
    ensures Conserved(Next(f, step))
  {
    hide Where, Queued, Arrived, Arrivals, IsStrong, IsWeak;
    match step
    case Offers(batch, now) => OfferConserves(f, batch, now);
    case Takes(now) =>
      QueuedFirst(f.queue);
      ArrivedMore(f.trace, f.queue[0], now);
    case Ticks(now) => ArrivedQuiet(f.trace, Timed(Tick, now));
    case Drains(now) => ArrivedQuiet(f.trace, Timed(Drain, now));
  }

  // ----- times -----

  ghost predicate Timely(f: Front) {
    && Monotone(f.trace)
    && (forall k :: 0 <= k < |f.trace| ==> f.trace[k].now <= f.clock)
    && (forall k :: 0 <= k < |f.beside| ==> f.beside[k].at <= |f.trace| && f.beside[k].now <= f.clock)
  }

  lemma StepTimely(f: Front, step: Step)
    requires Enabled(f, step) && Timely(f)
    ensures Timely(Next(f, step))
  {
    hide Where;
  }

  ghost predicate IsRun(run: seq<Front>, steps: seq<Step>) {
    && |run| == |steps| + 1
    && (forall k :: 0 <= k < |steps| ==> Enabled(run[k], steps[k]) && run[k + 1] == Next(run[k], steps[k]))
  }

  lemma {:induction false} EveryRun(room: nat, clock: Time, run: seq<Front>, steps: seq<Step>, k: nat)
    requires IsRun(run, steps) && k < |run| && run[0] == Start(room, clock)
    ensures Conserved(run[k]) && Timely(run[k])
  {
    if k > 0 {
      hide Conserved, Timely, Next;
      EveryRun(room, clock, run, steps, k - 1);
      StepConserves(run[k - 1], steps[k - 1]);
      StepTimely(run[k - 1], steps[k - 1]);
      assert run[k] == Next(run[k - 1], steps[k - 1]);
    }
  }

  /** Every strong event that was offered is queued, or was handed on: once by the gate, or once beside it. */
  lemma StrongIsNeverLost(room: nat, clock: Time, run: seq<Front>, steps: seq<Step>, k: nat, i: Item)
    requires IsRun(run, steps) && k < |run| && run[0] == Start(room, clock) && IsStrong(i)
    ensures var f := run[k];
            multiset(f.offered)[i] == multiset(Queued(f.queue))[i] + multiset(Arrived(f.trace))[i] + multiset(BesideItems(f.beside))[i]
  {
    hide Next, Queued, Arrived, BesideItems;
    EveryRun(room, clock, run, steps, k);
    var f := run[k];
    RefusedAreWeak(f.refused, i);
  }

  lemma RefusedAreWeak(refused: seq<Item>, i: Item)
    requires (forall k :: 0 <= k < |refused| ==> IsWeak(refused[k])) && IsStrong(i)
    ensures multiset(refused)[i] == 0
  {
    assert i !in refused;
  }

  // ----- when a fallback is handed on after a strong event -----

  /** A strong event with the key of fallback i went beside the gate before input s, not earlier than a window before i. */
  ghost predicate BypassedBy(f: Front, window: int, i: nat, s: nat)
    requires i < |f.trace| && f.trace[i].input.Arrives?
  {
    exists k :: 0 <= k < |f.beside| && f.beside[k].item.key == f.trace[i].input.key && f.beside[k].at <= s
      && f.trace[i].now - window <= f.beside[k].now
  }

  /** A strong event with its key was handed on, through the gate or beside it, before input s and not earlier than a window before i. */
  ghost predicate ChangeWasTold(f: Front, window: int, i: nat, s: nat)
    requires i < |f.trace| && f.trace[i].input.Arrives?
  {
    || BypassedBy(f, window, i, s)
    || exists j :: 0 <= j < s && StrongAt(f.trace, j, f.trace[i].input.key) && f.trace[i].now - window <= f.trace[j].now
  }

  /** The gate hands fallback i on although a strong event had told of its change. */
  ghost predicate ToldTwice(f: Front, window: int, capacity: nat, i: nat)
    requires i < |f.trace| && f.trace[i].input.Arrives?
  {
    exists k :: 0 <= k < |After(window, capacity, f.trace, |f.trace|).out|
      && After(window, capacity, f.trace, |f.trace|).out[k].id == i
      && ChangeWasTold(f, window, i, After(window, capacity, f.trace, |f.trace|).out[k].step)
  }

  /**
   A change is told of twice exactly when the fallback was accepted, the first later input to
   concern it let it go, and before that a strong event with its key had gone beside the gate.
   */
  lemma ToldTwiceIff(f: Front, window: int, capacity: nat, i: nat)
    requires 0 < window && Timely(f) && FallbackAt(f.trace, i)
    ensures ToldTwice(f, window, capacity, i) <==>
            && AcceptedAt(window, capacity, f.trace, i)
            && exists s :: i < s < |f.trace| && Undisturbed(window, capacity, f.trace, i, s) && Releases(window, f.trace, s, i)
                 && BypassedBy(f, window, i, s)
  {
    hide After, AcceptedAt, Undisturbed, Releases, BypassedBy;
    var n, out := |f.trace|, After(window, capacity, f.trace, |f.trace|).out;
    if ToldTwice(f, window, capacity, i) {
      var k :| 0 <= k < |out| && out[k].id == i && ChangeWasTold(f, window, i, out[k].step);
      EmittedAtFirstRelease(window, capacity, f.trace, n, out[k]);
      FallbackGivesWay(window, capacity, f.trace, n, out[k]);
    }
    forall s | AcceptedAt(window, capacity, f.trace, i) && i < s < n && Undisturbed(window, capacity, f.trace, i, s)
      && Releases(window, f.trace, s, i) && BypassedBy(f, window, i, s)
      ensures ToldTwice(f, window, capacity, i)
    {
      var l := RecordOfRelease(window, capacity, f.trace, s, i);
      OutGrows(window, capacity, f.trace, s + 1, n);
      assert out[l].id == i && out[l].step == s;
    }
  }

  /** Without the overflow path no change is told of twice. */
  lemma ToldOnce(f: Front, window: int, capacity: nat, i: nat)
    requires 0 < window && Timely(f) && FallbackAt(f.trace, i) && f.beside == []
    ensures !ToldTwice(f, window, capacity, i)
  {
    hide ToldTwice, AcceptedAt, Undisturbed, Releases;
    ToldTwiceIff(f, window, capacity, i);
  }

  /** A fallback waits, another batch fills a queue of one, the strong event finds no room, and the window ends. */
  function OverflowSteps(fallback: Item, other: Item, strong: Item, window: int): seq<Step> {
    [Offers([fallback], 0), Takes(0), Offers([other], 0), Offers([strong], 0), Takes(0), Ticks(window)]
  }

  lemma OverflowTellsTwice(run: seq<Front>, fallback: Item, other: Item, strong: Item, window: int, capacity: nat)
    requires 0 < window && 0 < capacity && fallback.key != "" && other.key == "" && strong.key == fallback.key
    requires IsFallback(fallback.event) && IsStrong(strong)
    requires IsRun(run, OverflowSteps(fallback, other, strong, window)) && run[0] == Start(1, 0)
    ensures FallbackAt(run[6].trace, 0) && ToldTwice(run[6], window, capacity, 0)
  {
    hide ToldTwice, AcceptedAt, Undisturbed, Releases, BypassedBy;
    var steps := OverflowSteps(fallback, other, strong, window);
    OverflowRun(run, fallback, other, strong, window);
    EveryRun(1, 0, run, steps, 6);
    ToldTwiceIff(run[6], window, capacity, 0);
    OverflowReleases(run[6], fallback, other, strong, window, capacity);
  }

  function OverflowTrace(fallback: Item, other: Item, window: int): seq<Timed> {
    [Timed(Arrives(fallback.event, fallback.key), 0), Timed(Arrives(other.event, other.key), 0), Timed(Tick, window)]
  }

  lemma OverflowRun(run: seq<Front>, fallback: Item, other: Item, strong: Item, window: int)
    requires 0 < window && IsStrong(strong)
    requires IsRun(run, OverflowSteps(fallback, other, strong, window)) && run[0] == Start(1, 0)
    ensures run[6].trace == OverflowTrace(fallback, other, window) && run[6].beside == [Beside(strong, 0, 1)]
  {
    hide Where, Arrivals;
    var steps := OverflowSteps(fallback, other, strong, window);
    forall k | 0 <= k < 6 ensures run[k + 1] == Next(run[k], steps[k]) {
    }
    OneOf(strong);
    OneArrival(fallback);
    OneArrival(other);
    assert run[1] == Front(1, [[fallback]], [], [], [], [fallback], 0, false);
    assert run[2].trace == OverflowTrace(fallback, other, window)[..1] && run[2].queue == [] && run[2].beside == [] && run[2].room == 1;
    assert run[3].queue == [[other]] && run[3].trace == run[2].trace && run[3].beside == [] && run[3].room == 1;
    assert run[4].beside == [Beside(strong, 0, 1)] && run[4].queue == [[other]] && run[4].trace == run[2].trace;
    assert run[5].trace == OverflowTrace(fallback, other, window)[..2] && run[5].beside == run[4].beside;
  }

  lemma OneOf(strong: Item)
    requires IsStrong(strong)
    ensures Where(IsStrong, [strong]) == [strong]
  {
    assert [strong][..0] == [];
  }

  lemma OneArrival(i: Item)
    ensures Arrivals([i], 0) == [Timed(Arrives(i.event, i.key), 0)]
  {
  }

  lemma OverflowReleases(f: Front, fallback: Item, other: Item, strong: Item, window: int, capacity: nat)
    requires 0 < window && 0 < capacity && fallback.key != "" && other.key == "" && strong.key == fallback.key
    requires IsFallback(fallback.event)
    requires f.trace == OverflowTrace(fallback, other, window) && f.beside == [Beside(strong, 0, 1)]
    ensures FallbackAt(f.trace, 0) && AcceptedAt(window, capacity, f.trace, 0)
    ensures Undisturbed(window, capacity, f.trace, 0, 2) && Releases(window, f.trace, 2, 0) && BypassedBy(f, window, 0, 2)
  {
    assert After(window, capacity, f.trace, 0).pending == map[];
    assert f.beside[0].item.key == f.trace[0].input.key && f.beside[0].at <= 2;
  }
}
