/** The bounded ingress queue of internal/ingest/queue.go and the collector that drains it. */
module IngestQueue {
  import opened Common
  import opened Protocol

  predicate IsCoalescible(t: EventType) {
    t.FileRead? || t.FileFocused?
  }

  predicate HighValue(t: EventType) {
    t.FileCreated? || t.FileModified? || t.FilePatched? || t.FileRenamed? || t.FileMoved? || t.FileDeleted? ||
    t.DirectoryCreated? || t.DirectoryRenamed? || t.DirectoryDeleted? || t.SessionStarted? || t.SessionStopped?
  }

  /** A queued event and its place among all offers that were taken in. */
  datatype Entry = Entry(event: Event, serial: nat)

  datatype Queue = Queue(capacity: nat, items: seq<Entry>, next: nat, accepted: nat, dropped: nat, coalesced: nat)

  predicate SameRead(a: Event, b: Event) {
    a.eventType == b.eventType && a.path == b.path && a.sessionId == b.sessionId
  }

  /** The last queued event a read may replace, among the first n; n itself when there is none. */
  function FindSame(items: seq<Entry>, e: Event, n: nat): (k: int)
    requires n <= |items|
    ensures -1 <= k < n
    ensures 0 <= k ==> SameRead(items[k].event, e)
    ensures forall j :: k < j < n ==> !SameRead(items[j].event, e)
  {
    if n == 0 then -1 else if SameRead(items[n - 1].event, e) then n - 1 else FindSame(items, e, n - 1)
  }

  /** The first queued event of low value, from n on. */
  function FindLow(items: seq<Entry>, n: nat): (k: nat)
    requires n <= |items|
    ensures n <= k <= |items|
    ensures k < |items| ==> !HighValue(items[k].event.eventType)
    ensures forall j :: n <= j < k ==> HighValue(items[j].event.eventType)
    decreases |items| - n
  {
    if n == |items| || !HighValue(items[n].event.eventType) then n else FindLow(items, n + 1)
  }

  datatype Outcome = Coalesced(k: nat) | Appended | Displaced(k: nat) | Refused

  /** What happens to an offer, and to what it meets. */
  function Decide(q: Queue, e: Event): (o: Outcome)
    ensures o.Coalesced? ==> o.k < |q.items|
    ensures o.Displaced? ==> o.k < |q.items|
  {
    var same := if IsCoalescible(e.eventType) then FindSame(q.items, e, |q.items|) else -1;
    if same >= 0 then Coalesced(same)
    else if |q.items| != q.capacity then Appended
    else if !HighValue(e.eventType) then Refused
    else
      var low := FindLow(q.items, 0);
      if low < |q.items| then Displaced(low) else Refused
  }

  function Offer(q: Queue, e: Event): Queue {
    var entry := Entry(e, q.next);
    match Decide(q, e)
    case Coalesced(k) => q.(items := q.items[k := entry], next := q.next + 1, coalesced := q.coalesced + 1)
    case Appended => q.(items := q.items + [entry], next := q.next + 1, accepted := q.accepted + 1)
    case Displaced(k) =>
      q.(items := RemoveAt(q.items, k) + [entry], next := q.next + 1, accepted := q.accepted + 1, dropped := q.dropped + 1)
    case Refused => q.(dropped := q.dropped + 1)
  }

  function Pop(q: Queue): Queue {
    if q.items == [] then q else q.(items := q.items[1..])
  }

  class QueueObject {
    const capacity: nat
    var items: seq<Entry>
    var next: nat
    var accepted: nat
    var dropped: nat
    var coalesced: nat

    function View(): Queue
      reads this
    {
      Queue(capacity, items, next, accepted, dropped, coalesced)
    }

    constructor (capacity: int)
      ensures View() == Queue(Max(1, capacity), [], 0, 0, 0, 0)
    {
      this.capacity := if capacity < 1 then 1 else capacity;
      items, next, accepted, dropped, coalesced := [], 0, 0, 0, 0;
    }

    method OfferEvent(e: Event) returns (ok: bool)
      modifies this
      ensures View() == Offer(old(View()), e)
      ensures ok <==> !Decide(old(View()), e).Refused?
    {
      var entry := Entry(e, next);
      if IsCoalescible(e.eventType) {
        var i := |items| - 1;
        while i >= 0
          invariant -1 <= i < |items|
          invariant FindSame(items, e, |items|) == FindSame(items, e, i + 1)
        {
          if SameRead(items[i].event, e) {
            items := items[i := entry];
            next, coalesced := next + 1, coalesced + 1;
            return true;
          }
          i := i - 1;
        }
      }
      if |items| == capacity {
        if !HighValue(e.eventType) {
          dropped := dropped + 1;
          return false;
        }
        var drop := -1;
        for i := 0 to |items|
          invariant drop == -1 && FindLow(items, 0) == FindLow(items, i)
        {
          if !HighValue(items[i].event.eventType) {
            drop := i;
            break;
          }
        }
        if drop < 0 {
          dropped := dropped + 1;
          return false;
        }
        items := items[..drop] + items[drop + 1..];
        dropped := dropped + 1;
      }
      items := items + [entry];
      next, accepted := next + 1, accepted + 1;
      return true;
    }

    method PopEvent() returns (entry: Option<Entry>)
      modifies this
      ensures View() == Pop(old(View()))
      ensures entry == if old(items) == [] then None else Some(old(items)[0])
    {
      if |items| == 0 {
        return None;
      }
      entry := Some(items[0]);
      items := items[1..];
    }
  }

  // ----- runs of offers and pops -----

  datatype Op = Offers(event: Event) | Pops

  /** A queue and what has come of everything offered so far. */
  datatype Run = Run(queue: Queue, popped: seq<Entry>, taken: seq<Event>, displaced: nat, refused: nat)

  function Step(r: Run, op: Op): Run {
    match op
    case Pops => Run(Pop(r.queue), if r.queue.items == [] then r.popped else r.popped + [r.queue.items[0]], r.taken, r.displaced, r.refused)
    case Offers(e) =>
      var o := Decide(r.queue, e);
      Run(Offer(r.queue, e), r.popped, if o.Refused? then r.taken else r.taken + [e],
          r.displaced + (if o.Displaced? then 1 else 0), r.refused + (if o.Refused? then 1 else 0))
  }

  function After(capacity: nat, ops: seq<Op>): Run {
    if ops == [] then Run(Queue(capacity, [], 0, 0, 0, 0), [], [], 0, 0)
    else Step(After(capacity, ops[..|ops| - 1]), ops[|ops| - 1])
  }

  function HighEvents(events: seq<Event>): seq<Event> {
    if events == [] then []
    else HighEvents(events[..|events| - 1]) + if HighValue(events[|events| - 1].eventType) then [events[|events| - 1]] else []
  }

  function Events(entries: seq<Entry>): seq<Event> {
    seq(|entries|, i requires 0 <= i < |entries| => entries[i].event)
  }

  lemma {:induction false} HighConcat(a: seq<Event>, b: seq<Event>)
    ensures HighEvents(a + b) == HighEvents(a) + HighEvents(b)
  {
    if b == [] {
      assert a + b == a;
    } else {
      assert (a + b)[..|a + b| - 1] == a + b[..|b| - 1];
      HighConcat(a, b[..|b| - 1]);
    }
  }

  lemma HighOne(e: Event)
    ensures HighEvents([e]) == if HighValue(e.eventType) then [e] else []
  {
    assert [e][..0] == [];
  }

  /** An event of low value can come, go or change at any place without being noticed. */
  lemma HighAround(a: seq<Event>, e: Event, b: seq<Event>)
    ensures HighEvents(a + [e] + b) == HighEvents(a) + (if HighValue(e.eventType) then [e] else []) + HighEvents(b)
  {
    HighConcat(a + [e], b);
    HighConcat(a, [e]);
    HighOne(e);
  }

  /** First in, first out for high-value events: what was popped, then what is queued, is what was taken in. */
  ghost predicate HighInOrder(r: Run) {
    HighEvents(Events(r.popped)) + HighEvents(Events(r.queue.items)) == HighEvents(r.taken)
  }

  lemma OfferHigh(r: Run, e: Event)
    requires HighInOrder(r)
    ensures HighInOrder(Step(r, Offers(e)))
  {
    hide HighEvents, HighValue;
    var items := r.queue.items;
    var t := Step(r, Offers(e)).queue.items;
    HighConcat(r.taken, [e]);
    HighOne(e);
    match Decide(r.queue, e) {
      case Coalesced(k) =>
        assert Events(items) == Events(items[..k]) + [items[k].event] + Events(items[k + 1..]);
        assert Events(t) == Events(items[..k]) + [e] + Events(items[k + 1..]);
        HighAround(Events(items[..k]), items[k].event, Events(items[k + 1..]));
        HighAround(Events(items[..k]), e, Events(items[k + 1..]));
        CoalescibleIsLow(e, items[k].event);
      case Appended =>
        assert Events(t) == Events(items) + [e];
        HighConcat(Events(items), [e]);
      case Displaced(k) =>
        assert Events(items) == Events(items[..k]) + [items[k].event] + Events(items[k + 1..]);
        assert Events(t) == Events(items[..k]) + Events(items[k + 1..]) + [e];
        HighAround(Events(items[..k]), items[k].event, Events(items[k + 1..]));
        HighConcat(Events(items[..k]), Events(items[k + 1..]));
        HighConcat(Events(items[..k]) + Events(items[k + 1..]), [e]);
      case Refused =>
    }
  }

  lemma CoalescibleIsLow(e: Event, other: Event)
    requires IsCoalescible(e.eventType) && SameRead(other, e)
    ensures !HighValue(e.eventType) && !HighValue(other.eventType)
  {
  }

  lemma PopHigh(r: Run)
    requires HighInOrder(r)
    ensures HighInOrder(Step(r, Pops))
  {
    hide HighEvents;
    if r.queue.items != [] {
      var first, rest := r.queue.items[0], r.queue.items[1..];
      assert Events(r.queue.items) == [first.event] + Events(rest);
      assert Events(r.popped + [first]) == Events(r.popped) + [first.event];
      HighConcat([first.event], Events(rest));
      HighConcat(Events(r.popped), [first.event]);
    }
  }

  /** No two queued reads or focuses could have been coalesced. */
  ghost predicate NoRepeatedReads(items: seq<Entry>) {
    forall i, j :: 0 <= i < j < |items| && IsCoalescible(items[i].event.eventType) ==> !SameRead(items[i].event, items[j].event)
  }

  ghost predicate CountsOk(r: Run) {
    && |r.queue.items| <= r.queue.capacity
    && r.queue.accepted == |r.popped| + |r.queue.items| + r.displaced
    && r.queue.dropped == r.refused + r.displaced
    && |r.taken| == r.queue.accepted + r.queue.coalesced == r.queue.next
  }

  lemma StepCounts(r: Run, op: Op)
    requires CountsOk(r) && NoRepeatedReads(r.queue.items)
    ensures CountsOk(Step(r, op)) && NoRepeatedReads(Step(r, op).queue.items) && Step(r, op).queue.capacity == r.queue.capacity
  {
    hide HighValue;
    if op.Offers? {
      var o := Decide(r.queue, op.event);
      if o.Displaced? {
        RemoveKeepsReads(r.queue.items, o.k);
      }
    }
  }

  lemma RemoveKeepsReads(items: seq<Entry>, k: nat)
    requires k < |items| && NoRepeatedReads(items)
    ensures NoRepeatedReads(RemoveAt(items, k))
  {
  }

  /** For every run of offers and pops. */
  lemma {:induction false} EveryRun(capacity: nat, ops: seq<Op>)
    ensures var r := After(capacity, ops);
            && r.queue.capacity == capacity
            && HighInOrder(r) && CountsOk(r) && NoRepeatedReads(r.queue.items)
  {
    hide HighInOrder, CountsOk, NoRepeatedReads, Decide;
    if ops == [] {
      EmptyRun(capacity);
    } else {
      var before, op := After(capacity, ops[..|ops| - 1]), ops[|ops| - 1];
      EveryRun(capacity, ops[..|ops| - 1]);
      StepCounts(before, op);
      if op.Offers? {
        OfferHigh(before, op.event);
      } else {
        PopHigh(before);
      }
    }
  }

  lemma EmptyRun(capacity: nat)
    ensures var r := Run(Queue(capacity, [], 0, 0, 0, 0), [], [], 0, 0);
            HighInOrder(r) && CountsOk(r) && NoRepeatedReads(r.queue.items)
  {
  }

  /** A high-value offer is refused exactly when the queue is full of high-value events. */
  lemma HighRefusedIff(q: Queue, e: Event)
    requires HighValue(e.eventType)
    ensures Decide(q, e).Refused? <==> |q.items| == q.capacity && forall k :: 0 <= k < |q.items| ==> HighValue(q.items[k].event.eventType)
  {
  }

  // ----- what becomes of an offer, told by types and places -----

  /** Reads of one file are merged; these are never given up for others. */
  const MERGED_TYPES: set<EventType> := {FileRead, FileFocused}
  const KEPT_TYPES: set<EventType> := {
    FileCreated, FileModified, FilePatched, FileRenamed, FileMoved, FileDeleted,
    DirectoryCreated, DirectoryRenamed, DirectoryDeleted, SessionStarted, SessionStopped
  }

  /** The queued event is of the offered one's type, session and path. */
  predicate IsRepeat(queued: Event, e: Event) {
    queued.eventType == e.eventType && queued.sessionId == e.sessionId && queued.path == e.path
  }

  /** The offer takes the place of the last queued repeat. */
  ghost predicate MergedAt(q: Queue, e: Event, t: Queue, k: nat) {
    && k < |q.items| && IsRepeat(q.items[k].event, e) && (forall j :: k < j < |q.items| ==> !IsRepeat(q.items[j].event, e))
    && t == q.(items := q.items[k := Entry(e, q.next)], next := q.next + 1, coalesced := q.coalesced + 1)
  }

  /** The offer goes to the end, and the first queued event that may be given up goes. */
  ghost predicate MadeRoomAt(q: Queue, e: Event, t: Queue, k: nat) {
    && k < |q.items| && q.items[k].event.eventType !in KEPT_TYPES
    && (forall j :: 0 <= j < k ==> q.items[j].event.eventType in KEPT_TYPES)
    && t == q.(items := q.items[..k] + q.items[k + 1..] + [Entry(e, q.next)], next := q.next + 1, accepted := q.accepted + 1, dropped := q.dropped + 1)
  }

  ghost predicate IsMerged(q: Queue, e: Event, t: Queue) {
    exists k :: MergedAt(q, e, t, k)
  }

  ghost predicate HasMadeRoom(q: Queue, e: Event, t: Queue) {
    exists k :: MadeRoomAt(q, e, t, k)
  }

  /** Which of the four things happens, and what it does to queue and counters. */
  lemma OfferLaw(q: Queue, e: Event)
    ensures var t := Offer(q, e);
            if e.eventType in MERGED_TYPES && exists k :: 0 <= k < |q.items| && IsRepeat(q.items[k].event, e) then IsMerged(q, e, t)
            else if |q.items| != q.capacity then
              t == q.(items := q.items + [Entry(e, q.next)], next := q.next + 1, accepted := q.accepted + 1)
            else if e.eventType in KEPT_TYPES && exists k :: 0 <= k < |q.items| && q.items[k].event.eventType !in KEPT_TYPES
            then HasMadeRoom(q, e, t)
            else t == q.(dropped := q.dropped + 1)
  {
    hide HighValue, IsCoalescible, SameRead;
    var t := Offer(q, e);
    forall x: EventType ensures (IsCoalescible(x) <==> x in MERGED_TYPES) && (HighValue(x) <==> x in KEPT_TYPES) {
      TypesAreSorted(x);
    }
    forall k | 0 <= k < |q.items| ensures SameRead(q.items[k].event, e) <==> IsRepeat(q.items[k].event, e) {
      ReadsRepeat(q.items[k].event, e);
    }
    match Decide(q, e)
    case Coalesced(k) => assert MergedAt(q, e, t, k);
    case Displaced(k) => assert MadeRoomAt(q, e, t, k);
    case _ =>
  }

  lemma ReadsRepeat(queued: Event, e: Event)
    ensures SameRead(queued, e) <==> IsRepeat(queued, e)
  {
  }

  lemma TypesAreSorted(t: EventType)
    ensures IsCoalescible(t) <==> t in MERGED_TYPES
    ensures HighValue(t) <==> t in KEPT_TYPES
  {
  }
}
