/**
 The bounded work-delta pipeline of internal/diff/pipeline.go: concurrent offers, one worker,
 cancellation. Every lock-protected section and every channel operation is one step.
 */
module WorkPipeline {
  import opened Common

  type Key = string

  // ----- the state behind the lock -----

  datatype Ledger = Ledger(
    pending: set<Key>,
    recent: set<Key>,
    order: seq<Key>,
    maxRecent: nat,
    accepted: nat,
    dropped: nat,
    duplicates: nat,
    completed: nat)

  predicate IsKnown(l: Ledger, key: Key) {
    key in l.pending || key in l.recent
  }

  function Reserve(l: Ledger, key: Key): Ledger {
    if IsKnown(l, key) then l.(duplicates := l.duplicates + 1) else l.(pending := l.pending + {key})
  }

  function Refuse(l: Ledger, key: Key): Ledger {
    l.(pending := l.pending - {key}, dropped := l.dropped + 1)
  }

  /** rememberLocked: append, then forget the oldest beyond the limit. */
  function Remember(l: Ledger, key: Key): Ledger {
    if key in l.recent then l
    else
      var order := l.order + [key];
      if |order| <= l.maxRecent then l.(recent := l.recent + {key}, order := order)
      else l.(recent := l.recent + {key} - {order[0]}, order := order[1..])
  }

  function Complete(l: Ledger, key: Key): Ledger {
    Remember(l.(pending := l.pending - {key}), key).(completed := l.completed + 1)
  }

  class Pipeline {
    const maxRecent: nat
    var pending: set<Key>
    var recent: set<Key>
    var order: seq<Key>
    var accepted: nat
    var dropped: nat
    var duplicates: nat
    var completed: nat

    function View(): Ledger
      reads this
    {
      Ledger(pending, recent, order, maxRecent, accepted, dropped, duplicates, completed)
    }

    constructor (capacity: int)
      ensures View() == Ledger({}, {}, [], Max(64, Max(capacity, 1) * 4), 0, 0, 0, 0)
    {
      var slots := if capacity < 1 then 1 else capacity;
      maxRecent := Max(64, slots * 4);
      pending, recent, order := {}, {}, [];
      accepted, dropped, duplicates, completed := 0, 0, 0, 0;
    }

    /** The first locked section of Offer. */
    method OfferReserve(key: Key) returns (duplicate: bool)
      modifies this
      ensures View() == Reserve(old(View()), key) && duplicate == IsKnown(old(View()), key)
      ensures duplicate <==> key in old(pending) || key in old(recent)
      ensures duplicate ==> pending == old(pending) && duplicates == old(duplicates) + 1
      ensures !duplicate ==> pending == old(pending) + {key} && duplicates == old(duplicates)
      ensures recent == old(recent) && order == old(order) && accepted == old(accepted) && dropped == old(dropped) && completed == old(completed)
    {
      if key in pending || key in recent {
        duplicates := duplicates + 1;
        return true;
      }
      pending := pending + {key};
      return false;
    }

    /** The locked section of a refused offer. */
    method OfferRefused(key: Key)
      modifies this
      ensures View() == Refuse(old(View()), key)
      ensures pending == old(pending) - {key} && dropped == old(dropped) + 1 && recent == old(recent) && order == old(order)
      ensures accepted == old(accepted) && duplicates == old(duplicates) && completed == old(completed)
    {
      pending := pending - {key};
      dropped := dropped + 1;
    }

    method RememberLocked(key: Key)
      modifies this
      ensures View() == Remember(old(View()), key)
    {
      if key in recent {
        return;
      }
      recent := recent + {key};
      order := order + [key];
      if |order| <= maxRecent {
        return;
      }
      var oldest := order[0];
      order := order[1..];
      recent := recent - {oldest};
    }

    /** The locked section of publish. */
    method Published(key: Key)
      modifies this
      ensures View() == Complete(old(View()), key)
      ensures pending == old(pending) - {key} && completed == old(completed) + 1
      ensures accepted == old(accepted) && dropped == old(dropped) && duplicates == old(duplicates)
    {
      pending := pending - {key};
      RememberLocked(key);
      completed := completed + 1;
    }
  }

  // ----- the step system -----

  /** batch is what is being processed; done and skipped say how its requests fared, base where its results start. */
  datatype Worker =
    | Idle
    | Collecting(batch: seq<Key>)
    | Processing(batch: seq<Key>, done: seq<Key>, skipped: seq<Key>, todo: seq<Key>, base: nat)
    | Recording(batch: seq<Key>, done: seq<Key>, skipped: seq<Key>, todo: seq<Key>, base: nat, key: Key)
    | Stopped

  /** uncounted is how many offers have sent their request and have not yet come to the locked section that counts it. */
  datatype System = System(
    capacity: nat,
    batchSize: nat,
    ledger: Ledger,
    offers: seq<Key>,
    refusing: seq<Key>,
    uncounted: nat,
    queue: seq<Key>,
    worker: Worker,
    sent: seq<Key>,
    unread: nat,
    recorded: seq<Key>,
    abandoned: seq<Key>,
    cancelled: bool)

  function Initial(capacity: nat, batchSize: nat, maxRecent: nat): System {
    System(capacity, batchSize, Ledger({}, {}, [], maxRecent, 0, 0, 0, 0), [], [], 0, [], Idle, [], 0, [], [], false)
  }

  datatype Step =
    | OfferBegins(key: Key)
    | OfferSends(i: nat)
    | OfferCounts
    | OfferGivesUp(i: nat)
    | OfferRefused(i: nat)
    | WorkerTakes
    | WorkerProcesses(todo: seq<Key>)
    | WorkerSends
    | WorkerSkips
    | WorkerRecords
    | WorkerFinishes
    | WorkerQuits
    | ClientReceives
    | Cancel

  predicate Enabled(s: System, step: Step) {
    match step
    case OfferBegins(key) => true
    case OfferSends(i) => i < |s.offers| && |s.queue| < s.capacity
    case OfferCounts => 0 < s.uncounted
    case OfferGivesUp(i) => i < |s.offers| && (s.cancelled || |s.queue| == s.capacity)
    case OfferRefused(i) => i < |s.refusing|
    case WorkerTakes => s.queue != [] && (s.worker.Idle? || (s.worker.Collecting? && |s.worker.batch| < s.batchSize))
    case WorkerProcesses(todo) => s.worker.Collecting? && multiset(todo) == multiset(s.worker.batch)
    case WorkerSends => s.worker.Processing? && s.worker.todo != [] && s.unread < 2 * s.capacity
    case WorkerSkips => s.worker.Processing? && s.worker.todo != [] && s.cancelled
    case WorkerRecords => s.worker.Recording?
    case WorkerFinishes => s.worker.Processing? && s.worker.todo == []
    case WorkerQuits => s.cancelled && (s.worker.Idle? || s.worker.Collecting?)
    case ClientReceives => s.unread > 0
    case Cancel => true
  }

  function Next(s: System, step: Step): System
    requires Enabled(s, step)
  {
    var w := s.worker;
    match step
    case OfferBegins(key) =>
      if key == "" then s
      else s.(ledger := Reserve(s.ledger, key), offers := if IsKnown(s.ledger, key) then s.offers else s.offers + [key])
    case OfferSends(i) =>
      s.(offers := RemoveAt(s.offers, i), queue := s.queue + [s.offers[i]], uncounted := s.uncounted + 1)
    case OfferCounts =>
      s.(uncounted := s.uncounted - 1, ledger := s.ledger.(accepted := s.ledger.accepted + 1))
    case OfferGivesUp(i) =>
      s.(offers := RemoveAt(s.offers, i), refusing := s.refusing + [s.offers[i]])
    case OfferRefused(i) =>
      s.(refusing := RemoveAt(s.refusing, i), ledger := Refuse(s.ledger, s.refusing[i]))
    case WorkerTakes =>
      s.(queue := s.queue[1..], worker := Collecting((if w.Idle? then [] else w.batch) + [s.queue[0]]))
    case WorkerProcesses(todo) =>
      s.(worker := Processing(w.batch, [], [], todo, |s.sent|))
    case WorkerSends =>
      s.(sent := s.sent + [w.todo[0]], unread := s.unread + 1,
         worker := Recording(w.batch, w.done, w.skipped, w.todo[1..], w.base, w.todo[0]))
    case WorkerSkips =>
      s.(abandoned := s.abandoned + [w.todo[0]],
         worker := Processing(w.batch, w.done, w.skipped + [w.todo[0]], w.todo[1..], w.base))
    case WorkerRecords =>
      s.(ledger := Complete(s.ledger, w.key), recorded := s.recorded + [w.key],
         worker := Processing(w.batch, w.done + [w.key], w.skipped, w.todo, w.base))
    case WorkerFinishes => s.(worker := Idle)
    case WorkerQuits =>
      s.(worker := Stopped, abandoned := s.abandoned + if w.Collecting? then w.batch else [])
    case ClientReceives => s.(unread := s.unread - 1)
    case Cancel => s.(cancelled := true)
  }

  /** The keys the worker holds. */
  function Held(w: Worker): seq<Key> {
    match w
    case Idle => []
    case Collecting(batch) => batch
    case Processing(_, _, _, todo, _) => todo
    case Recording(_, _, _, todo, _, key) => [key] + todo
    case Stopped => []
  }

  function Count(log: seq<Key>, key: Key): nat {
    multiset(log)[key]
  }

  /** How many requests in flight hold the key. */
  function Holders(s: System, key: Key): nat {
    Count(s.offers, key) + Count(s.refusing, key) + Count(s.queue, key) + Count(Held(s.worker), key) + Count(s.abandoned, key)
  }

  // ----- the invariant -----

  /** recent and order: exactly the last completions, each once. */
  ghost predicate RecentOk(s: System) {
    && s.ledger.recent == Elements(s.ledger.order) && Distinct(s.ledger.order)
    && s.ledger.order == s.recorded[Max(0, |s.recorded| - s.ledger.maxRecent)..]
    && s.ledger.pending !! s.ledger.recent
  }

  /** Equal entries of the log are more than gap apart. */
  ghost predicate Spaced(log: seq<Key>, gap: nat) {
    forall i, j :: 0 <= i < j < |log| && log[i] == log[j] ==> gap < j - i
  }

  ghost predicate BatchOk(s: System) {
    match s.worker
    case Processing(batch, done, skipped, todo, base) =>
      && base <= |s.sent| && s.sent[base..] == done
      && multiset(batch) == multiset(done) + multiset(skipped) + multiset(todo)
      && (!s.cancelled ==> skipped == [])
    case Recording(batch, done, skipped, todo, base, key) =>
      && base <= |s.sent| && s.sent[base..] == done + [key]
      && multiset(batch) == multiset(done) + multiset(skipped) + multiset([key] + todo)
      && (!s.cancelled ==> skipped == [])
    case _ => true
  }

  ghost predicate CountsOk(s: System) {
    && s.sent == s.recorded + (if s.worker.Recording? then [s.worker.key] else [])
    && s.ledger.completed == |s.recorded|
    && s.ledger.accepted + s.uncounted == |s.queue| + |Held(s.worker)| + |s.abandoned| + s.ledger.completed
    && |s.queue| <= s.capacity && s.unread <= 2 * s.capacity
    && (s.worker.Collecting? ==> 0 < |s.worker.batch| <= s.batchSize)
    && (!s.cancelled ==> s.abandoned == [])
  }

  /** Each pending key is held by exactly one request in flight, and no other key by any. */
  ghost predicate OneHolderEach(s: System) {
    forall key :: Holders(s, key) == if key in s.ledger.pending then 1 else 0
  }

  ghost predicate Inv(s: System) {
    OneHolderEach(s) && RecentOk(s) && Spaced(s.recorded, s.ledger.maxRecent) && BatchOk(s) && CountsOk(s) && 0 < s.batchSize
  }

  lemma CountBasics(key: Key)
    ensures Count([], key) == 0 && Count([key], key) == 1
    ensures forall other :: other != key ==> Count([other], key) == 0
  {
  }

  lemma CountConcat(a: seq<Key>, b: seq<Key>, key: Key)
    ensures Count(a + b, key) == Count(a, key) + Count(b, key)
  {
  }

  lemma CountSame(a: seq<Key>, b: seq<Key>, key: Key)
    requires multiset(a) == multiset(b)
    ensures Count(a, key) == Count(b, key)
  {
  }

  lemma CountRemoved(log: seq<Key>, i: nat, key: Key)
    requires i < |log|
    ensures Count(RemoveAt(log, i), key) + Count([log[i]], key) == Count(log, key)
  {
    RemoveAtMultiset(log, i);
  }

  lemma CountFirst(log: seq<Key>, key: Key)
    requires log != []
    ensures Count(log, key) == Count([log[0]], key) + Count(log[1..], key)
  {
    assert log == [log[0]] + log[1..];
  }

  /** A step of an offer. */
  predicate MovesOffer(step: Step) {
    step.OfferBegins? || step.OfferSends? || step.OfferCounts? || step.OfferGivesUp? || step.OfferRefused?
  }

  lemma OfferHolder(s: System, step: Step, key: Key)
    requires Enabled(s, step) && Holders(s, key) == if key in s.ledger.pending then 1 else 0
    requires MovesOffer(step)
    ensures Holders(Next(s, step), key) == if key in Next(s, step).ledger.pending then 1 else 0
  {
    hide Remember, Complete, Count, RemoveAt, Held;
    CountBasics(key);
    match step {
      case OfferBegins(k) => CountConcat(s.offers, [k], key);
      case OfferSends(i) =>
        CountRemoved(s.offers, i, key);
        CountConcat(s.queue, [s.offers[i]], key);
      case OfferCounts =>
      case OfferGivesUp(i) =>
        CountRemoved(s.offers, i, key);
        CountConcat(s.refusing, [s.offers[i]], key);
      case OfferRefused(i) => CountRemoved(s.refusing, i, key);
    }
  }

  lemma HolderStep(s: System, step: Step, key: Key)
    requires Enabled(s, step) && Holders(s, key) == if key in s.ledger.pending then 1 else 0
    ensures Holders(Next(s, step), key) == if key in Next(s, step).ledger.pending then 1 else 0
  {
    hide Remember, Complete, Count, RemoveAt, Reserve, Refuse, IsKnown;
    CountBasics(key);
    match step {
      case WorkerTakes =>
        CountFirst(s.queue, key);
        CountConcat(if s.worker.Idle? then [] else s.worker.batch, [s.queue[0]], key);
      case WorkerProcesses(todo) => CountSame(todo, s.worker.batch, key);
      case WorkerSends =>
        CountFirst(s.worker.todo, key);
        CountConcat([s.worker.todo[0]], s.worker.todo[1..], key);
      case WorkerSkips =>
        CountFirst(s.worker.todo, key);
        CountConcat(s.abandoned, [s.worker.todo[0]], key);
      case WorkerRecords =>
        CountConcat([s.worker.key], s.worker.todo, key);
        CompletePending(s.ledger, s.worker.key);
      case WorkerFinishes =>
      case WorkerQuits => CountConcat(s.abandoned, Held(s.worker), key);
      case ClientReceives =>
      case Cancel =>
      case _ => OfferHolder(s, step, key);
    }
  }

  lemma HoldersStep(s: System, step: Step)
    requires Enabled(s, step) && OneHolderEach(s)
    ensures OneHolderEach(Next(s, step))
  {
    forall key ensures Holders(Next(s, step), key) == if key in Next(s, step).ledger.pending then 1 else 0 {
      HolderStep(s, step, key);
    }
  }

  lemma CompletePending(l: Ledger, key: Key)
    ensures Complete(l, key).pending == l.pending - {key}
    ensures Complete(l, key).maxRecent == l.maxRecent && Complete(l, key).completed == l.completed + 1
    ensures Complete(l, key).accepted == l.accepted
  {
  }

  /** Forgetting the oldest keeps order the tail of the completions. */
  lemma RememberTail(l: Ledger, recorded: seq<Key>, key: Key)
    requires l.recent == Elements(l.order) && Distinct(l.order) && key !in l.recent
    requires l.order == recorded[Max(0, |recorded| - l.maxRecent)..]
    ensures var m := Remember(l, key);
            && m.order == (recorded + [key])[Max(0, |recorded| + 1 - l.maxRecent)..]
            && m.recent == Elements(m.order) && Distinct(m.order)
            && m.recent <= l.recent + {key} && m.pending == l.pending && m.maxRecent == l.maxRecent
  {
    var order := l.order + [key];
    ElementsSnoc(l.order, key);
    if |order| > l.maxRecent {
      DropFirst(order);
    }
  }

  lemma DropFirst(order: seq<Key>)
    requires order != [] && Distinct(order)
    ensures Distinct(order[1..]) && Elements(order[1..]) == Elements(order) - {order[0]}
  {
    assert order == [order[0]] + order[1..];
    forall x ensures x in order[1..] <==> x in order && x != order[0] {
      if x in order && x != order[0] {
        var i :| 0 <= i < |order| && order[i] == x;
        assert order[1..][i - 1] == x;
      }
    }
  }

  lemma SpacedSnoc(log: seq<Key>, gap: nat, key: Key)
    requires Spaced(log, gap) && key !in log[Max(0, |log| - gap)..]
    ensures Spaced(log + [key], gap)
  {
    var lo := Max(0, |log| - gap);
    forall k | lo <= k < |log| ensures log[k] in log[lo..] {
      assert log[lo..][k - lo] == log[k];
    }
    assert forall i :: 0 <= i < |log| && log[i] == key ==> i < lo;
  }

  lemma RecordingIsPending(s: System)
    requires OneHolderEach(s) && s.worker.Recording?
    ensures s.worker.key in s.ledger.pending
  {
    assert Held(s.worker)[0] == s.worker.key;
    assert s.worker.key in multiset(Held(s.worker));
    assert Holders(s, s.worker.key) > 0;
  }

  lemma RecordStep(s: System)
    requires Inv(s) && s.worker.Recording?
    ensures var t := Next(s, WorkerRecords);
            RecentOk(t) && Spaced(t.recorded, t.ledger.maxRecent)
  {
    hide Remember;
    var key := s.worker.key;
    RecordingIsPending(s);
    var l := s.ledger.(pending := s.ledger.pending - {key});
    RememberTail(l, s.recorded, key);
    assert key !in s.ledger.order;
    SpacedSnoc(s.recorded, s.ledger.maxRecent, key);
    assert Remember(l, key).recent * l.pending == {};
  }

  lemma RecentStep(s: System, step: Step)
    requires Inv(s) && Enabled(s, step)
    ensures RecentOk(Next(s, step)) && Spaced(Next(s, step).recorded, Next(s, step).ledger.maxRecent)
  {
    hide OneHolderEach, BatchOk, CountsOk, Spaced;
    if step.WorkerRecords? {
      RecordStep(s);
    } else {
      assert Next(s, step).recorded == s.recorded && Next(s, step).ledger.recent == s.ledger.recent;
      assert Next(s, step).ledger.order == s.ledger.order;
      if step.OfferBegins? {
        assert Next(s, step).ledger.pending <= s.ledger.pending + if IsKnown(s.ledger, step.key) then {} else {step.key};
      } else {
        assert Next(s, step).ledger.pending <= s.ledger.pending;
      }
    }
  }

  lemma BatchTakesOne(w: Worker)
    requires w.Processing? && w.todo != []
    ensures multiset(w.todo) == multiset([w.todo[0]] + w.todo[1..]) == multiset([w.todo[0]]) + multiset(w.todo[1..])
    ensures multiset(w.skipped + [w.todo[0]]) == multiset(w.skipped) + multiset([w.todo[0]])
  {
    assert w.todo == [w.todo[0]] + w.todo[1..];
  }

  lemma BatchMoves(s: System, step: Step)
    requires Enabled(s, step) && BatchOk(s) && (step.WorkerSends? || step.WorkerSkips?)
    ensures BatchOk(Next(s, step))
  {
    hide Remember, Complete, Reserve, Refuse, IsKnown, RemoveAt;
    BatchTakesOne(s.worker);
  }

  lemma BatchRecords(s: System)
    requires Enabled(s, WorkerRecords) && BatchOk(s)
    ensures BatchOk(Next(s, WorkerRecords))
  {
    hide Remember, Complete;
  }

  lemma BatchStep(s: System, step: Step)
    requires Enabled(s, step) && BatchOk(s)
    ensures BatchOk(Next(s, step))
  {
    hide Remember, Complete, Reserve, Refuse, IsKnown, RemoveAt;
    match step {
      case WorkerSends => BatchMoves(s, step);
      case WorkerSkips => BatchMoves(s, step);
      case WorkerRecords => BatchRecords(s);
      case WorkerProcesses(_) => assert s.sent[|s.sent|..] == [];
      case _ =>
    }
  }

  lemma OfferCountsStep(s: System, step: Step)
    requires Enabled(s, step) && CountsOk(s) && MovesOffer(step)
    ensures CountsOk(Next(s, step))
  {
    hide IsKnown, RemoveAt, Held;
  }

  lemma WorkerCountsStep(s: System, step: Step)
    requires Enabled(s, step) && CountsOk(s) && 0 < s.batchSize && !MovesOffer(step)
    ensures CountsOk(Next(s, step))
  {
    hide Reserve, Refuse, RemoveAt, Complete;
    match step {
      case WorkerProcesses(todo) => SameMultiset(todo, s.worker.batch);
      case WorkerRecords => CompletePending(s.ledger, s.worker.key);
      case _ =>
    }
  }

  lemma CountsStep(s: System, step: Step)
    requires Enabled(s, step) && CountsOk(s) && 0 < s.batchSize
    ensures CountsOk(Next(s, step))
  {
    hide CountsOk, Next;
    if MovesOffer(step) {
      OfferCountsStep(s, step);
    } else {
      WorkerCountsStep(s, step);
    }
  }

  lemma InvStep(s: System, step: Step)
    requires Inv(s) && Enabled(s, step)
    ensures Inv(Next(s, step))
  {
    HoldersStep(s, step);
    RecentStep(s, step);
    BatchStep(s, step);
    CountsStep(s, step);
  }

  // ----- runs -----

  ghost predicate IsRun(run: seq<System>, steps: seq<Step>) {
    && |run| == |steps| + 1
    && (forall k :: 0 <= k < |steps| ==> Enabled(run[k], steps[k]) && run[k + 1] == Next(run[k], steps[k]))
  }

  lemma {:induction false} RunKeepsInv(run: seq<System>, steps: seq<Step>, k: nat)
    requires IsRun(run, steps) && k < |run|
    requires exists c: nat, b: nat, m: nat :: 0 < b && run[0] == Initial(c, b, m)
    ensures Inv(run[k]) && run[k].ledger.maxRecent == run[0].ledger.maxRecent
  {
    hide Inv;
    if k == 0 {
      var c: nat, b: nat, m: nat :| 0 < b && run[0] == Initial(c, b, m);
      InitialInv(c, b, m);
    } else {
      RunKeepsInv(run, steps, k - 1);
      InvStep(run[k - 1], steps[k - 1]);
      MaxRecentFixed(run[k - 1], steps[k - 1]);
      assert run[k] == Next(run[k - 1], steps[k - 1]);
    }
  }

  lemma InitialInv(c: nat, b: nat, m: nat)
    requires 0 < b
    ensures Inv(Initial(c, b, m))
  {
    var s := Initial(c, b, m);
    assert s.recorded[Max(0, 0 - m)..] == [];
  }

  lemma MaxRecentFixed(s: System, step: Step)
    requires Enabled(s, step)
    ensures Next(s, step).ledger.maxRecent == s.ledger.maxRecent
  {
  }

  /** Two results with one key have at least maxRecent other results between them. */
  lemma ResultsAreSpaced(s: System)
    requires Inv(s)
    ensures Spaced(s.sent, s.ledger.maxRecent)
    ensures |s.ledger.order| <= s.ledger.maxRecent
  {
    if s.worker.Recording? {
      var key := s.worker.key;
      RecordingIsPending(s);
      assert key !in s.ledger.recent;
      assert key !in s.ledger.order;
      SpacedSnoc(s.recorded, s.ledger.maxRecent, key);
    }
  }

  /** A finished batch sent each of its requests at most once, and exactly once unless cancelled. */
  lemma BatchPublishesOnce(s: System)
    requires Inv(s) && Enabled(s, WorkerFinishes)
    ensures multiset(s.sent[s.worker.base..]) <= multiset(s.worker.batch)
    ensures !s.cancelled ==> multiset(s.sent[s.worker.base..]) == multiset(s.worker.batch)
  {
  }

  /** Nothing taken in is lost: it is queued, with the worker, completed, or was abandoned to a cancellation. */
  lemma AcceptedIsAccountedFor(s: System)
    requires Inv(s)
    ensures s.ledger.accepted + s.uncounted == |s.queue| + |Held(s.worker)| + s.ledger.completed + |s.abandoned|
    ensures s.ledger.completed == |s.recorded| <= |s.sent|
    ensures !s.cancelled && s.queue == [] && s.worker.Idle? ==> s.ledger.accepted + s.uncounted == |s.sent|
    ensures s.ledger.completed <= s.ledger.accepted <==> s.uncounted <= |s.queue| + |Held(s.worker)| + |s.abandoned|
  {
  }

  /** Counting never takes anything back, and only a recording step completes a request. */
  lemma CountersStep(s: System, step: Step)
    requires Enabled(s, step)
    ensures var t := Next(s, step).ledger;
            && s.ledger.accepted <= t.accepted
            && t.completed == s.ledger.completed + (if step.WorkerRecords? then 1 else 0)
            && (step.WorkerRecords? ==> t.accepted == s.ledger.accepted)
  {
    hide Complete;
    if step.WorkerRecords? {
      CompletePending(s.ledger, s.worker.key);
    }
  }

  ghost predicate CompletedWithinAccepted(run: seq<System>) {
    forall k :: 0 <= k < |run| ==> run[k].ledger.completed <= run[k].ledger.accepted
  }

  /** Completions never exceed the accepted count in a run exactly when each one is recorded while fewer are completed than accepted. */
  lemma CompletedWithinAcceptedIff(run: seq<System>, steps: seq<Step>)
    requires IsRun(run, steps)
    requires exists c: nat, b: nat, m: nat :: 0 < b && run[0] == Initial(c, b, m)
    ensures CompletedWithinAccepted(run) <==>
            forall k :: 0 <= k < |steps| && steps[k].WorkerRecords? ==> run[k].ledger.completed < run[k].ledger.accepted
  {
    hide Next, Initial;
    if CompletedWithinAccepted(run) {
      forall k | 0 <= k < |steps| && steps[k].WorkerRecords? ensures run[k].ledger.completed < run[k].ledger.accepted {
        CountersStep(run[k], steps[k]);
        assert run[k + 1].ledger.completed <= run[k + 1].ledger.accepted;
      }
    }
    if forall k :: 0 <= k < |steps| && steps[k].WorkerRecords? ==> run[k].ledger.completed < run[k].ledger.accepted {
      forall k: nat | k < |run| ensures run[k].ledger.completed <= run[k].ledger.accepted {
        CompletedWithin(run, steps, k);
      }
    }
  }

  lemma {:induction false} CompletedWithin(run: seq<System>, steps: seq<Step>, k: nat)
    requires IsRun(run, steps) && k < |run|
    requires exists c: nat, b: nat, m: nat :: 0 < b && run[0] == Initial(c, b, m)
    requires forall j :: 0 <= j < |steps| && steps[j].WorkerRecords? ==> run[j].ledger.completed < run[j].ledger.accepted
    ensures run[k].ledger.completed <= run[k].ledger.accepted
  {
    if k > 0 {
      CompletedWithin(run, steps, k - 1);
      CountersStep(run[k - 1], steps[k - 1]);
      hide Next;
      assert run[k] == Next(run[k - 1], steps[k - 1]);
    }
  }

  /** A request can be completed before it is counted as accepted. */
  lemma CompletedMayLead(key: Key, run: seq<System>, steps: seq<Step>)
    requires key != "" && IsRun(run, steps) && run[0] == Initial(1, 1, 64)
    requires steps == [OfferBegins(key), OfferSends(0), WorkerTakes, WorkerProcesses([key]), WorkerSends, WorkerRecords]
    ensures run[6].ledger.completed == 1 && run[6].ledger.accepted == 0
  {
    hide Remember, Complete;
    forall k | 0 <= k < 6 ensures run[k + 1] == Next(run[k], steps[k]) {
    }
    assert run[1].offers == [key];
    assert run[2].queue == [key] && run[2].ledger.accepted == 0;
    assert run[3].worker == Collecting([key]);
    assert run[4].worker == Processing([key], [], [], [key], 0);
    assert run[5].worker == Recording([key], [], [], [], 0, key) && run[5].ledger == run[1].ledger;
    CompletePending(run[5].ledger, key);
  }

  /** In every interleaving of offers, worker, client and cancellation, at every point. */
  lemma EveryInterleaving(run: seq<System>, steps: seq<Step>, k: nat)
    requires IsRun(run, steps) && k < |run|
    requires exists c: nat, b: nat, m: nat :: 0 < b && run[0] == Initial(c, b, m)
    ensures BatchOk(run[k])
    ensures var s := run[k];
            && OneHolderEach(s)
            && s.ledger.recent == Elements(s.ledger.order) && Distinct(s.ledger.order)
            && |s.ledger.order| <= run[0].ledger.maxRecent && s.ledger.pending !! s.ledger.recent
            && Spaced(s.sent, run[0].ledger.maxRecent)
            && |s.queue| <= s.capacity
            && (Enabled(s, WorkerFinishes) && !s.cancelled ==> multiset(s.sent[s.worker.base..]) == multiset(s.worker.batch))
            && (Enabled(s, WorkerFinishes) ==> multiset(s.sent[s.worker.base..]) <= multiset(s.worker.batch))
  {
    RunKeepsInv(run, steps, k);
    ResultsAreSpaced(run[k]);
    if Enabled(run[k], WorkerFinishes) {
      BatchPublishesOnce(run[k]);
    }
  }

  // ----- every offer is counted -----

  /** The offers with a key begun by the steps. */
  function Begun(steps: seq<Step>): nat {
    if steps == [] then 0
    else Begun(steps[..|steps| - 1]) + if steps[|steps| - 1].OfferBegins? && steps[|steps| - 1].key != "" then 1 else 0
  }

  lemma OfferStepCounts(s: System, step: Step)
    requires Enabled(s, step)
    ensures var t := Next(s, step);
            t.ledger.duplicates + t.ledger.dropped + t.ledger.accepted + t.uncounted + |t.offers| + |t.refusing| ==
            s.ledger.duplicates + s.ledger.dropped + s.ledger.accepted + s.uncounted + |s.offers| + |s.refusing|
            + if step.OfferBegins? && step.key != "" then 1 else 0
  {
    hide Complete, IsKnown;
    if step.WorkerRecords? {
      CompleteCounts(s.ledger, s.worker.key);
    }
  }

  lemma CompleteCounts(l: Ledger, key: Key)
    ensures Complete(l, key).duplicates == l.duplicates && Complete(l, key).dropped == l.dropped && Complete(l, key).accepted == l.accepted
  {
  }

  /** Every offer with a key is a duplicate, was dropped, counts as accepted, or is still on its way to one of these. */
  lemma {:induction false} EveryOfferIsCounted(run: seq<System>, steps: seq<Step>, k: nat)
    requires IsRun(run, steps) && k < |run|
    requires exists c: nat, b: nat, m: nat :: 0 < b && run[0] == Initial(c, b, m)
    ensures var l := run[k].ledger;
            Begun(steps[..k]) == l.duplicates + l.dropped + l.accepted + run[k].uncounted + |run[k].offers| + |run[k].refusing|
  {
    if k > 0 {
      hide Next;
      EveryOfferIsCounted(run, steps, k - 1);
      OfferStepCounts(run[k - 1], steps[k - 1]);
      assert steps[..k][..k - 1] == steps[..k - 1];
    }
  }

  /** An offer is given up only while the queue is full or the pipeline cancelled, and a result only after a cancellation. */
  lemma GivesUpOnlyWhen(run: seq<System>, steps: seq<Step>, k: nat)
    requires IsRun(run, steps) && k < |steps|
    ensures steps[k].OfferGivesUp? ==> run[k].cancelled || |run[k].queue| == run[k].capacity
    ensures steps[k].WorkerSkips? || steps[k].WorkerQuits? ==> run[k].cancelled
    ensures run[k + 1].cancelled <==> run[k].cancelled || steps[k].Cancel?
  {
    hide Remember, Complete, Reserve, Refuse;
    assert run[k + 1] == Next(run[k], steps[k]);
  }
}
