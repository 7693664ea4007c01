/** What every run of the evidence gate keeps, against the full history of its inputs. */
module EvidenceSafety {
  import opened Common
  import opened Protocol
  import opened EvidenceGate

  // ----- histories -----

  predicate StrongAt(trace: seq<Timed>, j: nat, key: string) {
    j < |trace| && trace[j].input.Arrives? && key != "" && trace[j].input.key == key && !IsFallback(trace[j].input.event)
  }

  predicate FallbackAt(trace: seq<Timed>, i: nat) {
    i < |trace| && trace[i].input.Arrives? && trace[i].input.key != "" && IsFallback(trace[i].input.event)
  }

  /** Strong events and events without a key are handed on as they come. */
  predicate PassesAt(trace: seq<Timed>, i: nat) {
    i < |trace| && trace[i].input.Arrives? && !FallbackAt(trace, i)
  }

  ghost predicate Monotone(trace: seq<Timed>) {
    forall i, j :: 0 <= i <= j < |trace| ==> trace[i].now <= trace[j].now
  }

  function LastStrong(trace: seq<Timed>, n: nat, key: string): Option<Time>
    requires n <= |trace|
  {
    if n == 0 then None
    else if StrongAt(trace, n - 1, key) then Some(trace[n - 1].now)
    else LastStrong(trace, n - 1, key)
  }

  /** The decision an unpruned gate would take: some strong event with the key within the window. */
  ghost predicate FullSuppresses(trace: seq<Timed>, n: nat, key: string, now: Time, window: int) {
    exists j :: 0 <= j < n && StrongAt(trace, j, key) && now - trace[j].now <= window
  }

  lemma {:induction false} LastStrongIsLatest(trace: seq<Timed>, n: nat, key: string, now: Time, window: int)
    requires n <= |trace| && Monotone(trace)
    ensures FullSuppresses(trace, n, key, now, window) <==>
            LastStrong(trace, n, key).Some? && now - LastStrong(trace, n, key).value <= window
    ensures LastStrong(trace, n, key).Some? ==> n > 0 && LastStrong(trace, n, key).value <= trace[n - 1].now
  {
    if n > 0 {
      LastStrongIsLatest(trace, n - 1, key, now, window);
      if StrongAt(trace, n - 1, key) && FullSuppresses(trace, n, key, now, window) {
        var j :| 0 <= j < n && StrongAt(trace, j, key) && now - trace[j].now <= window;
        assert trace[j].now <= trace[n - 1].now;
      }
    }
  }

  // ----- pruning never changes a decision -----

  ghost predicate RecentOk(trace: seq<Timed>, n: nat, g: Gate, key: string)
    requires n <= |trace|
  {
    var last := LastStrong(trace, n, key);
    if key in g.recentStrong then last == Some(g.recentStrong[key])
    else last.Some? ==> n > 0 && trace[n - 1].now - last.value > 2 * g.window
  }

  lemma AfterStep(window: int, capacity: nat, trace: seq<Timed>, n: nat)
    requires 0 < n <= |trace|
    ensures After(window, capacity, trace, n) == Step(After(window, capacity, trace, n - 1), trace[n - 1], n - 1)
  {
    hide Step;
  }

  lemma FlushPending(g: Gate, now: Time, all: bool, step: nat)
    ensures Flush(g, now, all, step).pending == g.pending - Due(g, now, all)
    ensures Flush(g, now, all, step).(pending := g.pending, out := g.out, fates := g.fates) == g
  {
  }

  lemma StepWindow(g: Gate, t: Timed, id: nat)
    ensures Step(g, t, id).window == g.window && Step(g, t, id).capacity == g.capacity
  {
    hide Flush;
    FlushPending(g, t.now, t.input.Drain?, id);
  }

  /** What one step does to the recorded time of a key. */
  lemma StepRecent(g: Gate, t: Timed, id: nat, key: string)
    ensures var strong := Step(g, t, id).recentStrong;
            if t.input.Arrives? && t.input.key == key && key != "" && !IsFallback(t.input.event)
            then key in strong && strong[key] == t.now
            else (key in strong ==> key in g.recentStrong && strong[key] == g.recentStrong[key])
                 && (key in g.recentStrong && key !in strong ==> t.now - g.recentStrong[key] > 2 * g.window)
  {
    hide Flush, Suppresses, Full, Displaced;
    FlushPending(g, t.now, t.input.Drain?, id);
  }

  lemma RecentStep(trace: seq<Timed>, n: nat, before: Gate, after: Gate, key: string)
    requires 0 < n <= |trace| && 0 < before.window && RecentOk(trace, n - 1, before, key)
    requires n > 1 ==> trace[n - 2].now <= trace[n - 1].now
    requires after == Step(before, trace[n - 1], n - 1)
    ensures RecentOk(trace, n, after, key) && after.window == before.window
  {
    hide Step;
    StepWindow(before, trace[n - 1], n - 1);
    StepRecent(before, trace[n - 1], n - 1, key);
  }

  lemma {:induction false} RecentStays(window: int, capacity: nat, trace: seq<Timed>, n: nat, key: string)
    requires 0 < window && n <= |trace| && Monotone(trace)
    ensures RecentOk(trace, n, After(window, capacity, trace, n), key) && After(window, capacity, trace, n).window == window
  {
    hide After, Step, RecentOk;
    if n == 0 {
      RecentAtStart(window, capacity, trace, key);
    } else {
      RecentStays(window, capacity, trace, n - 1, key);
      AfterStep(window, capacity, trace, n);
      RecentStep(trace, n, After(window, capacity, trace, n - 1), After(window, capacity, trace, n), key);
    }
  }

  lemma RecentAtStart(window: int, capacity: nat, trace: seq<Timed>, key: string)
    ensures RecentOk(trace, 0, After(window, capacity, trace, 0), key) && After(window, capacity, trace, 0).window == window
  {
  }

  /** A decision on the pruned table is the decision on the full history. */
  lemma PruningIsInvisible(window: int, capacity: nat, trace: seq<Timed>, n: nat, key: string, now: Time)
    requires 0 < window && n <= |trace| && Monotone(trace) && (n > 0 ==> trace[n - 1].now <= now)
    ensures Suppresses(After(window, capacity, trace, n), key, now) <==> FullSuppresses(trace, n, key, now, window)
  {
    hide After;
    RecentStays(window, capacity, trace, n, key);
    LastStrongIsLatest(trace, n, key, now, window);
  }

  // ----- what waits has met no strong event -----

  /** No strong event with the key among the first n inputs, from window before input i on. */
  ghost predicate Unopposed(trace: seq<Timed>, i: nat, n: nat, key: string, window: int)
    requires i < |trace|
  {
    forall j :: 0 <= j < n && StrongAt(trace, j, key) ==> j < i && trace[i].now - trace[j].now > window
  }

  ghost predicate WaitingOk(trace: seq<Timed>, n: nat, w: Waiting, key: string, window: int)
    requires n <= |trace|
  {
    && w.id < n && FallbackAt(trace, w.id) && trace[w.id].input == Arrives(w.event, key)
    && w.expires == trace[w.id].now + window
    && Unopposed(trace, w.id, n, key, window)
  }

  ghost predicate AllWaitingOk(trace: seq<Timed>, n: nat, g: Gate)
    requires n <= |trace|
  {
    forall key :: key in g.pending ==> WaitingOk(trace, n, g.pending[key], key, g.window)
  }

  /** An entry after a step is the one just accepted, or was there before and met no strong event. */
  lemma StepPending(g: Gate, t: Timed, id: nat, key: string)
    requires key in Step(g, t, id).pending
    ensures var w := Step(g, t, id).pending[key];
            || (t.input.Arrives? && t.input.key == key && key != "" && IsFallback(t.input.event) && !Suppresses(g, key, t.now)
                && w == Waiting(t.input.event, id, t.now + g.window))
            || (key in g.pending && w == g.pending[key]
                && !(t.input.Arrives? && t.input.key == key && key != "" && !IsFallback(t.input.event)))
  {
    hide Flush, Due, Suppresses, Full, Displaced;
    FlushPending(g, t.now, t.input.Drain?, id);
  }

  lemma WaitingStep(trace: seq<Timed>, n: nat, before: Gate, key: string)
    requires 0 < n <= |trace| && AllWaitingOk(trace, n - 1, before)
    requires key in Step(before, trace[n - 1], n - 1).pending
    requires Suppresses(before, key, trace[n - 1].now) <==> FullSuppresses(trace, n - 1, key, trace[n - 1].now, before.window)
    ensures WaitingOk(trace, n, Step(before, trace[n - 1], n - 1).pending[key], key, before.window)
  {
    hide Step, FullSuppresses, Suppresses;
    var t := trace[n - 1];
    StepPending(before, t, n - 1, key);
    if FallbackAt(trace, n - 1) && t.input.key == key && !Suppresses(before, key, t.now) &&
       Step(before, t, n - 1).pending[key] == Waiting(t.input.event, n - 1, t.now + before.window) {
      NotSuppressed(trace, n, key, before.window);
    } else {
      assert WaitingOk(trace, n - 1, before.pending[key], key, before.window);
      assert !StrongAt(trace, n - 1, key);
    }
  }

  lemma AllWaitingStep(trace: seq<Timed>, n: nat, before: Gate, after: Gate, now: Time)
    requires 0 < n <= |trace| && now == trace[n - 1].now && AllWaitingOk(trace, n - 1, before) && after == Step(before, trace[n - 1], n - 1)
    requires forall key :: Suppresses(before, key, now) <==> FullSuppresses(trace, n - 1, key, now, before.window)
    ensures AllWaitingOk(trace, n, after) && after.window == before.window
  {
    hide Step, WaitingOk, Suppresses, FullSuppresses;
    StepWindow(before, trace[n - 1], n - 1);
    forall key | key in after.pending ensures WaitingOk(trace, n, after.pending[key], key, after.window) {
      WaitingStep(trace, n, before, key);
    }
  }

  lemma {:induction false} WaitingStays(window: int, capacity: nat, trace: seq<Timed>, n: nat)
    requires 0 < window && n <= |trace| && Monotone(trace)
    ensures AllWaitingOk(trace, n, After(window, capacity, trace, n)) && After(window, capacity, trace, n).window == window
  {
    hide After, Step, AllWaitingOk, Suppresses, FullSuppresses;
    if n > 0 {
      WaitingStays(window, capacity, trace, n - 1);
      AfterStep(window, capacity, trace, n);
      var before, t := After(window, capacity, trace, n - 1), trace[n - 1];
      assert n > 1 ==> trace[n - 2].now <= t.now;
      forall key ensures Suppresses(before, key, t.now) <==> FullSuppresses(trace, n - 1, key, t.now, before.window) {
        PruningIsInvisible(window, capacity, trace, n - 1, key, t.now);
      }
      AllWaitingStep(trace, n, before, After(window, capacity, trace, n), t.now);
    } else {
      NothingWaits(window, capacity, trace);
    }
  }

  lemma NothingWaits(window: int, capacity: nat, trace: seq<Timed>)
    ensures AllWaitingOk(trace, 0, After(window, capacity, trace, 0)) && After(window, capacity, trace, 0).window == window
  {
  }

  lemma NotSuppressed(trace: seq<Timed>, n: nat, key: string, window: int)
    requires 0 < n <= |trace| && FallbackAt(trace, n - 1) && trace[n - 1].input.key == key
    requires !FullSuppresses(trace, n - 1, key, trace[n - 1].now, window)
    ensures Unopposed(trace, n - 1, n, key, window)
  {
  }

  // ----- what was handed on -----

  ghost predicate EmissionOk(trace: seq<Timed>, n: nat, x: Emission, window: int)
    requires n <= |trace|
  {
    && x.id <= x.step < n && trace[x.id].input.Arrives? && trace[x.id].input.event == x.event
    && (PassesAt(trace, x.id) ==> x.step == x.id)
    && (FallbackAt(trace, x.id) ==>
         && x.id < x.step && Unopposed(trace, x.id, x.step, trace[x.id].input.key, window)
         && (trace[x.step].input.Drain? || (trace[x.step].input.Tick? && trace[x.id].now + window <= trace[x.step].now)))
  }

  lemma {:induction false} EmissionsStay(window: int, capacity: nat, trace: seq<Timed>, n: nat)
    requires 0 < window && n <= |trace| && Monotone(trace)
    ensures forall x :: x in After(window, capacity, trace, n).out ==> EmissionOk(trace, n, x, window)
  {
    hide EmissionOk, Flush, AllWaitingOk, Arrive;
    if n > 0 {
      EmissionsStay(window, capacity, trace, n - 1);
      WaitingStays(window, capacity, trace, n - 1);
      var before, after, t := After(window, capacity, trace, n - 1), After(window, capacity, trace, n), trace[n - 1];
      forall x | x in after.out ensures EmissionOk(trace, n, x, window) {
        if x in before.out {
          EmissionKeeps(trace, n - 1, x, window);
        } else if t.input.Arrives? {
          ArriveEmits(before, t.input.event, t.input.key, n - 1, t.now, x);
          PassingOk(trace, n, window);
        } else {
          var key := FlushEmits(before, t.now, t.input.Drain?, n - 1, x);
          FlushedOk(trace, n, before, key);
        }
      }
    }
  }

  lemma EmissionKeeps(trace: seq<Timed>, n: nat, x: Emission, window: int)
    requires n < |trace| && EmissionOk(trace, n, x, window)
    ensures EmissionOk(trace, n + 1, x, window)
  {
  }

  lemma ArriveEmits(g: Gate, e: Event, key: string, id: nat, now: Time, x: Emission)
    requires x in Arrive(g, e, key, id, now).out && x !in g.out
    ensures x == Emission(e, id, id) && (key == "" || !IsFallback(e))
  {
  }

  lemma PassingOk(trace: seq<Timed>, n: nat, window: int)
    requires 0 < n <= |trace| && trace[n - 1].input.Arrives?
    requires trace[n - 1].input.key == "" || !IsFallback(trace[n - 1].input.event)
    ensures EmissionOk(trace, n, Emission(trace[n - 1].input.event, n - 1, n - 1), window)
  {
  }

  lemma FlushEmits(g: Gate, now: Time, all: bool, step: nat, x: Emission) returns (key: string)
    requires x in Flush(g, now, all, step).out && x !in g.out
    ensures key in Due(g, now, all) && x == Emission(g.pending[key].event, g.pending[key].id, step)
  {
    hide Due, SortedKeys;
    var keys := SortedKeys(Due(g, now, all));
    DueInPending(g, now, all);
    assert forall k :: k in keys ==> k in Elements(keys);
    var emitted := Emissions(g, keys, step);
    assert Flush(g, now, all, step).out == g.out + emitted;
    assert x in emitted;
    var k :| 0 <= k < |emitted| && emitted[k] == x;
    key := keys[k];
  }

  lemma DueInPending(g: Gate, now: Time, all: bool)
    ensures Due(g, now, all) <= g.pending.Keys
  {
  }

  lemma FlushedOk(trace: seq<Timed>, n: nat, g: Gate, key: string)
    requires 0 < n <= |trace| && !trace[n - 1].input.Arrives? && AllWaitingOk(trace, n - 1, g)
    requires key in Due(g, trace[n - 1].now, trace[n - 1].input.Drain?)
    ensures EmissionOk(trace, n, Emission(g.pending[key].event, g.pending[key].id, n - 1), g.window)
  {
    assert WaitingOk(trace, n - 1, g.pending[key], key, g.window);
  }

  /**
   A fallback event is handed on only when no strong event with its key was processed from the
   window before its arrival up to its emission, and not before its own window is over unless
   the gate is draining.
   */
  lemma FallbackGivesWay(window: int, capacity: nat, trace: seq<Timed>, n: nat, x: Emission)
    requires 0 < window && n <= |trace| && Monotone(trace)
    requires x in After(window, capacity, trace, n).out && FallbackAt(trace, x.id)
    ensures x.id < x.step < n && trace[x.id].input.event == x.event
    ensures forall j :: 0 <= j < x.step && StrongAt(trace, j, trace[x.id].input.key) ==> trace[j].now < trace[x.id].now - window
    ensures trace[x.step].input.Drain? || (trace[x.step].input.Tick? && trace[x.id].now + window <= trace[x.step].now)
  {
    EmissionsStay(window, capacity, trace, n);
    assert EmissionOk(trace, n, x, window);
  }

  // ----- bounds and bookkeeping -----

  /** The gate never holds more than its capacity. */
  lemma {:induction false} NeverOverCapacity(window: int, capacity: nat, trace: seq<Timed>, n: nat)
    requires n <= |trace|
    ensures |After(window, capacity, trace, n).pending| <= capacity && After(window, capacity, trace, n).capacity == capacity
  {
    hide After, Step;
    if n == 0 {
      StartsEmpty(window, capacity, trace);
    } else {
      NeverOverCapacity(window, capacity, trace, n - 1);
      AfterStep(window, capacity, trace, n);
      StepCapacity(After(window, capacity, trace, n - 1), trace[n - 1], n - 1);
    }
  }

  lemma StartsEmpty(window: int, capacity: nat, trace: seq<Timed>)
    ensures After(window, capacity, trace, 0).pending == map[] && After(window, capacity, trace, 0).capacity == capacity
  {
  }

  lemma StepCapacity(g: Gate, t: Timed, id: nat)
    requires |g.pending| <= g.capacity
    ensures |Step(g, t, id).pending| <= g.capacity && Step(g, t, id).capacity == g.capacity
  {
    hide Arrive, Flush;
    if t.input.Arrives? {
      ArriveCapacity(g, t.input.event, t.input.key, id, t.now);
      ArrivePending(g, t.input.event, t.input.key, id, t.now);
    } else {
      FlushPending(g, t.now, t.input.Drain?, id);
      FewerKeys(g.pending, Due(g, t.now, t.input.Drain?));
    }
  }

  lemma FewerKeys(pending: map<string, Waiting>, keys: set<string>)
    ensures |pending - keys| <= |pending|
  {
    assert (pending - keys).Keys <= pending.Keys;
    SubsetSize((pending - keys).Keys, pending.Keys);
  }

  lemma PutSize(pending: map<string, Waiting>, key: string, w: Waiting)
    ensures |pending[key := w]| == |pending| + if key in pending then 0 else 1
  {
    if key in pending {
      assert pending[key := w].Keys == pending.Keys;
    } else {
      assert pending[key := w].Keys == pending.Keys + {key};
    }
  }

  lemma ArrivePending(g: Gate, e: Event, key: string, id: nat, now: Time)
    ensures var pending := Arrive(g, e, key, id, now).pending;
            || pending == g.pending
            || pending == g.pending - {key}
            || (pending == g.pending[key := Waiting(e, id, now + g.window)] && !Full(g, key))
    ensures Arrive(g, e, key, id, now).capacity == g.capacity
  {
    hide Suppresses, Displaced, Full;
  }

  lemma ArriveCapacity(g: Gate, e: Event, key: string, id: nat, now: Time)
    requires |g.pending| <= g.capacity
    ensures |Arrive(g, e, key, id, now).pending| <= g.capacity
  {
    hide Arrive;
    ArrivePending(g, e, key, id, now);
    FewerKeys(g.pending, {key});
    PutSize(g.pending, key, Waiting(e, id, now + g.window));
  }

  /** The emissions that went straight through. */
  function Passed(out: seq<Emission>): seq<nat> {
    if out == [] then []
    else Passed(out[..|out| - 1]) + if out[|out| - 1].step == out[|out| - 1].id then [out[|out| - 1].id] else []
  }

  function PassingIds(trace: seq<Timed>, n: nat): seq<nat>
    requires n <= |trace|
  {
    if n == 0 then [] else PassingIds(trace, n - 1) + if PassesAt(trace, n - 1) then [n - 1] else []
  }

  lemma {:induction false} PassedConcat(a: seq<Emission>, b: seq<Emission>)
    requires forall x :: x in b ==> x.step != x.id
    ensures Passed(a + b) == Passed(a)
  {
    if b == [] {
      assert a + b == a;
    } else {
      assert (a + b)[..|a + b| - 1] == a + b[..|b| - 1];
      PassedConcat(a, b[..|b| - 1]);
      assert b[|b| - 1] in b;
    }
  }

  lemma ArrivePassed(g: Gate, e: Event, key: string, id: nat, now: Time)
    ensures Passed(Arrive(g, e, key, id, now).out) == Passed(g.out) + if key == "" || !IsFallback(e) then [id] else []
  {
    hide Suppresses, Full, Displaced;
    assert (g.out + [Emission(e, id, id)])[..|g.out|] == g.out;
    assert Passed(g.out) + [] == Passed(g.out);
  }

  /** Every strong event, and every event without a key, is handed on once, in order of arrival. */
  lemma {:induction false} StrongPassInOrder(window: int, capacity: nat, trace: seq<Timed>, n: nat)
    requires 0 < window && n <= |trace| && Monotone(trace)
    ensures Passed(After(window, capacity, trace, n).out) == PassingIds(trace, n)
  {
    hide Flush, Arrive, AllWaitingOk, Passed;
    if n > 0 {
      StrongPassInOrder(window, capacity, trace, n - 1);
      var before, t := After(window, capacity, trace, n - 1), trace[n - 1];
      if t.input.Arrives? {
        ArrivePassed(before, t.input.event, t.input.key, n - 1, t.now);
      } else {
        WaitingStays(window, capacity, trace, n - 1);
        FlushNeverPasses(trace, n, before, t.input.Drain?);
        assert PassingIds(trace, n - 1) + [] == PassingIds(trace, n - 1);
      }
    } else {
      NothingPassed();
    }
  }

  lemma NothingPassed()
    ensures Passed([]) == []
  {
  }

  lemma FlushNeverPasses(trace: seq<Timed>, n: nat, g: Gate, all: bool)
    requires 0 < n <= |trace| && AllWaitingOk(trace, n - 1, g)
    ensures Passed(Flush(g, trace[n - 1].now, all, n - 1).out) == Passed(g.out)
  {
    var keys := SortedKeys(Due(g, trace[n - 1].now, all));
    assert forall k :: k in keys ==> k in Elements(keys);
    var emitted := Emissions(g, keys, n - 1);
    forall x | x in emitted ensures x.step != x.id {
      var k :| 0 <= k < |emitted| && emitted[k] == x;
      assert WaitingOk(trace, n - 1, g.pending[keys[k]], keys[k], g.window);
    }
    PassedConcat(g.out, emitted);
  }

  // ----- every fallback has one fate -----

  /** The waiting entries are exactly those whose fate is open, each under its own key. */
  ghost predicate WaitingFates(g: Gate) {
    && (forall key :: key in g.pending ==> g.pending[key].id in g.fates && g.fates[g.pending[key].id] == IsWaiting)
    && (forall i :: i in g.fates && g.fates[i] == IsWaiting ==> exists key :: key in g.pending && g.pending[key].id == i)
    && (forall key, other :: key in g.pending && other in g.pending && g.pending[key].id == g.pending[other].id ==> key == other)
  }

  /** Emission records are distinct, and those of keyed fallbacks are exactly the emitted fates. */
  ghost predicate EmittedFates(g: Gate) {
    && (forall k :: 0 <= k < |g.out| && g.out[k].id in g.fates ==> g.fates[g.out[k].id] == WasEmitted)
    && (forall i :: i in g.fates && g.fates[i] == WasEmitted ==> exists k :: 0 <= k < |g.out| && g.out[k].id == i)
    && (forall k, l :: 0 <= k < l < |g.out| ==> g.out[k].id != g.out[l].id)
  }

  /** Everything on record is older than input n. */
  ghost predicate Older(g: Gate, n: nat) {
    && (forall i :: i in g.fates ==> i < n)
    && (forall k :: 0 <= k < |g.out| ==> g.out[k].id < n)
  }

  /** The three parts of the bookkeeping, for everything older than input n. */
  ghost predicate BooksOk(g: Gate, n: nat) {
    WaitingFates(g) && EmittedFates(g) && Older(g, n)
  }

  function Drop(g: Gate, key: string): Gate {
    g.(pending := g.pending - {key}, fates := Displaced(g, key))
  }

  lemma DropBooks(g: Gate, key: string, n: nat)
    requires BooksOk(g, n)
    ensures BooksOk(Drop(g, key), n) && Drop(g, key).fates.Keys == g.fates.Keys
  {
    var after := Drop(g, key);
    if key in g.pending {
      var id := g.pending[key].id;
      assert after.fates == g.fates[id := Superseded];
      forall i | i in after.fates && after.fates[i] == IsWaiting ensures exists k :: k in after.pending && after.pending[k].id == i {
        assert i != id;
        var k :| k in g.pending && g.pending[k].id == i;
        assert k in after.pending && after.pending[k].id == i;
      }
      DropEmitted(g, after, id);
    } else {
      assert after == g;
    }
  }

  lemma DropEmitted(g: Gate, after: Gate, id: nat)
    requires EmittedFates(g) && id in g.fates && g.fates[id] == IsWaiting
    requires after.out == g.out && after.fates == g.fates[id := Superseded]
    ensures EmittedFates(after)
  {
    forall i | i in after.fates && after.fates[i] == WasEmitted ensures exists k :: 0 <= k < |after.out| && after.out[k].id == i {
      assert i in g.fates && g.fates[i] == WasEmitted;
    }
  }

  lemma PutWaiting(g: Gate, key: string, w: Waiting)
    requires WaitingFates(g) && Older(g, w.id) && key !in g.pending
    ensures WaitingFates(g.(pending := g.pending[key := w], fates := g.fates[w.id := IsWaiting]))
  {
    var after := g.(pending := g.pending[key := w], fates := g.fates[w.id := IsWaiting]);
    assert forall k :: k in g.pending ==> g.pending[k].id != w.id;
    forall i | i in after.fates && after.fates[i] == IsWaiting ensures exists k :: k in after.pending && after.pending[k].id == i {
      if i == w.id {
        assert after.pending[key].id == w.id;
      } else {
        var k :| k in g.pending && g.pending[k].id == i;
        assert k in after.pending && after.pending[k].id == i;
      }
    }
  }

  lemma PutEmitted(g: Gate, key: string, w: Waiting)
    requires EmittedFates(g) && Older(g, w.id)
    ensures var after := g.(pending := g.pending[key := w], fates := g.fates[w.id := IsWaiting]);
            EmittedFates(after) && Older(after, w.id + 1)
  {
    var after := g.(pending := g.pending[key := w], fates := g.fates[w.id := IsWaiting]);
    forall i | i in after.fates && after.fates[i] == WasEmitted ensures exists k :: 0 <= k < |after.out| && after.out[k].id == i {
      assert i in g.fates && g.fates[i] == WasEmitted;
    }
  }

  lemma PutBooks(g: Gate, key: string, w: Waiting)
    requires BooksOk(g, w.id) && key !in g.pending
    ensures BooksOk(g.(pending := g.pending[key := w], fates := g.fates[w.id := IsWaiting]), w.id + 1)
  {
    PutWaiting(g, key, w);
    PutEmitted(g, key, w);
  }

  lemma MarkBooks(g: Gate, id: nat, fate: Fate)
    requires BooksOk(g, id) && (fate == Suppressed || fate == OverCapacity)
    ensures BooksOk(g.(fates := g.fates[id := fate]), id + 1)
  {
    var after := g.(fates := g.fates[id := fate]);
    assert forall i :: i in g.fates ==> after.fates[i] == g.fates[i];
    forall i | i in after.fates && after.fates[i] == WasEmitted ensures exists k :: 0 <= k < |after.out| && after.out[k].id == i {
      assert i in g.fates && g.fates[i] == WasEmitted;
    }
  }

  lemma PassBooks(g: Gate, e: Event, id: nat)
    requires BooksOk(g, id)
    ensures BooksOk(g.(out := g.out + [Emission(e, id, id)]), id + 1)
  {
    var after := g.(out := g.out + [Emission(e, id, id)]);
    forall i | i in after.fates && after.fates[i] == WasEmitted ensures exists k :: 0 <= k < |after.out| && after.out[k].id == i {
      var k :| 0 <= k < |g.out| && g.out[k].id == i;
      assert after.out[k].id == i;
    }
  }

  lemma RecentIsNotOnTheBooks(g: Gate, strong: map<string, Time>, n: nat)
    requires BooksOk(g, n)
    ensures BooksOk(g.(recentStrong := strong), n)
  {
  }

  lemma ArriveBooks(g: Gate, e: Event, key: string, id: nat, now: Time)
    requires BooksOk(g, id)
    ensures BooksOk(Arrive(g, e, key, id, now), id + 1)
    ensures Arrive(g, e, key, id, now).fates.Keys == g.fates.Keys + if key != "" && IsFallback(e) then {id} else {}
  {
    hide BooksOk, Suppresses, Full, Displaced;
    DropBooks(g, key, id);
    if key == "" {
      PassBooks(g, e, id);
    } else if !IsFallback(e) {
      PassBooks(Drop(g, key), e, id);
      RecentIsNotOnTheBooks(Arrive(g, e, key, id, now).(recentStrong := g.recentStrong), g.recentStrong[key := now], id + 1);
    } else if Suppresses(g, key, now) {
      MarkBooks(g, id, Suppressed);
    } else if Full(g, key) {
      MarkBooks(g, id, OverCapacity);
    } else {
      var w := Waiting(e, id, now + g.window);
      PutBooks(Drop(g, key), key, w);
      assert (g.pending - {key})[key := w] == g.pending[key := w];
    }
  }

  lemma EmitFates(g: Gate, keys: seq<string>, step: nat)
    requires WaitingFates(g) && forall k :: k in keys ==> k in g.pending
    ensures WaitingFates(EmitKeys(g, keys, step)) && EmitKeys(g, keys, step).fates.Keys == g.fates.Keys
  {
    var after := EmitKeys(g, keys, step);
    forall i | i in after.fates && after.fates[i] == IsWaiting ensures exists k :: k in after.pending && after.pending[k].id == i {
      var k :| k in g.pending && g.pending[k].id == i;
      assert k !in keys;
      assert k in after.pending && after.pending[k].id == i;
    }
    assert after.fates.Keys == g.fates.Keys;
  }

  lemma EmitEmitted(g: Gate, keys: seq<string>, step: nat, n: nat)
    requires WaitingFates(g) && EmittedFates(g) && Older(g, n) && Distinct(keys)
    requires forall k :: k in keys ==> k in g.pending
    ensures EmittedFates(EmitKeys(g, keys, step)) && Older(EmitKeys(g, keys, step), n)
  {
    EmittedIdsAreNew(g, keys, step);
    EmittedHaveRecords(g, keys, step);
  }

  /** The records of a flush follow the old ones and are of entries that waited. */
  lemma FlushedRecords(g: Gate, keys: seq<string>, step: nat, k: nat)
    requires WaitingFates(g) && k < |keys| && forall k :: k in keys ==> k in g.pending
    ensures var after := EmitKeys(g, keys, step);
            && |after.out| == |g.out| + |keys| && after.out[..|g.out|] == g.out
            && after.out[|g.out| + k].id == g.pending[keys[k]].id
            && g.pending[keys[k]].id in g.fates && g.fates[g.pending[keys[k]].id] == IsWaiting
            && g.pending[keys[k]].id in after.fates && after.fates[g.pending[keys[k]].id] == WasEmitted
  {
    assert keys[k] in keys;
  }

  lemma FlushKeepsEmitted(g: Gate, keys: seq<string>, step: nat, i: nat)
    requires forall k :: k in keys ==> k in g.pending
    requires i in EmitKeys(g, keys, step).fates && (i in g.fates ==> g.fates[i] == WasEmitted)
    ensures EmitKeys(g, keys, step).fates[i] == WasEmitted
  {
  }

  lemma PendingIdsDiffer(g: Gate, keys: seq<string>, k: nat, l: nat)
    requires WaitingFates(g) && Distinct(keys) && k < l < |keys| && forall k :: k in keys ==> k in g.pending
    ensures keys[k] in g.pending && keys[l] in g.pending && g.pending[keys[k]].id != g.pending[keys[l]].id
  {
    assert keys[k] in keys && keys[l] in keys && keys[k] != keys[l];
  }

  lemma EmittedIdsAreNew(g: Gate, keys: seq<string>, step: nat)
    requires WaitingFates(g) && EmittedFates(g) && Distinct(keys)
    requires forall k :: k in keys ==> k in g.pending
    ensures var after := EmitKeys(g, keys, step);
            && (forall k :: 0 <= k < |after.out| && after.out[k].id in after.fates ==> after.fates[after.out[k].id] == WasEmitted)
            && (forall k, l :: 0 <= k < l < |after.out| ==> after.out[k].id != after.out[l].id)
            && (forall k :: |g.out| <= k < |after.out| ==> after.out[k].id in g.fates)
  {
    hide EmitKeys, WaitingFates, Distinct;
    var after := EmitKeys(g, keys, step);
    var start := |g.out|;
    FlushSize(g, keys, step);
    forall k | start <= k < |after.out|
      ensures after.out[k].id in g.fates && g.fates[after.out[k].id] == IsWaiting
      ensures after.out[k].id in after.fates && after.fates[after.out[k].id] == WasEmitted
    {
      FlushedRecords(g, keys, step, k - start);
    }
    forall k | 0 <= k < start && after.out[k].id in after.fates ensures after.fates[after.out[k].id] == WasEmitted {
      FlushKeepsEmitted(g, keys, step, after.out[k].id);
    }
    forall k, l | 0 <= k < l < |after.out| ensures after.out[k].id != after.out[l].id {
      if start <= k {
        FlushedRecords(g, keys, step, k - start);
        FlushedRecords(g, keys, step, l - start);
        PendingIdsDiffer(g, keys, k - start, l - start);
      }
    }
  }

  lemma FlushSize(g: Gate, keys: seq<string>, step: nat)
    requires forall k :: k in keys ==> k in g.pending
    ensures var after := EmitKeys(g, keys, step);
            |after.out| == |g.out| + |keys| && forall k :: 0 <= k < |g.out| ==> after.out[k] == g.out[k]
  {
  }

  lemma EmittedHaveRecords(g: Gate, keys: seq<string>, step: nat)
    requires EmittedFates(g) && forall k :: k in keys ==> k in g.pending
    ensures var after := EmitKeys(g, keys, step);
            forall i :: i in after.fates && after.fates[i] == WasEmitted ==> exists k :: 0 <= k < |after.out| && after.out[k].id == i
  {
    var after := EmitKeys(g, keys, step);
    forall i | i in after.fates && after.fates[i] == WasEmitted ensures exists k :: 0 <= k < |after.out| && after.out[k].id == i {
      if i in g.fates && g.fates[i] == WasEmitted {
        var k :| 0 <= k < |g.out| && g.out[k].id == i;
        assert after.out[k].id == i;
      } else {
        var key :| key in keys && g.pending[key].id == i;
        var k :| 0 <= k < |keys| && keys[k] == key;
        assert after.out[|g.out| + k].id == i;
      }
    }
  }

  lemma {:induction false} FatesStay(window: int, capacity: nat, trace: seq<Timed>, n: nat)
    requires n <= |trace|
    ensures var g := After(window, capacity, trace, n);
            && WaitingFates(g) && EmittedFates(g) && Older(g, n)
            && g.fates.Keys == set i: nat | 0 <= i < n && FallbackAt(trace, i)
  {
    hide WaitingFates, EmittedFates, Older, Arrive, EmitKeys, Due;
    if n > 0 {
      FatesStay(window, capacity, trace, n - 1);
      var before, t := After(window, capacity, trace, n - 1), trace[n - 1];
      if t.input.Arrives? {
        ArriveBooks(before, t.input.event, t.input.key, n - 1, t.now);
      } else {
        var keys := SortedKeys(Due(before, t.now, t.input.Drain?));
        DueKeys(before, t.now, t.input.Drain?, keys);
        EmitFates(before, keys, n - 1);
        EmitEmitted(before, keys, n - 1, n - 1);
        PruneKeepsFates(EmitKeys(before, keys, n - 1), t.now, n - 1);
      }
    } else {
      StartFates(window, capacity);
    }
  }

  lemma StartFates(window: int, capacity: nat)
    ensures var g := Gate(window, capacity, map[], map[], [], map[]);
            WaitingFates(g) && EmittedFates(g) && Older(g, 0)
  {
  }

  lemma PruneKeepsFates(g: Gate, now: Time, n: nat)
    requires WaitingFates(g) && EmittedFates(g) && Older(g, n)
    ensures WaitingFates(Prune(g, now)) && EmittedFates(Prune(g, now)) && Older(Prune(g, now), n + 1)
    ensures Older(g, n + 1)
  {
  }

  lemma DueKeys(g: Gate, now: Time, all: bool, keys: seq<string>)
    requires Elements(keys) == Due(g, now, all)
    ensures forall k :: k in keys ==> k in g.pending
  {
    assert forall k :: k in keys ==> k in Elements(keys);
  }

  /**
   Every keyed fallback has one fate, and it is the true one: it still waits exactly when an
   entry holds it, and was emitted exactly when one emission record, and only one, names it.
   */
  lemma OneFateEach(window: int, capacity: nat, trace: seq<Timed>, n: nat, i: nat)
    requires n <= |trace| && i < n && FallbackAt(trace, i)
    ensures var g := After(window, capacity, trace, n);
            && i in g.fates
            && (g.fates[i] == IsWaiting <==> exists key :: key in g.pending && g.pending[key].id == i)
            && (g.fates[i] == WasEmitted <==> exists k :: 0 <= k < |g.out| && g.out[k].id == i)
            && (forall k, l :: 0 <= k < l < |g.out| ==> g.out[k].id != g.out[l].id)
  {
    hide After;
    FatesStay(window, capacity, trace, n);
  }

  // ----- what each fate means -----

  ghost predicate SuppressedAt(window: int, trace: seq<Timed>, i: nat)
    requires FallbackAt(trace, i)
  {
    FullSuppresses(trace, i, trace[i].input.key, trace[i].now, window)
  }

  /** On arrival nothing waited under the key and the table was full. */
  ghost predicate NoRoomAt(window: int, capacity: nat, trace: seq<Timed>, i: nat)
    requires FallbackAt(trace, i)
  {
    Full(After(window, capacity, trace, i), trace[i].input.key)
  }

  ghost predicate AcceptedAt(window: int, capacity: nat, trace: seq<Timed>, i: nat) {
    FallbackAt(trace, i) && !SuppressedAt(window, trace, i) && !NoRoomAt(window, capacity, trace, i)
  }

  /** Input j takes the place of fallback i: a strong event, or an accepted fallback, with the same key. */
  ghost predicate Replaces(window: int, capacity: nat, trace: seq<Timed>, j: nat, i: nat)
    requires FallbackAt(trace, i)
  {
    && j < |trace|
    && (StrongAt(trace, j, trace[i].input.key) || (AcceptedAt(window, capacity, trace, j) && trace[j].input.key == trace[i].input.key))
  }

  /** Input j lets fallback i go: the final drain, or a tick when its window is over. */
  predicate Releases(window: int, trace: seq<Timed>, j: nat, i: nat)
    requires FallbackAt(trace, i)
  {
    j < |trace| && (trace[j].input.Drain? || (trace[j].input.Tick? && trace[i].now + window <= trace[j].now))
  }

  /** Neither happened to fallback i before input n. */
  ghost predicate Undisturbed(window: int, capacity: nat, trace: seq<Timed>, i: nat, n: nat)
    requires FallbackAt(trace, i)
  {
    forall j :: i < j < n ==> !Replaces(window, capacity, trace, j, i) && !Releases(window, trace, j, i)
  }

  ghost predicate ReplacedBefore(window: int, capacity: nat, trace: seq<Timed>, i: nat, n: nat)
    requires FallbackAt(trace, i)
  {
    exists j :: i < j < n && Undisturbed(window, capacity, trace, i, j) && Replaces(window, capacity, trace, j, i)
  }

  ghost predicate ReleasedBefore(window: int, capacity: nat, trace: seq<Timed>, i: nat, n: nat)
    requires FallbackAt(trace, i)
  {
    exists j :: i < j < n && Undisturbed(window, capacity, trace, i, j) && Releases(window, trace, j, i)
  }

  /** The fate of fallback i before input n, told from the inputs. */
  ghost function FateOf(window: int, capacity: nat, trace: seq<Timed>, i: nat, n: nat): Fate
    requires FallbackAt(trace, i) && i < n
  {
    if SuppressedAt(window, trace, i) then Suppressed
    else if NoRoomAt(window, capacity, trace, i) then OverCapacity
    else if ReplacedBefore(window, capacity, trace, i, n) then Superseded
    else if ReleasedBefore(window, capacity, trace, i, n) then WasEmitted
    else IsWaiting
  }

  /** How the told fate moves from one input to the next. */
  lemma FateOfNext(window: int, capacity: nat, trace: seq<Timed>, i: nat, n: nat)
    requires FallbackAt(trace, i) && i < n < |trace|
    ensures var was, now := FateOf(window, capacity, trace, i, n), FateOf(window, capacity, trace, i, n + 1);
            now == if was != IsWaiting then was
                   else if Replaces(window, capacity, trace, n, i) then Superseded
                   else if Releases(window, trace, n, i) then WasEmitted
                   else IsWaiting
  {
    hide SuppressedAt, NoRoomAt, Replaces, Releases;
    EndsFirst(window, capacity, trace, i, n);
  }

  lemma Ended(window: int, capacity: nat, trace: seq<Timed>, i: nat, n: nat)
    requires FallbackAt(trace, i)
    ensures (ReplacedBefore(window, capacity, trace, i, n) || ReleasedBefore(window, capacity, trace, i, n))
            <==> !Undisturbed(window, capacity, trace, i, n)
  {
    hide Replaces, Releases;
    if !Undisturbed(window, capacity, trace, i, n) {
      var j := FirstEnd(window, capacity, trace, i, n);
    }
  }

  lemma EndsFirst(window: int, capacity: nat, trace: seq<Timed>, i: nat, n: nat)
    requires FallbackAt(trace, i) && i < n < |trace|
    ensures (ReplacedBefore(window, capacity, trace, i, n) || ReleasedBefore(window, capacity, trace, i, n))
            <==> !Undisturbed(window, capacity, trace, i, n)
    ensures ReplacedBefore(window, capacity, trace, i, n + 1) <==>
            || ReplacedBefore(window, capacity, trace, i, n)
            || (Undisturbed(window, capacity, trace, i, n) && Replaces(window, capacity, trace, n, i))
    ensures ReleasedBefore(window, capacity, trace, i, n + 1) <==>
            || ReleasedBefore(window, capacity, trace, i, n)
            || (Undisturbed(window, capacity, trace, i, n) && Releases(window, trace, n, i))
  {
    hide Replaces, Releases;
    Ended(window, capacity, trace, i, n);
  }

  lemma {:induction false} FirstEnd(window: int, capacity: nat, trace: seq<Timed>, i: nat, n: nat) returns (j: nat)
    requires FallbackAt(trace, i) && !Undisturbed(window, capacity, trace, i, n)
    ensures i < j < n && Undisturbed(window, capacity, trace, i, j)
    ensures Replaces(window, capacity, trace, j, i) || Releases(window, trace, j, i)
  {
    hide Replaces, Releases;
    if Undisturbed(window, capacity, trace, i, n - 1) {
      j := n - 1;
    } else {
      j := FirstEnd(window, capacity, trace, i, n - 1);
    }
  }

  lemma ArriveFate(g: Gate, e: Event, key: string, id: nat, now: Time)
    requires key != "" && IsFallback(e)
    ensures var fates := Arrive(g, e, key, id, now).fates;
            && id in fates
            && fates[id] == if Suppresses(g, key, now) then Suppressed else if Full(g, key) then OverCapacity else IsWaiting
  {
    hide Suppresses, Full;
  }

  /** A fate that is settled stays as it is. */
  lemma SettledStays(g: Gate, t: Timed, id: nat, i: nat)
    requires WaitingFates(g) && i in g.fates && g.fates[i] != IsWaiting && i < id
    ensures i in Step(g, t, id).fates && Step(g, t, id).fates[i] == g.fates[i]
  {
    hide Suppresses, Full, SortedKeys, Due;
    match t.input {
      case Arrives(e, key) =>
      case _ =>
        var keys := SortedKeys(Due(g, t.now, t.input.Drain?));
        DueKeys(g, t.now, t.input.Drain?, keys);
        assert Flush(g, t.now, t.input.Drain?, id) == EmitKeys(g, keys, id);
    }
  }

  predicate Takes(g: Gate, t: Timed, key: string) {
    && t.input.Arrives? && t.input.key == key
    && (!IsFallback(t.input.event) || (!Suppresses(g, key, t.now) && !Full(g, key)))
  }

  /** What a step does to the fate of an entry that waits. */
  lemma WaitingMoves(g: Gate, t: Timed, id: nat, key: string)
    requires WaitingFates(g) && key in g.pending && g.pending[key].id < id && key != ""
    ensures var i, fates := g.pending[key].id, Step(g, t, id).fates;
            && i in fates
            && fates[i] == if Takes(g, t, key) then Superseded
                           else if t.input.Drain? || (t.input.Tick? && g.pending[key].expires <= t.now) then WasEmitted
                           else IsWaiting
  {
    hide Suppresses, Full, SortedKeys;
    match t.input {
      case Arrives(e, k) =>
      case _ => FlushMoves(g, t.now, t.input.Drain?, id, key);
    }
  }

  lemma FlushMoves(g: Gate, now: Time, all: bool, step: nat, key: string)
    requires WaitingFates(g) && key in g.pending
    ensures var i, fates := g.pending[key].id, Flush(g, now, all, step).fates;
            i in fates && fates[i] == if all || g.pending[key].expires <= now then WasEmitted else IsWaiting
  {
    hide SortedKeys;
    var keys := SortedKeys(Due(g, now, all));
    DueKeys(g, now, all, keys);
    assert key in Elements(keys) <==> key in keys;
    assert Flush(g, now, all, step) == EmitKeys(g, keys, step);
    var ids := set k | k in keys :: g.pending[k].id;
    assert g.pending[key].id in ids <==> key in keys;
  }

  lemma TakesIsReplaces(window: int, capacity: nat, trace: seq<Timed>, i: nat, n: nat)
    requires 0 < window && Monotone(trace) && FallbackAt(trace, i) && i < n < |trace|
    ensures Takes(After(window, capacity, trace, n), trace[n], trace[i].input.key) <==> Replaces(window, capacity, trace, n, i)
  {
    hide After, Full, Suppresses, FullSuppresses;
    if FallbackAt(trace, n) {
      PruningIsInvisible(window, capacity, trace, n, trace[n].input.key, trace[n].now);
    }
  }

  lemma {:induction false} FateIsTold(window: int, capacity: nat, trace: seq<Timed>, n: nat, i: nat)
    requires 0 < window && Monotone(trace) && i < n <= |trace| && FallbackAt(trace, i)
    ensures var fates := After(window, capacity, trace, n).fates;
            i in fates && fates[i] == FateOf(window, capacity, trace, i, n)
  {
    hide After, Arrive, Step, Flush, WaitingFates, AllWaitingOk, FateOf, Takes, Replaces, Releases;
    var g, t := After(window, capacity, trace, n - 1), trace[n - 1];
    AfterStep(window, capacity, trace, n);
    FatesStay(window, capacity, trace, n - 1);
    if i == n - 1 {
      StepArrives(g, t, i);
      ArriveFate(g, t.input.event, t.input.key, i, t.now);
      PruningIsInvisible(window, capacity, trace, i, t.input.key, t.now);
      FateOfArrival(window, capacity, trace, i);
    } else {
      FateIsTold(window, capacity, trace, n - 1, i);
      FateOfNext(window, capacity, trace, i, n - 1);
      if g.fates[i] == IsWaiting {
        WaitingEntry(window, capacity, trace, n - 1, i);
        WaitingMoves(g, t, n - 1, trace[i].input.key);
        TakesIsReplaces(window, capacity, trace, i, n - 1);
        ReleasesIff(window, trace, n - 1, i);
      } else {
        SettledStays(g, t, n - 1, i);
      }
    }
  }

  lemma StepArrives(g: Gate, t: Timed, id: nat)
    requires t.input.Arrives?
    ensures Step(g, t, id) == Arrive(g, t.input.event, t.input.key, id, t.now)
  {
    hide Arrive, Flush;
  }

  lemma ReleasesIff(window: int, trace: seq<Timed>, j: nat, i: nat)
    requires FallbackAt(trace, i) && j < |trace|
    ensures Releases(window, trace, j, i) <==>
            trace[j].input.Drain? || (trace[j].input.Tick? && trace[i].now + window <= trace[j].now)
  {
  }

  lemma FateOfArrival(window: int, capacity: nat, trace: seq<Timed>, i: nat)
    requires FallbackAt(trace, i)
    ensures FateOf(window, capacity, trace, i, i + 1) ==
            if FullSuppresses(trace, i, trace[i].input.key, trace[i].now, window) then Suppressed
            else if Full(After(window, capacity, trace, i), trace[i].input.key) then OverCapacity
            else IsWaiting
  {
    hide After, Full, FullSuppresses, Replaces, Releases;
  }

  /** A fallback with an open fate waits under its own key, until its own window is over. */
  lemma WaitingEntry(window: int, capacity: nat, trace: seq<Timed>, n: nat, i: nat)
    requires 0 < window && Monotone(trace) && i < n <= |trace| && FallbackAt(trace, i)
    requires var fates := After(window, capacity, trace, n).fates; i in fates && fates[i] == IsWaiting
    ensures var g, key := After(window, capacity, trace, n), trace[i].input.key;
            key in g.pending && g.pending[key].id == i && g.pending[key].expires == trace[i].now + window
  {
    hide After;
    FatesStay(window, capacity, trace, n);
    WaitingStays(window, capacity, trace, n);
    var g := After(window, capacity, trace, n);
    var key :| key in g.pending && g.pending[key].id == i;
    assert WaitingOk(trace, n, g.pending[key], key, g.window);
  }

  lemma FirstEndIsOne(window: int, capacity: nat, trace: seq<Timed>, i: nat, j: nat, k: nat)
    requires FallbackAt(trace, i) && i < j && i < k
    requires Undisturbed(window, capacity, trace, i, j) && (Replaces(window, capacity, trace, j, i) || Releases(window, trace, j, i))
    requires Undisturbed(window, capacity, trace, i, k) && (Replaces(window, capacity, trace, k, i) || Releases(window, trace, k, i))
    ensures j == k
  {
    hide Replaces, Releases;
  }

  lemma OneEnd(window: int, capacity: nat, trace: seq<Timed>, i: nat, n: nat)
    requires FallbackAt(trace, i)
    ensures !(ReplacedBefore(window, capacity, trace, i, n) && ReleasedBefore(window, capacity, trace, i, n))
  {
    hide After, SuppressedAt, NoRoomAt, Undisturbed;
    if ReplacedBefore(window, capacity, trace, i, n) && ReleasedBefore(window, capacity, trace, i, n) {
      var j :| i < j < n && Undisturbed(window, capacity, trace, i, j) && Replaces(window, capacity, trace, j, i);
      var k :| i < k < n && Undisturbed(window, capacity, trace, i, k) && Releases(window, trace, k, i);
      FirstEndIsOne(window, capacity, trace, i, j, k);
    }
  }

  /**
   What each fate means for a fallback, told from the inputs: it was suppressed by the full history
   on arrival; there was no room; it was accepted and the first input to concern it replaced it;
   or that input let it go; or none has come yet.
   */
  lemma FatesMean(window: int, capacity: nat, trace: seq<Timed>, n: nat, i: nat)
    requires 0 < window && Monotone(trace) && i < n <= |trace| && FallbackAt(trace, i)
    ensures i in After(window, capacity, trace, n).fates
    ensures var fate := After(window, capacity, trace, n).fates[i];
            var accepted := AcceptedAt(window, capacity, trace, i);
            && (fate == Suppressed <==> SuppressedAt(window, trace, i))
            && (fate == OverCapacity <==> !SuppressedAt(window, trace, i) && NoRoomAt(window, capacity, trace, i))
            && (fate == Superseded <==> accepted && ReplacedBefore(window, capacity, trace, i, n))
            && (fate == WasEmitted <==> accepted && ReleasedBefore(window, capacity, trace, i, n))
            && (fate == IsWaiting <==> accepted && Undisturbed(window, capacity, trace, i, n))
  {
    hide After, SuppressedAt, NoRoomAt, Undisturbed;
    FateIsTold(window, capacity, trace, n, i);
    OneEnd(window, capacity, trace, i, n);
    Ended(window, capacity, trace, i, n);
  }

  lemma {:induction false} OutGrows(window: int, capacity: nat, trace: seq<Timed>, m: nat, n: nat)
    requires m <= n <= |trace|
    ensures After(window, capacity, trace, m).out <= After(window, capacity, trace, n).out
  {
    hide After, Step;
    if m < n {
      OutGrows(window, capacity, trace, m, n - 1);
      AfterStep(window, capacity, trace, n);
      StepOut(After(window, capacity, trace, n - 1), trace[n - 1], n - 1);
    }
  }

  lemma StepOut(g: Gate, t: Timed, id: nat)
    ensures g.out <= Step(g, t, id).out
  {
    hide Suppresses, Full, Displaced, SortedKeys, Due, Emissions;
  }

  /** A record that names the fallback when it is first let go. */
  lemma RecordOfRelease(window: int, capacity: nat, trace: seq<Timed>, j: nat, i: nat) returns (l: nat)
    requires 0 < window && Monotone(trace) && i < j < |trace| && FallbackAt(trace, i) && AcceptedAt(window, capacity, trace, i)
    requires Undisturbed(window, capacity, trace, i, j) && Releases(window, trace, j, i)
    ensures var out := After(window, capacity, trace, j + 1).out; l < |out| && out[l].id == i && out[l].step == j
  {
    hide After, AcceptedAt, Undisturbed, Releases, Replaces, WaitingFates, EmissionOk;
    var g := After(window, capacity, trace, j + 1);
    assert ReleasedBefore(window, capacity, trace, i, j + 1);
    FatesMean(window, capacity, trace, j + 1, i);
    FatesStay(window, capacity, trace, j + 1);
    l :| 0 <= l < |g.out| && g.out[l].id == i;
    FallbackGivesWay(window, capacity, trace, j + 1, g.out[l]);
    ReleasesIff(window, trace, g.out[l].step, i);
    if g.out[l].step < j {
      NotYetReleased(window, capacity, trace, i, j, g.out[l].step);
    }
  }

  lemma NotYetReleased(window: int, capacity: nat, trace: seq<Timed>, i: nat, n: nat, j: nat)
    requires FallbackAt(trace, i) && Undisturbed(window, capacity, trace, i, n) && i < j < n
    ensures !Releases(window, trace, j, i)
  {
  }

  /** A fallback is handed on by the first input that lets it go, with nothing before it that replaces it. */
  lemma EmittedAtFirstRelease(window: int, capacity: nat, trace: seq<Timed>, n: nat, x: Emission)
    requires 0 < window && n <= |trace| && Monotone(trace)
    requires x in After(window, capacity, trace, n).out && FallbackAt(trace, x.id)
    ensures x.id < x.step < n && AcceptedAt(window, capacity, trace, x.id)
    ensures Undisturbed(window, capacity, trace, x.id, x.step) && Releases(window, trace, x.step, x.id)
  {
    hide After, AcceptedAt, Replaces, Releases, Undisturbed, WaitingFates;
    FallbackGivesWay(window, capacity, trace, n, x);
    var i, out := x.id, After(window, capacity, trace, n).out;
    FatesStay(window, capacity, trace, n);
    var k :| 0 <= k < |out| && out[k] == x;
    FatesMean(window, capacity, trace, n, i);
    var j :| i < j < n && Undisturbed(window, capacity, trace, i, j) && Releases(window, trace, j, i);
    var l := RecordOfRelease(window, capacity, trace, j, i);
    OutGrows(window, capacity, trace, j + 1, n);
    assert l == k;
  }
}
