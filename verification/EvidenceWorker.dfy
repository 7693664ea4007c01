/** The goroutine behind the evidence gate, on its own maps: run, process, flushEvidence, sortStrings. */
module EvidenceWorker {
  import opened Common
  import opened Protocol
  import opened EvidenceGate

  // ----- sortStrings -----

  /** a may stand before b. */
  predicate InOrder(a: string, b: string) {
    !StringLess(b, a)
  }

  lemma InOrderTransitive(a: string, b: string, c: string)
    requires InOrder(a, b) && InOrder(b, c)
    ensures InOrder(a, c)
  {
    if StringLess(c, a) {
      if a == b {
      } else {
        StringLessTotal(a, b);
        StringLessTransitive(c, a, b);
      }
    }
  }

  method Swap(values: array<string>, i: nat, j: nat)
    requires i < j < values.Length
    modifies values
    ensures values[..] == old(values[..])[i := old(values[j])][j := old(values[i])]
    ensures multiset(values[..]) == multiset(old(values[..]))
  {
    values[i], values[j] := values[j], values[i];
  }

  /** Everything up to index is in order, the element at cursor aside when it is the later one. */
  ghost predicate OrderedBut(values: seq<string>, index: nat, cursor: nat)
    requires cursor <= index < |values|
  {
    forall i, j :: 0 <= i < j <= index && j != cursor ==> InOrder(values[i], values[j])
  }

  lemma SinkStep(values: seq<string>, swapped: seq<string>, index: nat, cursor: nat)
    requires 0 < cursor <= index < |values| && OrderedBut(values, index, cursor)
    requires StringLess(values[cursor], values[cursor - 1])
    requires swapped == values[cursor - 1 := values[cursor]][cursor := values[cursor - 1]]
    ensures OrderedBut(swapped, index, cursor - 1)
  {
    forall i, j | 0 <= i < j <= index && j != cursor - 1 ensures InOrder(swapped[i], swapped[j]) {
      if j == cursor && i == cursor - 1 {
        if StringLess(swapped[j], swapped[i]) {
          StringLessTransitive(swapped[i], swapped[j], swapped[i]);
          StringLessIrreflexive(swapped[i]);
        }
      }
    }
  }

  lemma SinkDone(values: seq<string>, index: nat, cursor: nat)
    requires cursor <= index < |values| && OrderedBut(values, index, cursor)
    requires cursor == 0 || !StringLess(values[cursor], values[cursor - 1])
    ensures forall i, j :: 0 <= i < j <= index ==> InOrder(values[i], values[j])
  {
    forall i | 0 <= i < cursor ensures InOrder(values[i], values[cursor]) {
      if i < cursor - 1 {
        InOrderTransitive(values[i], values[cursor - 1], values[cursor]);
      }
    }
  }

  /** Insertion by adjacent swaps. */
  method SortStrings(values: array<string>)
    modifies values
    ensures multiset(values[..]) == multiset(old(values[..]))
    ensures forall i, j :: 0 <= i < j < values.Length ==> InOrder(values[i], values[j])
  {
    hide InOrder;
    var index := 1;
    while index < values.Length
      invariant 0 < index
      invariant multiset(values[..]) == multiset(old(values[..]))
      invariant forall i, j :: 0 <= i < j < index && j < values.Length ==> InOrder(values[i], values[j])
    {
      SinkAt(values, index);
      index := index + 1;
    }
  }

  method SinkAt(values: array<string>, index: nat)
    requires 0 < index < values.Length
    requires forall i, j :: 0 <= i < j < index ==> InOrder(values[i], values[j])
    modifies values
    ensures multiset(values[..]) == multiset(old(values[..]))
    ensures forall i, j :: 0 <= i < j <= index ==> InOrder(values[i], values[j])
  {
    hide InOrder;
    var cursor := index;
    while cursor > 0 && StringLess(values[cursor], values[cursor - 1])
      invariant cursor <= index
      invariant OrderedBut(values[..], index, cursor)
      invariant multiset(values[..]) == multiset(old(values[..]))
    {
      ghost var before := values[..];
      Swap(values, cursor - 1, cursor);
      SinkStep(before, values[..], index, cursor);
      cursor := cursor - 1;
    }
    SinkDone(values[..], index, cursor);
    forall i, j | 0 <= i < j <= index ensures InOrder(values[i], values[j]) {
      assert InOrder(values[..][i], values[..][j]);
    }
  }

  /** Sorting distinct keys gives the one strictly sorted list of them. */
  lemma SortedDistinctKeys(s: seq<string>, keys: set<string>)
    requires Elements(s) == keys && Distinct(s)
    requires forall i, j :: 0 <= i < j < |s| ==> InOrder(s[i], s[j])
    ensures s == SortedKeys(keys)
  {
    forall i, j | 0 <= i < j < |s| ensures StringLess(s[i], s[j]) {
      StringLessTotal(s[i], s[j]);
    }
    StringLessOrders(keys);
    SortedIsUnique(StringLess, s, SortedKeys(keys));
  }

  // ----- the worker -----

  class Worker {
    const window: int
    const capacity: nat
    var pending: map<string, Waiting>
    var recentStrong: map<string, Time>
    var emitted: seq<Emission>
    ghost var fates: map<nat, Fate>

    ghost function View(): Gate
      reads this
    {
      Gate(window, capacity, pending, recentStrong, emitted, fates)
    }

    constructor (window: int, capacity: nat)
      ensures View() == Gate(window, capacity, map[], map[], [], map[])
    {
      this.window, this.capacity := window, capacity;
      pending, recentStrong, emitted, fates := map[], map[], [], map[];
    }

    /** One event of a batch. */
    method Process(e: Event, key: string, id: nat, now: Time)
      modifies this
      ensures View() == Arrive(old(View()), e, key, id, now)
    {
      if key == "" {
        emitted := emitted + [Emission(e, id, id)];
        return;
      }
      if IsFallback(e) {
        if key in recentStrong && now - recentStrong[key] <= window {
          fates := fates[id := Suppressed];
          return;
        }
        if |pending| >= capacity {
          if key !in pending {
            fates := fates[id := OverCapacity];
            return;
          }
        }
        fates := Displaced(View(), key)[id := IsWaiting];
        pending := pending[key := Waiting(e, id, now + window)];
        return;
      }
      fates := Displaced(View(), key);
      pending := pending - {key};
      recentStrong := recentStrong[key := now];
      emitted := emitted + [Emission(e, id, id)];
    }

    /** The keys whose window is over, or all of them, in sorted order. */
    method DueKeys(now: Time, all: bool) returns (keys: seq<string>)
      ensures keys == SortedKeys(Due(View(), now, all))
    {
      var found: seq<string> := [];
      var todo := pending.Keys;
      while todo != {}
        invariant todo <= pending.Keys
        invariant Elements(found) == Due(View(), now, all) - todo
        invariant Distinct(found)
      {
        var key :| key in todo;
        if all || now >= pending[key].expires {
          ElementsSnoc(found, key);
          found := found + [key];
        }
        todo := todo - {key};
      }
      var values := new string[|found|](i requires 0 <= i < |found| => found[i]);
      assert values[..] == found;
      SortStrings(values);
      SameMultiset(values[..], found);
      DistinctByMultiset(found, values[..]);
      keys := values[..];
      SortedDistinctKeys(keys, Due(View(), now, all));
    }

    method FlushEvidence(now: Time, all: bool, step: nat)
      modifies this
      ensures View() == Flush(old(View()), now, all, step)
    {
      hide SortedKeys, Due;
      var keys := DueKeys(now, all);
      DueArePending(View(), now, all, keys);
      ghost var before := View();
      ghost var emissions := Emissions(before, keys, step);
      for i := 0 to |keys|
        invariant recentStrong == before.recentStrong && fates == before.fates
        invariant emitted == before.out + emissions[..i]
        invariant forall k :: k in pending <==> k in before.pending && k !in keys[..i]
        invariant forall k :: k in pending ==> pending[k] == before.pending[k]
      {
        var key := keys[i];
        assert key in keys && key !in keys[..i];
        assert keys[..i + 1] == keys[..i] + [key];
        assert emissions[..i + 1] == emissions[..i] + [emissions[i]];
        emitted := emitted + [Emission(pending[key].event, pending[key].id, step)];
        pending := pending - {key};
      }
      assert keys[..|keys|] == keys && emissions[..|keys|] == emissions;
      assert pending == before.pending - Elements(keys);
      fates := EmitKeys(before, keys, step).fates;
    }

    /** The timer: hand on what is due, then forget strong events older than two windows. */
    method TickAt(now: Time, step: nat)
      modifies this
      ensures View() == Step(old(View()), Timed(Tick, now), step)
    {
      hide Flush;
      FlushEvidence(now, false, step);
      ghost var flushed := View();
      var todo := recentStrong.Keys;
      while todo != {}
        invariant todo <= recentStrong.Keys <= flushed.recentStrong.Keys
        invariant View().(recentStrong := flushed.recentStrong) == flushed
        invariant forall k :: k in recentStrong ==> recentStrong[k] == flushed.recentStrong[k]
        invariant forall k :: k in flushed.recentStrong ==>
                    (k in recentStrong <==> k in todo || now - flushed.recentStrong[k] <= 2 * window)
      {
        var key :| key in todo;
        if now - recentStrong[key] > 2 * window {
          recentStrong := recentStrong - {key};
        }
        todo := todo - {key};
      }
      assert recentStrong == Prune(flushed, now).recentStrong;
    }
  }

  lemma DueArePending(g: Gate, now: Time, all: bool, keys: seq<string>)
    requires keys == SortedKeys(Due(g, now, all))
    ensures forall k :: k in keys ==> k in g.pending
  {
    assert forall k :: k in keys ==> k in Elements(keys);
  }
}
