/** Choosing a bounded number of items, evenly spaced where nothing else decides: apps/desktop/frontend/src/rendering/lod.ts. */
module LodChoice {
  import opened Common

  // ----- spacing a few picks over many items -----

  /** The item picked for place i of count places, Math.floor((i * (n - 1)) / (count - 1)). */
  function Spaced(i: nat, n: nat, count: nat): int
    requires 2 <= count
  {
    (i * (n - 1)) / (count - 1)
  }

  function EvenlySpaced<T>(items: seq<T>, count: int): seq<T> {
    if count <= 0 || items == [] then []
    else if count >= |items| then items
    else if count == 1 then [items[0]]
    else
      seq(count, i requires 0 <= i < count => SpacedInRange(i, |items|, count); items[Spaced(i, |items|, count)])
  }

  lemma DivSum(x: int, y: int, d: int)
    requires 0 < d && 0 <= x && 0 <= y
    ensures x / d + y / d <= (x + y) / d <= x / d + y / d + 1
  {
    var p, q := x / d, y / d;
    var r := x % d + y % d;
    assert x + y == (p + q) * d + r && (p + q + 1) * d == (p + q) * d + d;
    if r < d {
      DivBounds(x + y, d, p + q);
    } else {
      DivBounds(x + y, d, p + q + 1);
    }
  }

  lemma SpacedInRange(i: nat, n: nat, count: nat)
    requires 2 <= count <= n && i < count
    ensures 0 <= Spaced(i, n, count) < n
  {
    var x, d := i * (n - 1), count - 1;
    Multiplied(0, i, n - 1);
    Multiplied(i, count - 1, n - 1);
    DivMonotone(x, d * (n - 1), d);
    DivExact(n - 1, d);
    DivPositive(x, d);
  }

  lemma DivMonotone(x: int, y: int, d: int)
    requires 0 <= x <= y && 0 < d
    ensures x / d <= y / d
  {
    DivSum(x, y - x, d);
    DivPositive(y - x, d);
  }

  lemma DivExact(q: int, d: int)
    requires 0 < d
    ensures (d * q) / d == q
  {
    DivBounds(d * q, d, q);
  }

  lemma DivPositive(x: int, d: int)
    requires 0 <= x && 0 < d
    ensures 0 <= x / d && (d <= x ==> 1 <= x / d)
  {
  }

  /** The gaps between neighbouring picks are all the same, or one apart. */
  lemma GapsAreEven(i: nat, n: nat, count: nat)
    requires 2 <= count <= n && i + 1 < count
    ensures var gap := (n - 1) / (count - 1);
            1 <= gap && Spaced(i, n, count) + gap <= Spaced(i + 1, n, count) <= Spaced(i, n, count) + gap + 1
  {
    assert (i + 1) * (n - 1) == i * (n - 1) + (n - 1);
    DivSum(i * (n - 1), n - 1, count - 1);
    DivPositive(n - 1, count - 1);
  }

  lemma {:induction false} SpacedIncreases(i: nat, j: nat, n: nat, count: nat)
    requires 2 <= count <= n && i < j < count
    ensures Spaced(i, n, count) < Spaced(j, n, count)
    decreases j
  {
    GapsAreEven(j - 1, n, count);
    if i < j - 1 {
      SpacedIncreases(i, j - 1, n, count);
    }
  }

  /** The first and the last item are always picked. */
  lemma SpacedEnds(n: nat, count: nat)
    requires 2 <= count <= n
    ensures Spaced(0, n, count) == 0 && Spaced(count - 1, n, count) == n - 1
  {
    DivExact(n - 1, count - 1);
  }

  /** Different items stay different, and none is made up. */
  lemma EvenlySpacedLaw<T>(items: seq<T>, count: int)
    requires Distinct(items)
    ensures |EvenlySpaced(items, count)| == Max(0, Min(count, |items|))
    ensures Distinct(EvenlySpaced(items, count))
    ensures forall x :: x in EvenlySpaced(items, count) ==> x in items
  {
    if 2 <= count < |items| {
      forall i, j | 0 <= i < j < count ensures EvenlySpaced(items, count)[i] != EvenlySpaced(items, count)[j] {
        SpacedInRange(i, |items|, count);
        SpacedInRange(j, |items|, count);
        SpacedIncreases(i, j, |items|, count);
      }
      forall i | 0 <= i < count ensures EvenlySpaced(items, count)[i] in items {
        SpacedInRange(i, |items|, count);
      }
    }
  }

  /** Array.from with the index formula. */
  method SpaceEvenly<T>(items: seq<T>, count: int) returns (picked: seq<T>)
    ensures picked == EvenlySpaced(items, count)
  {
    if count <= 0 || |items| == 0 {
      return [];
    }
    if count >= |items| {
      return items;
    }
    if count == 1 {
      return [items[0]];
    }
    picked := [];
    for i := 0 to count
      invariant picked == EvenlySpaced(items, count)[..i]
    {
      SpacedInRange(i, |items|, count);
      var itemIndex := (i * (|items| - 1)) / (count - 1);
      picked := picked + [items[itemIndex]];
    }
  }

  // ----- the bounded set of chosen items -----

  function Add<K, T>(chosen: map<K, T>, key: T -> K, item: T, limit: nat): map<K, T> {
    if |chosen| < limit then chosen[key(item) := item] else chosen
  }

  function AddAll<K, T>(chosen: map<K, T>, key: T -> K, items: seq<T>, limit: nat): map<K, T> {
    if items == [] then chosen
    else Add(AddAll(chosen, key, items[..|items| - 1], limit), key, items[|items| - 1], limit)
  }

  /** The loop from the newest item down, until target items are chosen. */
  function AddNewest<K, T>(chosen: map<K, T>, key: T -> K, ordered: seq<T>, target: nat, limit: nat): map<K, T>
    decreases |ordered|
  {
    if ordered == [] || target <= |chosen| then chosen
    else AddNewest(Add(chosen, key, ordered[|ordered| - 1], limit), key, ordered[..|ordered| - 1], target, limit)
  }

  /** The items of ordered whose key is chosen (or not). */
  function Kept<K(==), T>(ordered: seq<T>, key: T -> K, chosen: map<K, T>, chosenOnes: bool): seq<T> {
    if ordered == [] then []
    else
      var x := ordered[|ordered| - 1];
      Kept(ordered[..|ordered| - 1], key, chosen, chosenOnes) + if (key(x) in chosen) == chosenOnes then [x] else []
  }

  /** Every chosen item is one of the items, under its own key. */
  ghost predicate From<K, T>(chosen: map<K, T>, key: T -> K, items: set<T>) {
    forall k :: k in chosen ==> chosen[k] in items && key(chosen[k]) == k
  }

  ghost predicate KeysTell<K, T(!new)>(key: T -> K, items: set<T>) {
    forall x, y :: x in items && y in items && key(x) == key(y) ==> x == y
  }

  ghost predicate HasKey<K, T>(line: seq<T>, key: T -> K, k: K) {
    exists i :: 0 <= i < |line| && key(line[i]) == k
  }

  lemma AddLaw<K, T(!new)>(chosen: map<K, T>, key: T -> K, item: T, limit: nat, items: set<T>)
    requires From(chosen, key, items) && item in items && |chosen| <= limit
    ensures var r := Add(chosen, key, item, limit);
            && From(r, key, items) && chosen.Keys <= r.Keys && |chosen| <= |r| <= Min(limit, |chosen| + 1)
            && (|chosen| < limit ==> key(item) in r)
            && (|chosen| < limit && key(item) !in chosen ==> |r| == |chosen| + 1)
  {
    assert chosen[key(item) := item].Keys == chosen.Keys + {key(item)};
    assert |chosen| == |chosen.Keys|;
  }

  /** The first items in line get in, as many as there is room for. */
  lemma {:induction false} AddAllLaw<K, T(!new)>(chosen: map<K, T>, key: T -> K, line: seq<T>, limit: nat, items: set<T>)
    requires From(chosen, key, items) && (forall i :: 0 <= i < |line| ==> line[i] in items) && |chosen| <= limit
    ensures var r := AddAll(chosen, key, line, limit);
            && From(r, key, items) && chosen.Keys <= r.Keys && |chosen| <= |r| <= Min(limit, |chosen| + |line|)
            && (forall i :: 0 <= i < |line| && |chosen| + i < limit ==> key(line[i]) in r)
  {
    hide Add;
    if line != [] {
      var last := |line| - 1;
      AddAllLaw(chosen, key, line[..last], limit, items);
      AddLaw(AddAll(chosen, key, line[..last], limit), key, line[last], limit, items);
    }
  }

  /** Different items of which none is chosen yet. */
  ghost predicate AreNew<K, T(!new)>(line: seq<T>, key: T -> K, chosen: map<K, T>, items: set<T>) {
    && Distinct(line) && KeysTell(key, items)
    && (forall i :: 0 <= i < |line| ==> line[i] in items && key(line[i]) !in chosen)
  }

  lemma FrontIsNew<K, T(!new)>(line: seq<T>, key: T -> K, chosen: map<K, T>, items: set<T>)
    requires line != [] && AreNew(line, key, chosen, items)
    ensures AreNew(line[..|line| - 1], key, chosen, items)
    ensures line[|line| - 1] in items && key(line[|line| - 1]) !in chosen
  {
  }

  /** New items each take a place. */
  lemma {:induction false} AddAllNew<K, T(!new)>(chosen: map<K, T>, key: T -> K, line: seq<T>, limit: nat, items: set<T>)
    requires From(chosen, key, items) && AreNew(line, key, chosen, items) && |chosen| + |line| <= limit
    ensures var r := AddAll(chosen, key, line, limit);
            && From(r, key, items) && |r| == |chosen| + |line|
            && (forall k :: k in r <==> k in chosen || HasKey(line, key, k))
  {
    hide Add, AddAll, KeysTell, HasKey, From, AreNew, Elements;
    if line == [] {
      AddAllNone(chosen, key, limit);
    } else {
      var last := |line| - 1;
      FrontIsNew(line, key, chosen, items);
      AddAllNew(chosen, key, line[..last], limit, items);
      AddAllSnoc(chosen, key, line, limit);
      HasKeyLast(line, key, chosen, items);
      var before, k := AddAll(chosen, key, line[..last], limit), key(line[last]);
      assert k !in before <==> k !in chosen && !HasKey(line[..last], key, k);
      AddNewOne(before, key, line[last], limit, items);
    }
  }

  lemma AddAllSnoc<K, T(!new)>(chosen: map<K, T>, key: T -> K, line: seq<T>, limit: nat)
    requires line != []
    ensures AddAll(chosen, key, line, limit) == Add(AddAll(chosen, key, line[..|line| - 1], limit), key, line[|line| - 1], limit)
  {
  }

  lemma AddNewOne<K, T(!new)>(chosen: map<K, T>, key: T -> K, item: T, limit: nat, items: set<T>)
    requires From(chosen, key, items) && item in items && |chosen| < limit && key(item) !in chosen
    ensures var r := Add(chosen, key, item, limit);
            From(r, key, items) && |r| == |chosen| + 1 && forall k :: k in r <==> k in chosen || k == key(item)
  {
    AddLaw(chosen, key, item, limit, items);
  }

  lemma AddAllNone<K, T(!new)>(chosen: map<K, T>, key: T -> K, limit: nat)
    ensures AddAll(chosen, key, [], limit) == chosen
    ensures forall k :: !HasKey([], key, k)
  {
  }

  lemma HasKeyLast<K, T(!new)>(line: seq<T>, key: T -> K, chosen: map<K, T>, items: set<T>)
    requires line != [] && AreNew(line, key, chosen, items)
    ensures var last := |line| - 1;
            && !HasKey(line[..last], key, key(line[last]))
            && (forall k :: HasKey(line, key, k) <==> HasKey(line[..last], key, k) || k == key(line[last]))
  {
    var last := |line| - 1;
    forall i | 0 <= i < last ensures key(line[i]) != key(line[last]) {
      KeysDiffer(key, items, line[i], line[last]);
    }
  }

  lemma KeysDiffer<K, T(!new)>(key: T -> K, items: set<T>, x: T, y: T)
    requires KeysTell(key, items) && x in items && y in items && x != y
    ensures key(x) != key(y)
  {
  }

  /** The newest items get in, as many as are missing to the target. */
  lemma {:induction false} AddNewestLaw<K, T(!new)>(chosen: map<K, T>, key: T -> K, ordered: seq<T>, target: nat, limit: nat, items: set<T>)
    requires From(chosen, key, items) && (forall i :: 0 <= i < |ordered| ==> ordered[i] in items) && |chosen| <= limit && target <= limit
    ensures var r := AddNewest(chosen, key, ordered, target, limit);
            && From(r, key, items) && chosen.Keys <= r.Keys && |chosen| <= |r| <= Max(|chosen|, target)
            && (forall j :: 0 <= j < |ordered| && |chosen| + (|ordered| - 1 - j) < target ==> key(ordered[j]) in r)
    decreases |ordered|
  {
    hide Add;
    if ordered != [] && |chosen| < target {
      var last := |ordered| - 1;
      AddLaw(chosen, key, ordered[last], limit, items);
      AddNewestLaw(Add(chosen, key, ordered[last], limit), key, ordered[..last], target, limit, items);
      var r := AddNewest(chosen, key, ordered, target, limit);
      forall j | 0 <= j < |ordered| && |chosen| + (|ordered| - 1 - j) < target ensures key(ordered[j]) in r {
        if j < last {
          assert ordered[..last][j] == ordered[j];
        }
      }
    }
  }

  lemma {:induction false} KeptLaw<K, T(!new)>(ordered: seq<T>, key: T -> K, chosen: map<K, T>, chosenOnes: bool)
    ensures forall x :: x in Kept(ordered, key, chosen, chosenOnes) <==> x in ordered && (key(x) in chosen) == chosenOnes
    ensures Distinct(ordered) ==> Distinct(Kept(ordered, key, chosen, chosenOnes))
  {
    KeptMembers(ordered, key, chosen, chosenOnes);
    if Distinct(ordered) {
      KeptDistinct(ordered, key, chosen, chosenOnes);
    }
  }

  lemma {:induction false} KeptMembers<K, T(!new)>(ordered: seq<T>, key: T -> K, chosen: map<K, T>, chosenOnes: bool)
    ensures forall x :: x in Kept(ordered, key, chosen, chosenOnes) <==> x in ordered && (key(x) in chosen) == chosenOnes
  {
    if ordered != [] {
      KeptMembers(ordered[..|ordered| - 1], key, chosen, chosenOnes);
      assert ordered == ordered[..|ordered| - 1] + [ordered[|ordered| - 1]];
    }
  }

  lemma {:induction false} KeptDistinct<K, T(!new)>(ordered: seq<T>, key: T -> K, chosen: map<K, T>, chosenOnes: bool)
    requires Distinct(ordered)
    ensures Distinct(Kept(ordered, key, chosen, chosenOnes))
  {
    if ordered != [] {
      var front, last := ordered[..|ordered| - 1], ordered[|ordered| - 1];
      KeptDistinct(front, key, chosen, chosenOnes);
      KeptMembers(front, key, chosen, chosenOnes);
      var kept := Kept(front, key, chosen, chosenOnes);
      forall i | 0 <= i < |kept| ensures kept[i] != last {
        assert kept[i] in kept;
      }
    }
  }

  lemma KeptChosen<K, T(!new)>(ordered: seq<T>, key: T -> K, chosen: map<K, T>)
    ensures forall x :: x in ordered && key(x) in chosen ==> x in Kept(ordered, key, chosen, true)
    ensures forall x :: x in Kept(ordered, key, chosen, true) ==> x in ordered
  {
    KeptLaw(ordered, key, chosen, true);
  }

  lemma {:induction false} KeptSorted<K, T(!new)>(less: (T, T) -> bool, ordered: seq<T>, key: T -> K, chosen: map<K, T>, chosenOnes: bool)
    requires SortedBy(less, ordered)
    ensures SortedBy(less, Kept(ordered, key, chosen, chosenOnes))
  {
    if ordered != [] {
      var front := ordered[..|ordered| - 1];
      KeptSorted(less, front, key, chosen, chosenOnes);
      KeptLaw(front, key, chosen, chosenOnes);
      var kept := Kept(front, key, chosen, chosenOnes);
      forall i | 0 <= i < |kept| ensures less(kept[i], ordered[|ordered| - 1]) {
        assert kept[i] in front;
        var j :| 0 <= j < |front| && front[j] == kept[i];
        assert ordered[j] == kept[i];
      }
    }
  }

  lemma {:induction false} KeptSplits<K, T(!new)>(ordered: seq<T>, key: T -> K, chosen: map<K, T>)
    ensures |Kept(ordered, key, chosen, true)| + |Kept(ordered, key, chosen, false)| == |ordered|
  {
    if ordered != [] {
      KeptSplits(ordered[..|ordered| - 1], key, chosen);
    }
  }

  /** As many items are kept as are chosen. */
  lemma KeptCounts<K, T(!new)>(ordered: seq<T>, key: T -> K, chosen: map<K, T>)
    requires Distinct(ordered) && KeysTell(key, Elements(ordered)) && From(chosen, key, Elements(ordered))
    ensures |Kept(ordered, key, chosen, true)| == |chosen|
  {
    var kept := Kept(ordered, key, chosen, true);
    KeptLaw(ordered, key, chosen, true);
    var keys := seq(|kept|, i requires 0 <= i < |kept| => key(kept[i]));
    forall i, j | 0 <= i < j < |keys| ensures keys[i] != keys[j] {
      assert kept[i] in ordered && kept[j] in ordered;
    }
    forall k ensures k in keys <==> k in chosen {
      if k in chosen {
        assert chosen[k] in ordered && chosen[k] in kept;
        var i :| 0 <= i < |kept| && kept[i] == chosen[k];
        assert keys[i] == k;
      } else {
        assert forall i :: 0 <= i < |kept| ==> kept[i] in kept;
      }
    }
    DistinctSize(keys);
    assert Elements(keys) == chosen.Keys;
    assert |chosen| == |chosen.Keys|;
  }

  /** What is still free is filled from all the rest, evenly spaced; then everything chosen is listed in order. */
  function Filled<K(==), T>(ordered: seq<T>, key: T -> K, chosen: map<K, T>, limit: nat): map<K, T> {
    AddAll(chosen, key, EvenlySpaced(Kept(ordered, key, chosen, false), limit - |chosen|), limit)
  }

  ghost predicate Proper<K, T(!new)>(ordered: seq<T>, key: T -> K) {
    Distinct(ordered) && KeysTell(key, Elements(ordered))
  }

  /** With more items than the limit, filling up leaves exactly limit of them and drops none already chosen. */
  lemma FilledLaw<K, T(!new)>(ordered: seq<T>, key: T -> K, chosen: map<K, T>, limit: nat)
    requires Proper(ordered, key) && From(chosen, key, Elements(ordered)) && |chosen| <= limit <= |ordered|
    ensures var r := Filled(ordered, key, chosen, limit);
            From(r, key, Elements(ordered)) && chosen.Keys <= r.Keys && |r| == limit && |Kept(ordered, key, r, true)| == limit
  {
    hide EvenlySpaced, AddAll, Kept, KeysTell;
    var rest := Kept(ordered, key, chosen, false);
    KeptCounts(ordered, key, chosen);
    KeptSplits(ordered, key, chosen);
    KeptLaw(ordered, key, chosen, false);
    EvenlySpacedLaw(rest, limit - |chosen|);
    var line := EvenlySpaced(rest, limit - |chosen|);
    forall i | 0 <= i < |line| ensures line[i] in Elements(ordered) && key(line[i]) !in chosen {
      assert line[i] in line;
    }
    AddAllNew(chosen, key, line, limit, Elements(ordered));
    KeptCounts(ordered, key, Filled(ordered, key, chosen, limit));
  }

  lemma SpacedMembers<T(!new)>(items: seq<T>, count: int)
    ensures forall x :: x in EvenlySpaced(items, count) ==> x in items
  {
    if 2 <= count < |items| {
      forall i | 0 <= i < count ensures EvenlySpaced(items, count)[i] in items {
        SpacedInRange(i, |items|, count);
      }
    }
  }

  /** Filling up takes from the items and stays within the limit, even where keys repeat. */
  lemma FilledFrom<K, T(!new)>(ordered: seq<T>, key: T -> K, chosen: map<K, T>, limit: nat)
    requires From(chosen, key, Elements(ordered)) && |chosen| <= limit
    ensures var r := Filled(ordered, key, chosen, limit);
            From(r, key, Elements(ordered)) && chosen.Keys <= r.Keys && |r| <= limit
  {
    hide EvenlySpaced, AddAll, Kept, From;
    var rest := Kept(ordered, key, chosen, false);
    KeptLaw(ordered, key, chosen, false);
    var line := EvenlySpaced(rest, limit - |chosen|);
    SpacedMembers(rest, limit - |chosen|);
    forall i | 0 <= i < |line| ensures line[i] in Elements(ordered) {
      assert line[i] in line;
    }
    AddAllLaw(chosen, key, line, limit, Elements(ordered));
  }
}
