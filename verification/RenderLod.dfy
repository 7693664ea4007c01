/** Level-of-detail selections: apps/desktop/frontend/src/rendering/lod.ts. */
module RenderLod {
  import opened Common
  import opened AccessPoints
  import opened LodChoice

  datatype Selection<T> = Selection(items: seq<T>, totalCount: nat, omittedCount: nat, active: bool)

  function Selected<T>(items: seq<T>, totalCount: nat): Selection<T> {
    var omitted := if totalCount < |items| then 0 else totalCount - |items|;
    Selection(items, totalCount, omitted, 0 < omitted)
  }

  /** None stands for a limit that is not a finite number. */
  function NormalizeLimit(limit: Option<real>): (n: nat)
    ensures 1 <= n
    ensures limit.Some? && 1.0 <= limit.value ==> n as real <= limit.value < n as real + 1.0
    ensures limit.None? || limit.value < 1.0 ==> n == 1
  {
    if limit.None? || limit.value.Floor < 1 then 1 else limit.value.Floor
  }

  function Reverse<T>(s: seq<T>): seq<T> {
    if s == [] then [] else Reverse(s[1..]) + [s[0]]
  }

  function AccessKey(a: Access): int {
    a.sequence
  }

  /** The three parts of the key; an empty list of sequences has neither a first nor a last one. */
  function PointKey(p: Point): (string, Option<int>, Option<int>) {
    (p.nodeId, if p.sequences == [] then None else Some(p.sequences[0]),
     if p.sequences == [] then None else Some(p.sequences[|p.sequences| - 1]))
  }

  predicate PointBefore(a: Point, b: Point) {
    a.latest.sequence < b.latest.sequence
  }

  /** Array.find */
  function First<T>(p: T -> bool, s: seq<T>): Option<T> {
    if s == [] then None else if p(s[0]) then Some(s[0]) else First(p, s[1..])
  }

  function Listed<T>(x: Option<T>): seq<T> {
    if x.Some? then [x.value] else []
  }

  /** The reduce of maximumAccess: the first of the greatest. */
  function Maximum(accesses: seq<Access>, value: Access -> int): Option<Access> {
    if accesses == [] then None
    else
      var m, x := Maximum(accesses[..|accesses| - 1], value), accesses[|accesses| - 1];
      if m.None? || value(x) > value(m.value) then Some(x) else m
  }

  function OrZero(lines: Option<int>): int {
    if lines.Some? then lines.value else 0
  }

  function Duration(a: Access): int { a.durationMs }

  function Added(a: Access): int { OrZero(a.linesAdded) }

  function Deleted(a: Access): int { OrZero(a.linesDeleted) }

  predicate Running(a: Access) { !a.ended }

  predicate IsActive(p: Point) { p.active }

  predicate IsAggregate(p: Point) { p.aggregate }

  function HasSequence(selected: Option<int>): Access -> bool {
    (a: Access) => selected == Some(a.sequence)
  }

  function Covers(selected: Option<int>): Point -> bool {
    (p: Point) => (if selected.Some? then selected.value else -1) in p.sequences
  }

  /** Those that are to be shown before any other, most important first. */
  function UrgentAccesses(ordered: seq<Access>, selected: Option<int>): seq<Access> {
    Listed(First(HasSequence(selected), ordered)) + Reverse(Where(Running, ordered))
    + Listed(Maximum(ordered, Duration)) + Listed(Maximum(ordered, Added)) + Listed(Maximum(ordered, Deleted))
  }

  function ChosenAccesses(ordered: seq<Access>, selected: Option<int>, limit: nat): map<int, Access> {
    var urgent := AddAll(map[], AccessKey, UrgentAccesses(ordered, selected), limit);
    var recent := AddNewest(urgent, AccessKey, ordered, Max(|urgent|, limit * 3 / 4), limit);
    Filled(ordered, AccessKey, recent, limit)
  }

  function ActivityItems(trail: seq<Access>, selected: Option<int>, limit: nat): seq<Access> {
    var ordered := Sort(AccessBefore, trail);
    if |ordered| <= limit then ordered else Kept(ordered, AccessKey, ChosenAccesses(ordered, selected, limit), true)
  }

  function UrgentPoints(ordered: seq<Point>, selected: Option<int>): seq<Point> {
    Listed(First(Covers(selected), ordered)) + Reverse(Where(IsActive, ordered))
  }

  type PointKeyType = (string, Option<int>, Option<int>)

  /** The urgent points, and aggregates up to a quarter of the limit. */
  function FirstPoints(ordered: seq<Point>, selected: Option<int>, limit: nat): map<PointKeyType, Point> {
    var urgent := AddAll(map[], PointKey, UrgentPoints(ordered, selected), limit);
    AddAll(urgent, PointKey, EvenlySpaced(Where(IsAggregate, ordered), Max(|urgent|, limit / 4) - |urgent|), limit)
  }

  function ChosenPoints(ordered: seq<Point>, selected: Option<int>, limit: nat): map<PointKeyType, Point> {
    var shown := FirstPoints(ordered, selected, limit);
    var recent := AddNewest(shown, PointKey, ordered, Max(|shown|, limit * 3 / 4), limit);
    Filled(ordered, PointKey, recent, limit)
  }

  function PointItems(points: seq<Point>, selected: Option<int>, limit: nat): seq<Point> {
    var ordered := Sort(PointBefore, points);
    if |ordered| <= limit then ordered else Kept(ordered, PointKey, ChosenPoints(ordered, selected, limit), true)
  }

  // ----- what the selections promise -----

  lemma {:induction false} ReverseLaw<T(!new)>(s: seq<T>)
    ensures |Reverse(s)| == |s| && forall i :: 0 <= i < |s| ==> Reverse(s)[i] == s[|s| - 1 - i]
  {
    if s != [] {
      ReverseLaw(s[1..]);
    }
  }

  lemma {:induction false} FirstLaw<T(!new)>(p: T -> bool, s: seq<T>)
    ensures First(p, s).Some? ==> First(p, s).value in s && p(First(p, s).value)
    ensures First(p, s).None? ==> forall x :: x in s ==> !p(x)
  {
    if s != [] && !p(s[0]) {
      FirstLaw(p, s[1..]);
      assert s == [s[0]] + s[1..];
    }
  }

  /** m is the first of the accesses with the greatest value. */
  ghost predicate FirstGreatest(accesses: seq<Access>, value: Access -> int, m: Access) {
    exists i :: 0 <= i < |accesses| && accesses[i] == m && GreatestFrom(accesses, value, i)
  }

  ghost predicate GreatestFrom(accesses: seq<Access>, value: Access -> int, i: nat)
    requires i < |accesses|
  {
    forall j :: 0 <= j < |accesses| ==> if j < i then value(accesses[j]) < value(accesses[i]) else value(accesses[j]) <= value(accesses[i])
  }

  lemma {:induction false} MaximumIsFirst(accesses: seq<Access>, value: Access -> int)
    requires accesses != []
    ensures Maximum(accesses, value).Some? && FirstGreatest(accesses, value, Maximum(accesses, value).value)
  {
    var last := |accesses| - 1;
    if last == 0 {
      assert GreatestFrom(accesses, value, 0);
    } else {
      var front := accesses[..last];
      MaximumIsFirst(front, value);
      var i :| 0 <= i < last && front[i] == Maximum(front, value).value && GreatestFrom(front, value, i);
      assert forall j :: 0 <= j < last ==> accesses[j] == front[j];
      assert GreatestFrom(accesses, value, if value(accesses[last]) > value(accesses[i]) then last else i);
    }
  }

  lemma {:induction false} MaximumLaw(accesses: seq<Access>, value: Access -> int)
    ensures Maximum(accesses, value).None? <==> accesses == []
    ensures Maximum(accesses, value).Some? ==>
              Maximum(accesses, value).value in accesses
              && forall x :: x in accesses ==> value(x) <= value(Maximum(accesses, value).value)
  {
    if accesses != [] {
      MaximumLaw(accesses[..|accesses| - 1], value);
      assert accesses == accesses[..|accesses| - 1] + [accesses[|accesses| - 1]];
    }
  }

  /** Points end in different accesses, and differ in their keys. */
  ghost predicate DistinctPoints(points: seq<Point>) {
    forall i, j :: 0 <= i < j < |points| ==>
      points[i].latest.sequence != points[j].latest.sequence && PointKey(points[i]) != PointKey(points[j])
  }

  lemma SortedIsProper(ordered: seq<Access>)
    requires SortedBy(AccessBefore, ordered)
    ensures Proper(ordered, AccessKey)
  {
  }

  lemma SortPoints(points: seq<Point>)
    requires DistinctPoints(points)
    ensures var ordered := Sort(PointBefore, points);
            && SortedBy(PointBefore, ordered) && |ordered| == |points| && Elements(ordered) == Elements(points)
            && Proper(ordered, PointKey) && Orders(PointBefore, Elements(ordered))
  {
    SortSorted(PointBefore, points);
    SortElements(PointBefore, points);
  }

  lemma ReverseMembers<T(!new)>(s: seq<T>)
    ensures |Reverse(s)| == |s| && forall x :: x in Reverse(s) <==> x in s
  {
    ReverseLaw(s);
    forall x | x in s ensures x in Reverse(s) {
      var k :| 0 <= k < |s| && s[k] == x;
      assert Reverse(s)[|s| - 1 - k] == x;
    }
  }

  lemma UrgentAccessMembers(ordered: seq<Access>, selected: Option<int>)
    ensures var line := UrgentAccesses(ordered, selected);
            && |line| <= |Where(Running, ordered)| + 4
            && (forall x :: x in line <==>
                  || Some(x) in {First(HasSequence(selected), ordered), Maximum(ordered, Duration), Maximum(ordered, Added), Maximum(ordered, Deleted)}
                  || (x in ordered && Running(x)))
  {
    hide Where, Reverse, First, Maximum;
    WhereLaw(Running, ordered);
    ReverseMembers(Where(Running, ordered));
  }

  lemma UrgentAccessesAreListed(ordered: seq<Access>, selected: Option<int>)
    ensures forall x :: x in UrgentAccesses(ordered, selected) ==> x in ordered
  {
    hide UrgentAccesses, First, Maximum;
    UrgentAccessMembers(ordered, selected);
    FirstLaw(HasSequence(selected), ordered);
    MaximumLaw(ordered, Duration);
    MaximumLaw(ordered, Added);
    MaximumLaw(ordered, Deleted);
  }

  /** All that is kept, told by keys: the front of the urgent line, and the newest while three quarters are not full. */
  lemma ChosenAccessesLaw(ordered: seq<Access>, selected: Option<int>, limit: nat)
    requires Proper(ordered, AccessKey) && 1 <= limit <= |ordered|
    ensures var r, line := ChosenAccesses(ordered, selected, limit), UrgentAccesses(ordered, selected);
            && |Kept(ordered, AccessKey, r, true)| == limit && From(r, AccessKey, Elements(ordered))
            && (forall i :: 0 <= i < |line| && i < limit ==> AccessKey(line[i]) in r)
            && (forall j :: 0 <= j < |ordered| && |line| + (|ordered| - 1 - j) < limit * 3 / 4 ==> AccessKey(ordered[j]) in r)
  {
    hide UrgentAccesses, AddAll, AddNewest, Filled, Kept, Proper;
    var line := UrgentAccesses(ordered, selected);
    UrgentAccessesAreListed(ordered, selected);
    assert forall i :: 0 <= i < |line| ==> line[i] in ordered;
    AddAllLaw(map[], AccessKey, line, limit, Elements(ordered));
    var urgent := AddAll(map[], AccessKey, line, limit);
    var target := Max(|urgent|, limit * 3 / 4);
    AddNewestLaw(urgent, AccessKey, ordered, target, limit, Elements(ordered));
    FilledLaw(ordered, AccessKey, AddNewest(urgent, AccessKey, ordered, target, limit), limit);
  }

  /** Also where sequences repeat: what is chosen is in the trail, within the limit, and has the front of the urgent line by key. */
  lemma ChosenAccessesFrom(ordered: seq<Access>, selected: Option<int>, limit: nat)
    ensures var r, line := ChosenAccesses(ordered, selected, limit), UrgentAccesses(ordered, selected);
            && From(r, AccessKey, Elements(ordered)) && |r| <= limit
            && (forall i :: 0 <= i < |line| && i < limit ==> AccessKey(line[i]) in r)
  {
    hide UrgentAccesses, AddAll, AddNewest, Filled, AccessKey;
    var line := UrgentAccesses(ordered, selected);
    UrgentAccessesAreListed(ordered, selected);
    assert forall i :: 0 <= i < |line| ==> line[i] in line;
    AddAllLaw(map[], AccessKey, line, limit, Elements(ordered));
    var urgent := AddAll(map[], AccessKey, line, limit);
    var target := Max(|urgent|, limit * 3 / 4);
    AddNewestLaw(urgent, AccessKey, ordered, target, limit, Elements(ordered));
    FilledFrom(ordered, AccessKey, AddNewest(urgent, AccessKey, ordered, target, limit), limit);
  }

  /** items lists what was chosen, each once. */
  ghost predicate ListsChosen<K, T(!new)>(items: seq<T>, chosen: map<K, T>) {
    Distinct(items) && Elements(items) == chosen.Values && |items| == |chosen|
  }

  lemma ValuesList<K, T(!new)>(chosen: map<K, T>, key: T -> K, items: set<T>, values: seq<T>, less: (T, T) -> bool)
    requires From(chosen, key, items) && Distinct(values) && forall x :: x in values <==> key(x) in chosen && chosen[key(x)] == x
    ensures ListsChosen(values, chosen) && ListsChosen(Sort(less, values), chosen)
  {
    hide Sort;
    forall x ensures x in Elements(values) <==> x in chosen.Values {
      if x in chosen.Values {
        var k :| k in chosen && chosen[k] == x;
        assert key(x) == k;
      }
      assert x in Elements(values) <==> x in values;
    }
    assert Elements(values) == chosen.Values;
    DistinctSize(values);
    AsManyValues(chosen, key, items);
    SortElements(less, values);
    SortMultiset(less, values);
    DistinctByMultiset(values, Sort(less, values));
  }

  lemma {:induction false} AsManyValues<K, T(!new)>(chosen: map<K, T>, key: T -> K, items: set<T>)
    requires From(chosen, key, items)
    ensures |chosen.Values| == |chosen|
    decreases |chosen|
  {
    if chosen != map[] {
      var k :| k in chosen;
      var rest := chosen - {k};
      assert rest.Keys == chosen.Keys - {k};
      assert |chosen| == |chosen.Keys| && |rest| == |rest.Keys|;
      AsManyValues(rest, key, items);
      forall x ensures x in chosen.Values <==> x in rest.Values + {chosen[k]} {
        if x in chosen.Values {
          var j :| j in chosen && chosen[j] == x;
          assert j != k ==> rest[j] == x;
        }
      }
      assert chosen.Values == rest.Values + {chosen[k]};
      assert chosen[k] !in rest.Values;
    }
  }

  lemma ChosenSorted(values: seq<Access>, chosen: map<int, Access>, items: set<Access>)
    requires From(chosen, AccessKey, items) && ListsChosen(values, chosen)
    ensures SortedBy(AccessBefore, Sort(AccessBefore, values))
  {
    forall x, y | x in Elements(values) && y in Elements(values) && x != y ensures x.sequence != y.sequence {
      var j :| j in chosen && chosen[j] == x;
      var k :| k in chosen && chosen[k] == y;
    }
    SortSorted(AccessBefore, values);
  }

  ghost predicate HasTop(items: seq<Access>, trail: seq<Access>, value: Access -> int) {
    exists x :: x in items && x in trail && forall y :: y in trail ==> value(y) <= value(x)
  }

  /** What a selection of accesses promises. */
  ghost predicate ShowsActivity(items: seq<Access>, ordered: seq<Access>, selected: Option<int>, limit: nat) {
    && |items| == Min(|ordered|, limit) && SortedBy(AccessBefore, items) && (forall x :: x in items ==> x in ordered)
    && (forall x :: x in ordered && selected == Some(x.sequence) ==> x in items)
    && (|Where(Running, ordered)| + 4 <= limit ==>
          && (forall x :: x in ordered && Running(x) ==> x in items)
          && (ordered != [] ==> HasTop(items, ordered, Duration) && HasTop(items, ordered, Added) && HasTop(items, ordered, Deleted)))
    && (forall j :: 0 <= j < |ordered| && |Where(Running, ordered)| + 4 + (|ordered| - 1 - j) < limit * 3 / 4 ==> ordered[j] in items)
  }

  lemma ActivityLaw(trail: seq<Access>, selected: Option<int>, limit: nat)
    requires DistinctSequences(trail) && 1 <= limit
    ensures ShowsActivity(ActivityItems(trail, selected, limit), Sort(AccessBefore, trail), selected, limit)
    ensures Elements(Sort(AccessBefore, trail)) == Elements(trail)
  {
    SortTrail(trail);
    var ordered := Sort(AccessBefore, trail);
    SortedIsProper(ordered);
    if |ordered| <= limit {
      AllShown(ordered, selected, limit);
    } else {
      SomeShown(ordered, selected, limit);
    }
  }

  lemma TopOfAll(ordered: seq<Access>, value: Access -> int, items: seq<Access>)
    requires ordered != [] && (Maximum(ordered, value).Some? ==> Maximum(ordered, value).value in items)
    ensures HasTop(items, ordered, value)
  {
    MaximumLaw(ordered, value);
  }

  lemma AllShown(ordered: seq<Access>, selected: Option<int>, limit: nat)
    requires SortedBy(AccessBefore, ordered) && |ordered| <= limit
    ensures ShowsActivity(ordered, ordered, selected, limit)
  {
    MaximumLaw(ordered, Duration);
    MaximumLaw(ordered, Added);
    MaximumLaw(ordered, Deleted);
    hide Maximum;
    if ordered != [] {
      TopOfAll(ordered, Duration, ordered);
      TopOfAll(ordered, Added, ordered);
      TopOfAll(ordered, Deleted, ordered);
    }
  }

  lemma SomeShown(ordered: seq<Access>, selected: Option<int>, limit: nat)
    requires SortedBy(AccessBefore, ordered) && Proper(ordered, AccessKey) && 1 <= limit < |ordered|
    ensures ShowsActivity(Kept(ordered, AccessKey, ChosenAccesses(ordered, selected, limit), true), ordered, selected, limit)
  {
    hide UrgentAccesses, ChosenAccesses, Kept, Proper, Where, First, Maximum, HasTop;
    var chosen, line := ChosenAccesses(ordered, selected, limit), UrgentAccesses(ordered, selected);
    var items := Kept(ordered, AccessKey, chosen, true);
    ChosenAccessesLaw(ordered, selected, limit);
    KeptChosen(ordered, AccessKey, chosen);
    KeptSorted(AccessBefore, ordered, AccessKey, chosen, true);
    UrgentAccessMembers(ordered, selected);
    UrgentAccessesAreListed(ordered, selected);
    forall x | x in ordered && selected == Some(x.sequence) ensures x in items {
      SelectedComesFirst(ordered, selected, x);
    }
    if |Where(Running, ordered)| + 4 <= limit {
      forall x | x in line ensures x in items {
        var i :| 0 <= i < |line| && line[i] == x;
        assert AccessKey(line[i]) in chosen;
      }
      TopOfAll(ordered, Duration, items);
      TopOfAll(ordered, Added, items);
      TopOfAll(ordered, Deleted, items);
    }
  }

  lemma SelectedComesFirst(ordered: seq<Access>, selected: Option<int>, x: Access)
    requires x in ordered && selected == Some(x.sequence)
    ensures UrgentAccesses(ordered, selected) != [] && AccessKey(UrgentAccesses(ordered, selected)[0]) == AccessKey(x)
  {
    hide First, Where, Reverse, Maximum;
    FirstLaw(HasSequence(selected), ordered);
    assert HasSequence(selected)(x);
  }

  lemma UrgentPointMembers(ordered: seq<Point>, selected: Option<int>)
    ensures var line := UrgentPoints(ordered, selected);
            && |line| <= |Where(IsActive, ordered)| + 1
            && (forall x :: x in line <==> Some(x) == First(Covers(selected), ordered) || (x in ordered && IsActive(x)))
            && (forall x :: x in line ==> x in ordered)
            && ((exists x :: x in ordered && Covers(selected)(x)) ==> line != [] && Covers(selected)(line[0]))
  {
    hide Where, Reverse, First;
    WhereLaw(IsActive, ordered);
    ReverseMembers(Where(IsActive, ordered));
    FirstLaw(Covers(selected), ordered);
  }

  lemma ProperDistinct<K, T(!new)>(ordered: seq<T>, key: T -> K)
    requires Proper(ordered, key)
    ensures Distinct(ordered)
  {
  }

  lemma FirstPointsLaw(ordered: seq<Point>, selected: Option<int>, limit: nat)
    requires Distinct(ordered) && 1 <= limit
    ensures var r, line := FirstPoints(ordered, selected, limit), UrgentPoints(ordered, selected);
            && From(r, PointKey, Elements(ordered)) && |r| <= Min(limit, Max(|line|, limit / 4))
            && (forall i :: 0 <= i < |line| && i < limit ==> PointKey(line[i]) in r)
  {
    hide UrgentPoints, AddAll, EvenlySpaced, Where, PointKey, Covers, From;
    var line, items := UrgentPoints(ordered, selected), Elements(ordered);
    UrgentPointMembers(ordered, selected);
    assert forall i :: 0 <= i < |line| ==> line[i] in line;
    NothingFrom(PointKey, items);
    AddAllLaw(map[], PointKey, line, limit, items);
    var urgent := AddAll(map[], PointKey, line, limit);
    var some := Where(IsAggregate, ordered);
    WhereLaw(IsAggregate, ordered);
    var count := Max(|urgent|, limit / 4) - |urgent|;
    EvenlySpacedLaw(some, count);
    var aggregates := EvenlySpaced(some, count);
    assert forall i :: 0 <= i < |aggregates| ==> aggregates[i] in aggregates;
    AddAllLaw(urgent, PointKey, aggregates, limit, items);
  }

  lemma NothingFrom<K, T(!new)>(key: T -> K, items: set<T>)
    ensures From(map[], key, items)
  {
  }

  lemma ChosenPointsLaw(ordered: seq<Point>, selected: Option<int>, limit: nat)
    requires Proper(ordered, PointKey) && 1 <= limit <= |ordered|
    ensures var r, line := ChosenPoints(ordered, selected, limit), UrgentPoints(ordered, selected);
            && |Kept(ordered, PointKey, r, true)| == limit && From(r, PointKey, Elements(ordered))
            && (forall i :: 0 <= i < |line| && i < limit ==> PointKey(line[i]) in r)
            && (forall j :: 0 <= j < |ordered| && Max(|line|, limit / 4) + (|ordered| - 1 - j) < limit * 3 / 4 ==> PointKey(ordered[j]) in r)
  {
    hide UrgentPoints, FirstPoints, AddNewest, Filled, Kept, Proper, PointKey, From;
    ProperDistinct(ordered, PointKey);
    FirstPointsLaw(ordered, selected, limit);
    var shown := FirstPoints(ordered, selected, limit);
    var target := Max(|shown|, limit * 3 / 4);
    AddNewestLaw(shown, PointKey, ordered, target, limit, Elements(ordered));
    FilledLaw(ordered, PointKey, AddNewest(shown, PointKey, ordered, target, limit), limit);
  }

  /** What a selection of points promises. */
  ghost predicate ShowsPoints(items: seq<Point>, ordered: seq<Point>, selected: Option<int>, limit: nat) {
    && |items| == Min(|ordered|, limit) && SortedBy(PointBefore, items) && (forall x :: x in items ==> x in ordered)
    && ((exists x :: x in ordered && Covers(selected)(x)) ==> exists x :: x in items && Covers(selected)(x))
    && (|Where(IsActive, ordered)| + 1 <= limit ==> forall x :: x in ordered && IsActive(x) ==> x in items)
    && (forall j :: 0 <= j < |ordered| && Max(|Where(IsActive, ordered)| + 1, limit / 4) + (|ordered| - 1 - j) < limit * 3 / 4 ==>
          ordered[j] in items)
  }

  lemma PointsLaw(points: seq<Point>, selected: Option<int>, limit: nat)
    requires DistinctPoints(points) && 1 <= limit
    ensures ShowsPoints(PointItems(points, selected, limit), Sort(PointBefore, points), selected, limit)
    ensures Elements(Sort(PointBefore, points)) == Elements(points)
  {
    SortPoints(points);
    var ordered := Sort(PointBefore, points);
    if limit < |ordered| {
      SomePointsShown(ordered, selected, limit);
    }
  }

  lemma SomePointsShown(ordered: seq<Point>, selected: Option<int>, limit: nat)
    requires SortedBy(PointBefore, ordered) && Proper(ordered, PointKey) && 1 <= limit < |ordered|
    ensures ShowsPoints(Kept(ordered, PointKey, ChosenPoints(ordered, selected, limit), true), ordered, selected, limit)
  {
    hide UrgentPoints, ChosenPoints, Kept, Where, First, PointKey, Covers, Proper;
    var chosen, line := ChosenPoints(ordered, selected, limit), UrgentPoints(ordered, selected);
    var items := Kept(ordered, PointKey, chosen, true);
    ChosenPointsLaw(ordered, selected, limit);
    KeptChosen(ordered, PointKey, chosen);
    KeptSorted(PointBefore, ordered, PointKey, chosen, true);
    UrgentPointMembers(ordered, selected);
    forall i | 0 <= i < |line| && i < limit ensures line[i] in items {
      assert line[i] in line;
    }
    UrgentPointsShown(items, ordered, selected, limit);
  }

  lemma UrgentPointsShown(items: seq<Point>, ordered: seq<Point>, selected: Option<int>, limit: nat)
    requires 1 <= limit && forall i :: 0 <= i < |UrgentPoints(ordered, selected)| && i < limit ==> UrgentPoints(ordered, selected)[i] in items
    ensures (exists x :: x in ordered && Covers(selected)(x)) ==> exists x :: x in items && Covers(selected)(x)
    ensures |Where(IsActive, ordered)| + 1 <= limit ==> forall x :: x in ordered && IsActive(x) ==> x in items
  {
    hide UrgentPoints, Where, First, Covers;
    UrgentPointMembers(ordered, selected);
  }

  /** The points built from a trail are such as the selection counts on. */
  lemma BuiltPointsAreDistinct(trail: seq<Access>, known: set<string>)
    requires DistinctSequences(trail)
    ensures DistinctPoints(BuiltPoints(trail, known))
  {
    hide BuiltPoints;
    BuiltPointsEndApart(trail, known);
    var points := BuiltPoints(trail, known);
    forall i, j | 0 <= i < j < |points| ensures PointKey(points[i]) != PointKey(points[j]) {
      assert EndsInLatest(points[i]) && EndsInLatest(points[j]);
    }
  }

  /** In whatever order the trail comes, the same is shown. */
  lemma ActivityIgnoresOrder(s: seq<Access>, t: seq<Access>, selected: Option<int>, limit: nat)
    requires DistinctSequences(s) && multiset(s) == multiset(t)
    ensures ActivityItems(s, selected, limit) == ActivityItems(t, selected, limit)
  {
    SortTrail(s);
    SortElements(AccessBefore, t);
    DistinctByMultiset(s, t);
    SameMultiset(s, t);
    SortSorted(AccessBefore, t);
    SortedIsUnique(AccessBefore, Sort(AccessBefore, s), Sort(AccessBefore, t));
  }

  // ----- the code -----

  method AddEach<K, T>(chosen: map<K, T>, key: T -> K, items: seq<T>, limit: nat) returns (r: map<K, T>)
    ensures r == AddAll(chosen, key, items, limit)
  {
    r := chosen;
    for i := 0 to |items|
      invariant r == AddAll(chosen, key, items[..i], limit)
    {
      assert items[..i + 1][..i] == items[..i];
      if |r| < limit {
        r := r[key(items[i]) := items[i]];
      }
    }
    assert items[..|items|] == items;
  }

  method AddRecent<K, T>(chosen: map<K, T>, key: T -> K, ordered: seq<T>, target: nat, limit: nat) returns (r: map<K, T>)
    ensures r == AddNewest(chosen, key, ordered, target, limit)
  {
    r := chosen;
    var index: int := |ordered| - 1;
    assert ordered[..index + 1] == ordered;
    while index >= 0 && |r| < target
      invariant -1 <= index < |ordered|
      invariant AddNewest(r, key, ordered[..index + 1], target, limit) == AddNewest(chosen, key, ordered, target, limit)
    {
      assert ordered[..index + 1][..index] == ordered[..index];
      if |r| < limit {
        r := r[key(ordered[index]) := ordered[index]];
      }
      index := index - 1;
    }
  }

  /** The values of the map, each once, in some order. */
  method Values<K, T(!new)>(chosen: map<K, T>, key: T -> K, ghost items: set<T>) returns (values: seq<T>)
    requires From(chosen, key, items)
    ensures Distinct(values) && forall x :: x in values <==> key(x) in chosen && chosen[key(x)] == x
  {
    values := [];
    var left := chosen.Keys;
    while left != {}
      invariant left <= chosen.Keys && Distinct(values)
      invariant forall x :: x in values <==> key(x) in chosen && key(x) !in left && chosen[key(x)] == x
      decreases |left|
    {
      var k :| k in left;
      left := left - {k};
      values := values + [chosen[k]];
    }
  }

  /** Sorting what was chosen lists it as it stood among all items. */
  lemma ValuesSorted<K, T(!new)>(less: (T, T) -> bool, ordered: seq<T>, key: T -> K, chosen: map<K, T>, values: seq<T>)
    requires Proper(ordered, key) && SortedBy(less, ordered) && Orders(less, Elements(ordered)) && From(chosen, key, Elements(ordered))
    requires Distinct(values) && forall x :: x in values <==> key(x) in chosen && chosen[key(x)] == x
    ensures Sort(less, values) == Kept(ordered, key, chosen, true)
  {
    var kept := Kept(ordered, key, chosen, true);
    KeptLaw(ordered, key, chosen, true);
    KeptSorted(less, ordered, key, chosen, true);
    forall x ensures x in values <==> x in kept {
      if x in values {
        assert chosen[key(x)] in Elements(ordered);
      }
    }
    assert Elements(values) == Elements(kept) <= Elements(ordered);
    OrdersFewer(less, Elements(ordered), Elements(values));
    SortSorted(less, values);
    SortElements(less, values);
    SortedIsUnique(less, Sort(less, values), kept);
  }

  lemma OrdersFewer<T(!new)>(less: (T, T) -> bool, all: set<T>, some: set<T>)
    requires Orders(less, all) && some <= all
    ensures Orders(less, some)
  {
  }

  lemma {:induction false} AddAllJoin<K, T(!new)>(chosen: map<K, T>, key: T -> K, a: seq<T>, b: seq<T>, limit: nat)
    ensures AddAll(chosen, key, a + b, limit) == AddAll(AddAll(chosen, key, a, limit), key, b, limit)
  {
    hide Add;
    if b == [] {
      assert a + b == a;
    } else {
      var last := |b| - 1;
      AddAllJoin(chosen, key, a, b[..last], limit);
      assert (a + b)[..|a| + last] == a + b[..last] && (a + b)[|a| + last] == b[last];
    }
  }

  method FindMaximum(accesses: seq<Access>, value: Access -> int) returns (maximum: Option<Access>)
    ensures maximum == Maximum(accesses, value)
    ensures if accesses == [] then maximum.None? else maximum.Some? && FirstGreatest(accesses, value, maximum.value)
  {
    maximum := None;
    for i := 0 to |accesses|
      invariant maximum == Maximum(accesses[..i], value)
    {
      assert accesses[..i + 1][..i] == accesses[..i];
      if maximum.None? || value(accesses[i]) > value(maximum.value) {
        maximum := Some(accesses[i]);
      }
    }
    assert accesses[..|accesses|] == accesses;
    if accesses != [] {
      MaximumIsFirst(accesses, value);
    }
  }

  method FillUp<K, T>(ordered: seq<T>, key: T -> K, chosen: map<K, T>, limit: nat) returns (r: map<K, T>)
    ensures r == Filled(ordered, key, chosen, limit)
  {
    var remaining := Kept(ordered, key, chosen, false);
    var spaced := SpaceEvenly(remaining, limit - |chosen|);
    r := AddEach(chosen, key, spaced, limit);
  }

  method ChooseAccesses(ordered: seq<Access>, selected: Option<int>, limit: nat) returns (chosen: map<int, Access>)
    ensures chosen == ChosenAccesses(ordered, selected, limit)
  {
    hide AddAll, AddNewest, Filled, Where, Reverse, First, Maximum;
    var found := Listed(First(HasSequence(selected), ordered));
    chosen := AddEach(map[], AccessKey, found, limit);
    var running := Reverse(Where(Running, ordered));
    chosen := AddEach(chosen, AccessKey, running, limit);
    AddAllJoin(map[], AccessKey, found, running, limit);
    var longest := FindMaximum(ordered, Duration);
    chosen := AddEach(chosen, AccessKey, Listed(longest), limit);
    AddAllJoin(map[], AccessKey, found + running, Listed(longest), limit);
    var added := FindMaximum(ordered, Added);
    chosen := AddEach(chosen, AccessKey, Listed(added), limit);
    AddAllJoin(map[], AccessKey, found + running + Listed(longest), Listed(added), limit);
    var deleted := FindMaximum(ordered, Deleted);
    chosen := AddEach(chosen, AccessKey, Listed(deleted), limit);
    AddAllJoin(map[], AccessKey, found + running + Listed(longest) + Listed(added), Listed(deleted), limit);
    chosen := AddRecent(chosen, AccessKey, ordered, Max(|chosen|, limit * 3 / 4), limit);
    chosen := FillUp(ordered, AccessKey, chosen, limit);
  }

  /** Whatever the trail, the items are all of it, sorted, or what was chosen, sorted; the promises on them are for different sequences. */
  method SelectActivityAccesses(trail: seq<Access>, selected: Option<int>, limit: Option<real>) returns (r: Selection<Access>)
    ensures r == Selected(r.items, |trail|) && |r.items| <= Min(|trail|, NormalizeLimit(limit))
    ensures |trail| <= NormalizeLimit(limit) ==> r.items == Sort(AccessBefore, trail)
    ensures NormalizeLimit(limit) < |trail| ==>
              SortedBy(AccessBefore, r.items)
              && ListsChosen(r.items, ChosenAccesses(Sort(AccessBefore, trail), selected, NormalizeLimit(limit)))
    ensures DistinctSequences(trail) ==>
              r.items == ActivityItems(trail, selected, NormalizeLimit(limit))
              && ShowsActivity(r.items, Sort(AccessBefore, trail), selected, NormalizeLimit(limit))
              && (r.active <==> NormalizeLimit(limit) < |trail|)
  {
    hide ChosenAccesses, Kept, ShowsActivity, ListsChosen, From, Sort;
    var ordered := Sort(AccessBefore, trail);
    SortElements(AccessBefore, trail);
    var boundedLimit := NormalizeLimit(limit);
    if DistinctSequences(trail) {
      ActivityLaw(trail, selected, boundedLimit);
      ActivitySize(ActivityItems(trail, selected, boundedLimit), ordered, selected, boundedLimit);
    }
    if |ordered| <= boundedLimit {
      return Selected(ordered, |ordered|);
    }
    var chosen := ChooseAccesses(ordered, selected, boundedLimit);
    ChosenAccessesFrom(ordered, selected, boundedLimit);
    var values := Values(chosen, AccessKey, Elements(ordered));
    ValuesList(chosen, AccessKey, Elements(ordered), values, AccessBefore);
    ListsAsMany(Sort(AccessBefore, values), chosen);
    ChosenSorted(values, chosen, Elements(ordered));
    if DistinctSequences(trail) {
      SortTrail(trail);
      SortedIsProper(ordered);
      ValuesSorted(AccessBefore, ordered, AccessKey, chosen, values);
    }
    r := Selected(Sort(AccessBefore, values), |ordered|);
  }

  lemma ListsAsMany<K, T(!new)>(items: seq<T>, chosen: map<K, T>)
    requires ListsChosen(items, chosen)
    ensures |items| == |chosen|
  {
  }

  lemma ActivitySize(items: seq<Access>, ordered: seq<Access>, selected: Option<int>, limit: nat)
    requires ShowsActivity(items, ordered, selected, limit)
    ensures |items| == Min(|ordered|, limit)
  {
  }

  method ChoosePoints(ordered: seq<Point>, selected: Option<int>, limit: nat) returns (chosen: map<PointKeyType, Point>)
    ensures chosen == ChosenPoints(ordered, selected, limit)
  {
    hide AddAll, AddNewest, Filled, Where, Reverse, First;
    var found := Listed(First(Covers(selected), ordered));
    chosen := AddEach(map[], PointKey, found, limit);
    var active := Reverse(Where(IsActive, ordered));
    chosen := AddEach(chosen, PointKey, active, limit);
    AddAllJoin(map[], PointKey, found, active, limit);
    var aggregateTarget := Max(|chosen|, limit / 4);
    var spaced := SpaceEvenly(Where(IsAggregate, ordered), aggregateTarget - |chosen|);
    chosen := AddEach(chosen, PointKey, spaced, limit);
    chosen := AddRecent(chosen, PointKey, ordered, Max(|chosen|, limit * 3 / 4), limit);
    chosen := FillUp(ordered, PointKey, chosen, limit);
  }

  /** Whatever the points, the items are all of them in order, or what was chosen in order; the promises on them are for distinct points. */
  method SelectAccessPointsForRender(points: seq<Point>, selected: Option<int>, limit: Option<real>) returns (r: Selection<Point>)
    ensures r == Selected(r.items, |points|) && |r.items| <= Min(|points|, NormalizeLimit(limit)) && InOrder(r.items)
    ensures |points| <= NormalizeLimit(limit) ==> r.items == Sort(PointBefore, points)
    ensures NormalizeLimit(limit) < |points| ==>
              ListsChosen(r.items, ChosenPoints(Sort(PointBefore, points), selected, NormalizeLimit(limit)))
    ensures DistinctPoints(points) ==>
              r.items == PointItems(points, selected, NormalizeLimit(limit))
              && ShowsPoints(r.items, Sort(PointBefore, points), selected, NormalizeLimit(limit))
  {
    hide ChosenPoints, Kept, ShowsPoints, ListsChosen, From, Sort, PointKey, DistinctPoints;
    var ordered := Sort(PointBefore, points);
    SortElements(PointBefore, points);
    SortInOrder(points);
    var boundedLimit := NormalizeLimit(limit);
    if DistinctPoints(points) {
      PointsLaw(points, selected, boundedLimit);
    }
    if |ordered| <= boundedLimit {
      return Selected(ordered, |ordered|);
    }
    var chosen := ChoosePoints(ordered, selected, boundedLimit);
    ChosenPointsFrom(ordered, selected, boundedLimit);
    var values := Values(chosen, PointKey, Elements(ordered));
    ValuesList(chosen, PointKey, Elements(ordered), values, PointBefore);
    ListsAsMany(Sort(PointBefore, values), chosen);
    SortInOrder(values);
    if DistinctPoints(points) {
      SortPoints(points);
      ValuesSorted(PointBefore, ordered, PointKey, chosen, values);
    }
    r := Selected(Sort(PointBefore, values), |ordered|);
  }

  /** By latest access; points with one latest access stand in any order. */
  ghost predicate InOrder(points: seq<Point>) {
    forall i, j :: 0 <= i < j < |points| ==> points[i].latest.sequence <= points[j].latest.sequence
  }

  lemma {:induction false} InsertAtLeast(x: Point, s: seq<Point>, low: int)
    requires low <= x.latest.sequence && forall k :: 0 <= k < |s| ==> low <= s[k].latest.sequence
    ensures forall k :: 0 <= k < |Insert(PointBefore, x, s)| ==> low <= Insert(PointBefore, x, s)[k].latest.sequence
  {
    if s != [] && PointBefore(s[0], x) {
      InsertAtLeast(x, s[1..], low);
    }
  }

  lemma {:induction false} InsertInOrder(x: Point, s: seq<Point>)
    requires InOrder(s)
    ensures InOrder(Insert(PointBefore, x, s))
  {
    if s != [] && PointBefore(s[0], x) {
      InsertInOrder(x, s[1..]);
      InsertAtLeast(x, s[1..], s[0].latest.sequence);
    }
  }

  lemma {:induction false} SortInOrder(s: seq<Point>)
    ensures InOrder(Sort(PointBefore, s))
  {
    if s != [] {
      SortInOrder(s[1..]);
      InsertInOrder(s[0], Sort(PointBefore, s[1..]));
    }
  }

  lemma FirstPointsFrom(ordered: seq<Point>, selected: Option<int>, limit: nat)
    ensures From(FirstPoints(ordered, selected, limit), PointKey, Elements(ordered)) && |FirstPoints(ordered, selected, limit)| <= limit
  {
    hide UrgentPoints, AddAll, EvenlySpaced, Where, PointKey, Covers, From;
    var line, items := UrgentPoints(ordered, selected), Elements(ordered);
    UrgentPointMembers(ordered, selected);
    assert forall i :: 0 <= i < |line| ==> line[i] in line;
    NothingFrom(PointKey, items);
    AddAllLaw(map[], PointKey, line, limit, items);
    var urgent := AddAll(map[], PointKey, line, limit);
    var some := Where(IsAggregate, ordered);
    WhereLaw(IsAggregate, ordered);
    var count := Max(|urgent|, limit / 4) - |urgent|;
    SpacedMembers(some, count);
    var aggregates := EvenlySpaced(some, count);
    assert forall i :: 0 <= i < |aggregates| ==> aggregates[i] in aggregates;
    AddAllLaw(urgent, PointKey, aggregates, limit, items);
  }

  lemma ChosenPointsFrom(ordered: seq<Point>, selected: Option<int>, limit: nat)
    ensures From(ChosenPoints(ordered, selected, limit), PointKey, Elements(ordered)) && |ChosenPoints(ordered, selected, limit)| <= limit
  {
    hide FirstPoints, AddNewest, Filled, PointKey, From;
    FirstPointsFrom(ordered, selected, limit);
    var shown := FirstPoints(ordered, selected, limit);
    var target := Max(|shown|, limit * 3 / 4);
    assert forall i :: 0 <= i < |ordered| ==> ordered[i] in Elements(ordered);
    AddNewestLaw(shown, PointKey, ordered, target, limit, Elements(ordered));
    FilledFrom(ordered, PointKey, AddNewest(shown, PointKey, ordered, target, limit), limit);
  }

  // ----- the selections in plain terms -----

  /** Of the shown accesses one lasted longest, one added and one deleted most lines, and all that run are shown, where there is room. */
  lemma ActivityInPlainTerms(items: seq<Access>, ordered: seq<Access>, selected: Option<int>, limit: nat)
    requires ShowsActivity(items, ordered, selected, limit)
    ensures selected.Some? ==> forall x :: x in ordered && x.sequence == selected.value ==> x in items
    ensures |Where((a: Access) => !a.ended, ordered)| + 4 <= limit ==> forall x :: x in ordered && !x.ended ==> x in items
    ensures |Where((a: Access) => !a.ended, ordered)| + 4 <= limit && ordered != [] ==>
              && (exists x :: x in items && forall y :: y in ordered ==> y.durationMs <= x.durationMs)
              && (exists x :: x in items && forall y :: y in ordered ==> Lines(y.linesAdded) <= Lines(x.linesAdded))
              && (exists x :: x in items && forall y :: y in ordered ==> Lines(y.linesDeleted) <= Lines(x.linesDeleted))
  {
    hide Where, HasTop;
    SameWhere((a: Access) => !a.ended, Running, ordered);
    if |Where(Running, ordered)| + 4 <= limit && ordered != [] {
      TopIs(items, ordered, Duration, (a: Access) => a.durationMs);
      TopIs(items, ordered, Added, (a: Access) => Lines(a.linesAdded));
      TopIs(items, ordered, Deleted, (a: Access) => Lines(a.linesDeleted));
      TopsInPlainTerms(items, ordered);
    }
  }

  lemma TopIs(items: seq<Access>, ordered: seq<Access>, value: Access -> int, plain: Access -> int)
    requires HasTop(items, ordered, value) && forall a :: value(a) == plain(a)
    ensures HasTop(items, ordered, plain)
  {
  }

  lemma TopsInPlainTerms(items: seq<Access>, ordered: seq<Access>)
    requires HasTop(items, ordered, (a: Access) => a.durationMs)
    requires HasTop(items, ordered, (a: Access) => Lines(a.linesAdded)) && HasTop(items, ordered, (a: Access) => Lines(a.linesDeleted))
    ensures exists x :: x in items && forall y :: y in ordered ==> y.durationMs <= x.durationMs
    ensures exists x :: x in items && forall y :: y in ordered ==> Lines(y.linesAdded) <= Lines(x.linesAdded)
    ensures exists x :: x in items && forall y :: y in ordered ==> Lines(y.linesDeleted) <= Lines(x.linesDeleted)
  {
  }

  /** A count that is not there weighs nothing. */
  function Lines(count: Option<int>): int {
    match count
    case Some(n) => n
    case None => 0
  }

  lemma {:induction false} SameWhere<T(!new)>(p: T -> bool, q: T -> bool, s: seq<T>)
    requires forall x :: p(x) <==> q(x)
    ensures Where(p, s) == Where(q, s)
  {
    if s != [] {
      SameWhere(p, q, s[..|s| - 1]);
    }
  }

  /** Of the shown points one holds the selected access if any does, and all active ones are shown where there is room. */
  lemma PointsInPlainTerms(items: seq<Point>, ordered: seq<Point>, selected: int, limit: nat)
    requires ShowsPoints(items, ordered, Some(selected), limit)
    ensures (exists p :: p in ordered && selected in p.sequences) ==> exists p :: p in items && selected in p.sequences
    ensures |Where((p: Point) => p.active, ordered)| + 1 <= limit ==> forall p :: p in ordered && p.active ==> p in items
  {
    SameWhere((p: Point) => p.active, IsActive, ordered);
    hide Where;
    if p :| p in ordered && selected in p.sequences {
      assert Covers(Some(selected))(p);
      var x :| x in items && Covers(Some(selected))(x);
      assert selected in x.sequences;
    }
  }
}
