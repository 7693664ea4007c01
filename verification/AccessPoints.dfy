/** Access points of a session's trail: apps/desktop/frontend/src/activity/accessPoints.ts. */
module AccessPoints {
  import opened Common

  const MAX_INDIVIDUAL_ACCESS_POINTS := 24
  const RECENT_INDIVIDUAL_ACCESS_POINTS := 16
  const MAX_AGGREGATE_POINTS := 8

  /** nodeId is "" where the access has no node. */
  datatype Access = Access(nodeId: string, sequence: int, ended: bool, durationMs: int, linesAdded: Option<int>, linesDeleted: Option<int>)

  /** The ordinal stands for the position, a function of the node and the ordinal. */
  datatype Point = Point(nodeId: string, ordinal: nat, sequences: seq<int>, accessCount: nat, aggregate: bool, active: bool, latest: Access)

  predicate AccessBefore(a: Access, b: Access) {
    a.sequence < b.sequence
  }

  function AnchorKey(a: Access): (string, int) {
    (a.nodeId, a.sequence)
  }

  /** The accesses of one node, in order. */
  function Of(trail: seq<Access>, id: string): seq<Access> {
    if trail == [] then []
    else Of(trail[..|trail| - 1], id) + if trail[|trail| - 1].nodeId == id then [trail[|trail| - 1]] else []
  }

  // ----- ordinals -----

  function Ordinals(ordered: seq<Access>): map<(string, int), nat> {
    if ordered == [] then map[]
    else
      var front, a := ordered[..|ordered| - 1], ordered[|ordered| - 1];
      if a.nodeId == "" then Ordinals(front) else Ordinals(front)[AnchorKey(a) := |Of(front, a.nodeId)|]
  }

  lemma NoOrdinals()
    ensures Ordinals([]) == map[] && forall id :: Of([], id) == []
  {
  }

  lemma OneMoreOrdinal(front: seq<Access>, a: Access)
    ensures Ordinals(front + [a]) == if a.nodeId == "" then Ordinals(front) else Ordinals(front)[AnchorKey(a) := |Of(front, a.nodeId)|]
    ensures forall id :: |Of(front + [a], id)| == |Of(front, id)| + if a.nodeId == id then 1 else 0
  {
    assert (front + [a])[..|front|] == front;
  }

  method AccessAnchorOrdinals(trail: seq<Access>) returns (ordinals: map<(string, int), nat>)
    ensures ordinals == Ordinals(Sort(AccessBefore, trail))
  {
    hide Sort, Of, Ordinals;
    var ordered := Sort(AccessBefore, trail);
    NoOrdinals();
    assert ordered[..0] == [];
    var next: map<string, nat> := map[];
    ordinals := map[];
    for i := 0 to |ordered|
      invariant ordinals == Ordinals(ordered[..i])
      invariant forall id :: id != "" ==> |Of(ordered[..i], id)| == if id in next then next[id] else 0
    {
      var access := ordered[i];
      assert ordered[..i + 1] == ordered[..i] + [access];
      OneMoreOrdinal(ordered[..i], access);
      if access.nodeId == "" {
        continue;
      }
      var ordinal := if access.nodeId in next then next[access.nodeId] else 0;
      ordinals := ordinals[AnchorKey(access) := ordinal];
      next := next[access.nodeId := ordinal + 1];
    }
    assert ordered[..|ordered|] == ordered;
  }

  ghost predicate DistinctSequences(trail: seq<Access>) {
    forall i, j :: 0 <= i < j < |trail| ==> trail[i].sequence != trail[j].sequence
  }

  lemma SortTrail(trail: seq<Access>)
    requires DistinctSequences(trail)
    ensures var ordered := Sort(AccessBefore, trail);
            && SortedBy(AccessBefore, ordered) && |ordered| == |trail| && Elements(ordered) == Elements(trail)
            && Orders(AccessBefore, Elements(ordered))
  {
    SortSorted(AccessBefore, trail);
    SortElements(AccessBefore, trail);
  }

  lemma {:induction false} OfHolds(trail: seq<Access>, id: string)
    ensures forall a :: a in Of(trail, id) <==> a in trail && a.nodeId == id
  {
    if trail != [] {
      OfHolds(trail[..|trail| - 1], id);
      assert trail == trail[..|trail| - 1] + [trail[|trail| - 1]];
    }
  }

  lemma {:induction false} OfSorted(trail: seq<Access>, id: string)
    requires SortedBy(AccessBefore, trail)
    ensures SortedBy(AccessBefore, Of(trail, id))
  {
    if trail != [] {
      var front, last := trail[..|trail| - 1], trail[|trail| - 1];
      OfSorted(front, id);
      OfHolds(front, id);
      var some := Of(front, id);
      forall i | 0 <= i < |some| ensures AccessBefore(some[i], last) {
        assert some[i] in some;
        var k :| 0 <= k < |front| && front[k] == some[i];
        assert trail[k] == front[k];
      }
    }
  }

  lemma OfMembers(trail: seq<Access>, id: string)
    ensures forall a :: a in Of(trail, id) <==> a in trail && a.nodeId == id
    ensures SortedBy(AccessBefore, trail) ==> SortedBy(AccessBefore, Of(trail, id))
  {
    OfHolds(trail, id);
    if SortedBy(AccessBefore, trail) {
      OfSorted(trail, id);
    }
  }

  lemma SortedDistinct(s: seq<Access>)
    requires SortedBy(AccessBefore, s)
    ensures Distinct(s)
  {
  }

  /** The accesses of the same node that came before a, whatever the order of the trail. */
  ghost function Earlier(trail: seq<Access>, a: Access): set<Access> {
    set b | b in trail && b.nodeId == a.nodeId && b.sequence < a.sequence
  }

  lemma {:induction false} OrdinalAt(ordered: seq<Access>, i: nat)
    requires SortedBy(AccessBefore, ordered) && i < |ordered| && ordered[i].nodeId != ""
    ensures AnchorKey(ordered[i]) in Ordinals(ordered)
    ensures Ordinals(ordered)[AnchorKey(ordered[i])] == |Of(ordered[..i], ordered[i].nodeId)|
  {
    var last := |ordered| - 1;
    if i < last {
      OrdinalAt(ordered[..last], i);
      assert ordered[..last][..i] == ordered[..i];
      assert AccessBefore(ordered[i], ordered[last]);
    }
  }

  /** An access's ordinal is the number of earlier accesses of its node. */
  lemma OrdinalIsRank(trail: seq<Access>, a: Access)
    requires DistinctSequences(trail) && a in trail && a.nodeId != ""
    ensures var ordinals := Ordinals(Sort(AccessBefore, trail));
            AnchorKey(a) in ordinals && ordinals[AnchorKey(a)] == |Earlier(trail, a)|
  {
    hide Ordinals, Of, Sort;
    SortTrail(trail);
    var ordered := Sort(AccessBefore, trail);
    assert a in Elements(trail);
    var i :| 0 <= i < |ordered| && ordered[i] == a;
    OrdinalAt(ordered, i);
    var before := Of(ordered[..i], a.nodeId);
    OfMembers(ordered[..i], a.nodeId);
    SortedDistinct(before);
    DistinctSize(before);
    EarlierIsBefore(trail, ordered, i);
    assert Elements(before) == Earlier(trail, a);
  }

  lemma EarlierIsBefore(trail: seq<Access>, ordered: seq<Access>, i: nat)
    requires SortedBy(AccessBefore, ordered) && Elements(ordered) == Elements(trail) && i < |ordered|
    ensures forall b :: b in Earlier(trail, ordered[i]) <==> b in ordered[..i] && b.nodeId == ordered[i].nodeId
  {
    forall b ensures b in trail && b.sequence < ordered[i].sequence <==> b in ordered[..i] {
      assert b in trail <==> b in Elements(trail);
      assert b in ordered <==> b in Elements(ordered);
      if b in ordered {
        var j :| 0 <= j < |ordered| && ordered[j] == b;
        if i < j {
          assert AccessBefore(ordered[i], ordered[j]);
        } else if j < i {
          assert AccessBefore(ordered[j], ordered[i]);
          assert ordered[..i][j] == b;
        }
      }
    }
  }

  /** Accesses appended later do not move an access that is there: its ordinal stays. */
  lemma AppendingKeepsOrdinals(trail: seq<Access>, later: seq<Access>, a: Access)
    requires DistinctSequences(trail + later) && a in trail && a.nodeId != ""
    requires forall b :: b in later && b.nodeId == a.nodeId ==> a.sequence < b.sequence
    ensures var before, after := Ordinals(Sort(AccessBefore, trail)), Ordinals(Sort(AccessBefore, trail + later));
            AnchorKey(a) in before && AnchorKey(a) in after && after[AnchorKey(a)] == before[AnchorKey(a)]
  {
    assert forall i :: 0 <= i < |trail| ==> (trail + later)[i] == trail[i];
    OrdinalIsRank(trail, a);
    OrdinalIsRank(trail + later, a);
    assert Earlier(trail + later, a) == Earlier(trail, a);
  }

  /** No two accesses of a node share an ordinal. */
  lemma OrdinalsDiffer(trail: seq<Access>, a: Access, b: Access)
    requires DistinctSequences(trail) && a in trail && b in trail && a.nodeId == b.nodeId != "" && a.sequence < b.sequence
    ensures var ordinals := Ordinals(Sort(AccessBefore, trail));
            && AnchorKey(a) in ordinals && AnchorKey(b) in ordinals && ordinals[AnchorKey(a)] < ordinals[AnchorKey(b)]
  {
    OrdinalIsRank(trail, a);
    OrdinalIsRank(trail, b);
    assert Earlier(trail, a) + {a} <= Earlier(trail, b) && a !in Earlier(trail, a);
    SubsetSize(Earlier(trail, a) + {a}, Earlier(trail, b));
  }

  // ----- the points of one node -----

  function SequencesOf(accesses: seq<Access>): seq<int> {
    seq(|accesses|, i requires 0 <= i < |accesses| => accesses[i].sequence)
  }

  function PointFrom(accesses: seq<Access>, ordinal: nat, aggregate: bool): Point
    requires accesses != []
  {
    var latest := accesses[|accesses| - 1];
    Point(latest.nodeId, ordinal, SequencesOf(accesses), |accesses|, aggregate, !latest.ended, latest)
  }

  function OrdinalOf(ordinals: map<(string, int), nat>, a: Access): nat {
    if AnchorKey(a) in ordinals then ordinals[AnchorKey(a)] else 0
  }

  function Individuals(ordinals: map<(string, int), nat>, accesses: seq<Access>): seq<Point> {
    seq(|accesses|, i requires 0 <= i < |accesses| => PointFrom([accesses[i]], OrdinalOf(ordinals, accesses[i]), false))
  }

  /** Math.ceil(older / 8) */
  function BucketSize(older: nat): nat {
    (older + MAX_AGGREGATE_POINTS - 1) / MAX_AGGREGATE_POINTS
  }

  /** The buckets from number k on. */
  function Buckets(older: seq<Access>, size: nat, k: nat): seq<Point>
    requires 0 < size
    decreases |older|
  {
    if older == [] then []
    else if |older| <= size then [PointFrom(older, k, true)]
    else [PointFrom(older[..size], k, true)] + Buckets(older[size..], size, k + 1)
  }

  function NodePoints(ordinals: map<(string, int), nat>, accesses: seq<Access>): seq<Point> {
    if |accesses| <= MAX_INDIVIDUAL_ACCESS_POINTS then Individuals(ordinals, accesses)
    else
      var split := |accesses| - RECENT_INDIVIDUAL_ACCESS_POINTS;
      Buckets(accesses[..split], BucketSize(split), 0) + Individuals(ordinals, accesses[split..])
  }

  function Covered(points: seq<Point>): seq<int> {
    if points == [] then [] else points[0].sequences + Covered(points[1..])
  }

  lemma {:induction false} CoveredJoin(a: seq<Point>, b: seq<Point>)
    ensures Covered(a + b) == Covered(a) + Covered(b)
  {
    if a == [] {
      assert a + b == b;
    } else {
      var rest := a[1..];
      CoveredJoin(rest, b);
      assert (a + b)[1..] == rest + b && (a + b)[0] == a[0];
      assert Covered(a + b) == a[0].sequences + Covered(rest + b);
      assert a[0].sequences + (Covered(rest) + Covered(b)) == a[0].sequences + Covered(rest) + Covered(b);
    }
  }

  lemma {:induction false} IndividualsCover(ordinals: map<(string, int), nat>, accesses: seq<Access>)
    ensures Covered(Individuals(ordinals, accesses)) == SequencesOf(accesses)
  {
    if accesses != [] {
      IndividualsCover(ordinals, accesses[1..]);
      assert Individuals(ordinals, accesses)[1..] == Individuals(ordinals, accesses[1..]);
      assert SequencesOf(accesses) == [accesses[0].sequence] + SequencesOf(accesses[1..]);
      assert SequencesOf([accesses[0]]) == [accesses[0].sequence];
    }
  }

  lemma CoveredFirst(p: Point, rest: seq<Point>)
    ensures Covered([p] + rest) == p.sequences + Covered(rest)
    ensures Covered([]) == []
  {
    assert ([p] + rest)[1..] == rest;
  }

  lemma BucketSequences(bucket: seq<Access>, k: nat)
    requires bucket != []
    ensures PointFrom(bucket, k, true).sequences == SequencesOf(bucket)
  {
  }

  lemma {:induction false} BucketsCover(older: seq<Access>, size: nat, k: nat)
    requires 0 < size
    ensures Covered(Buckets(older, size, k)) == SequencesOf(older)
    decreases |older|
  {
    hide PointFrom, Covered, SequencesOf;
    if |older| > size {
      BucketsCover(older[size..], size, k + 1);
      CoveredFirst(PointFrom(older[..size], k, true), Buckets(older[size..], size, k + 1));
      BucketSequences(older[..size], k);
      SequencesSplit(older, size);
    } else if older != [] {
      CoveredFirst(PointFrom(older, k, true), []);
      BucketSequences(older, k);
      assert SequencesOf(older) + [] == SequencesOf(older);
      assert [PointFrom(older, k, true)] + [] == [PointFrom(older, k, true)];
    } else {
      NothingCovered();
    }
  }

  lemma NothingCovered()
    ensures Covered([]) == [] && SequencesOf([]) == []
  {
  }

  /** At most b buckets for at most b * size accesses. */
  lemma {:induction false} BucketsFit(older: seq<Access>, size: nat, k: nat, b: nat)
    requires 0 < size && |older| <= b * size
    ensures |Buckets(older, size, k)| <= b
    decreases |older|
  {
    hide PointFrom;
    if older != [] {
      if b == 0 {
        assert false;
      }
      assert b * size == (b - 1) * size + size;
      if |older| > size {
        BucketsFit(older[size..], size, k + 1, b - 1);
      }
    }
  }

  /** Each bucket is numbered, filled and ends in its latest access. */
  ghost predicate BucketShape(p: Point, size: nat, ordinal: nat, older: seq<Access>, id: string) {
    && p.nodeId == id && p.ordinal == ordinal && p.aggregate && 0 < p.accessCount == |p.sequences| <= size
    && p.sequences[|p.sequences| - 1] == p.latest.sequence && p.active == !p.latest.ended && p.latest in older
  }

  /** Accesses of one node, all of them among these. */
  ghost predicate AllOf(some: seq<Access>, all: seq<Access>, id: string) {
    forall i :: 0 <= i < |some| ==> some[i] in all && some[i].nodeId == id
  }

  lemma SlicesAllOf(some: seq<Access>, size: nat, all: seq<Access>, id: string)
    requires AllOf(some, all, id) && size <= |some|
    ensures AllOf(some[..size], all, id) && AllOf(some[size..], all, id)
  {
  }

  lemma PointShapes(bucket: seq<Access>, size: nat, k: nat, older: seq<Access>, id: string)
    requires bucket != [] && |bucket| <= size && AllOf(bucket, older, id)
    ensures BucketShape(PointFrom(bucket, k, true), size, k, older, id)
  {
  }

  ghost predicate AllShaped(points: seq<Point>, size: nat, k: nat, all: seq<Access>, id: string) {
    forall i :: 0 <= i < |points| ==> BucketShape(points[i], size, k + i, all, id)
  }

  lemma OneMoreShaped(p: Point, rest: seq<Point>, size: nat, k: nat, all: seq<Access>, id: string)
    requires BucketShape(p, size, k, all, id) && AllShaped(rest, size, k + 1, all, id)
    ensures AllShaped([p] + rest, size, k, all, id)
  {
    hide BucketShape;
    forall i | 0 <= i < |[p] + rest| ensures BucketShape(([p] + rest)[i], size, k + i, all, id) {
      if i > 0 {
        assert ([p] + rest)[i] == rest[i - 1];
        assert BucketShape(rest[i - 1], size, k + 1 + (i - 1), all, id);
      }
    }
  }

  lemma {:induction false} BucketsShaped(older: seq<Access>, size: nat, k: nat, all: seq<Access>, id: string)
    requires 0 < size && AllOf(older, all, id)
    ensures AllShaped(Buckets(older, size, k), size, k, all, id)
    decreases |older|
  {
    hide PointFrom, BucketShape, AllOf, AllShaped;
    NoneShaped(size, k + 1, all, id);
    if |older| > size {
      SlicesAllOf(older, size, all, id);
      PointShapes(older[..size], size, k, all, id);
      BucketsShaped(older[size..], size, k + 1, all, id);
      OneMoreShaped(PointFrom(older[..size], k, true), Buckets(older[size..], size, k + 1), size, k, all, id);
    } else if older != [] {
      PointShapes(older, size, k, all, id);
      OneMoreShaped(PointFrom(older, k, true), [], size, k, all, id);
      assert [PointFrom(older, k, true)] + [] == [PointFrom(older, k, true)];
    } else {
      NoneShaped(size, k, all, id);
    }
  }

  lemma NoneShaped(size: nat, k: nat, all: seq<Access>, id: string)
    ensures AllShaped([], size, k, all, id)
  {
  }

  /** All buckets but the last are full. */
  lemma {:induction false} BucketsAreFull(older: seq<Access>, size: nat, k: nat)
    requires 0 < size
    ensures forall i :: 0 <= i < |Buckets(older, size, k)| - 1 ==> Buckets(older, size, k)[i].accessCount == size
    decreases |older|
  {
    if |older| > size {
      BucketsAreFull(older[size..], size, k + 1);
    }
  }

  ghost predicate PointShape(p: Point, id: string, most: nat, accesses: seq<Access>) {
    && p.nodeId == id && p.latest in accesses && 0 < |p.sequences| == p.accessCount && p.sequences[|p.sequences| - 1] == p.latest.sequence
    && p.active == !p.latest.ended && p.accessCount <= if p.aggregate then most else 1
  }

  /** A node's points split its accesses in order: at most twenty-four points, of which at most eight stand for several. */
  lemma NodePointsLaw(ordinals: map<(string, int), nat>, accesses: seq<Access>, id: string)
    requires forall a :: a in accesses ==> a.nodeId == id
    ensures var points := NodePoints(ordinals, accesses);
            && Covered(points) == SequencesOf(accesses) && |points| <= 24
            && (forall i :: 0 <= i < |points| ==> PointShape(points[i], id, (Max(0, |accesses| - 16) + 7) / 8, accesses))
            && (|accesses| <= 24 ==> |points| == |accesses|)
            && (|accesses| > 24 ==>
                  16 < |points|
                  && forall i :: 0 <= i < |points| ==>
                       && (points[i].aggregate <==> i < |points| - 16) && (points[i].aggregate ==> points[i].ordinal == i)
                       && (i < |points| - 16 - 1 ==>
                            points[i].accessCount == (|accesses| - 16 + 7) / 8))
  {
    if |accesses| <= MAX_INDIVIDUAL_ACCESS_POINTS {
      IndividualsCover(ordinals, accesses);
    } else {
      ManyPointsLaw(ordinals, accesses, id);
    }
  }

  lemma ManyPointsLaw(ordinals: map<(string, int), nat>, accesses: seq<Access>, id: string)
    requires |accesses| > MAX_INDIVIDUAL_ACCESS_POINTS && forall a :: a in accesses ==> a.nodeId == id
    ensures var points := NodePoints(ordinals, accesses);
            && Covered(points) == SequencesOf(accesses) && RECENT_INDIVIDUAL_ACCESS_POINTS < |points| <= MAX_INDIVIDUAL_ACCESS_POINTS
            && (forall i :: 0 <= i < |points| ==> PointShape(points[i], id, BucketSize(|accesses| - RECENT_INDIVIDUAL_ACCESS_POINTS), accesses))
            && (forall i :: 0 <= i < |points| ==>
                  && (points[i].aggregate <==> i < |points| - RECENT_INDIVIDUAL_ACCESS_POINTS) && (points[i].aggregate ==> points[i].ordinal == i)
                  && (i < |points| - RECENT_INDIVIDUAL_ACCESS_POINTS - 1 ==>
                       points[i].accessCount == BucketSize(|accesses| - RECENT_INDIVIDUAL_ACCESS_POINTS)))
  {
    hide Buckets, Covered, BucketSize, SequencesOf, Individuals, PointShape;
    var split := |accesses| - RECENT_INDIVIDUAL_ACCESS_POINTS;
    var older, recent := accesses[..split], accesses[split..];
    var size := BucketSize(split);
    BucketSizeLaw(split);
    SplitCovers(ordinals, accesses, split, size);
    BucketsShape(older, size, accesses, id);
    BucketsAreFull(older, size, 0);
    IndividualsShape(ordinals, recent, size, accesses, id);
  }

  lemma SplitCovers(ordinals: map<(string, int), nat>, accesses: seq<Access>, split: nat, size: nat)
    requires split <= |accesses| && 0 < size
    ensures Covered(Buckets(accesses[..split], size, 0) + Individuals(ordinals, accesses[split..])) == SequencesOf(accesses)
  {
    hide *;
    BucketsCover(accesses[..split], size, 0);
    IndividualsCover(ordinals, accesses[split..]);
    CoveredJoin(Buckets(accesses[..split], size, 0), Individuals(ordinals, accesses[split..]));
    SequencesSplit(accesses, split);
  }

  lemma BucketsShape(older: seq<Access>, size: nat, accesses: seq<Access>, id: string)
    requires older != [] && 0 < size && |older| <= MAX_AGGREGATE_POINTS * size
    requires forall i :: 0 <= i < |older| ==> older[i] in accesses
    requires forall a :: a in accesses ==> a.nodeId == id
    ensures 0 < |Buckets(older, size, 0)| <= MAX_AGGREGATE_POINTS
    ensures forall i :: 0 <= i < |Buckets(older, size, 0)| ==>
              var p := Buckets(older, size, 0)[i]; PointShape(p, id, size, accesses) && p.aggregate && p.ordinal == i
  {
    hide Buckets;
    SomeBucket(older, size);
    BucketsFit(older, size, 0, MAX_AGGREGATE_POINTS);
    BucketsShaped(older, size, 0, accesses, id);
    forall i | 0 <= i < |Buckets(older, size, 0)|
      ensures PointShape(Buckets(older, size, 0)[i], id, size, accesses)
    {
      assert BucketShape(Buckets(older, size, 0)[i], size, 0 + i, accesses, id);
    }
  }

  lemma IndividualsShape(ordinals: map<(string, int), nat>, recent: seq<Access>, size: nat, accesses: seq<Access>, id: string)
    requires forall i :: 0 <= i < |recent| ==> recent[i] in accesses
    requires forall a :: a in accesses ==> a.nodeId == id
    ensures |Individuals(ordinals, recent)| == |recent|
    ensures forall i :: 0 <= i < |recent| ==>
              var p := Individuals(ordinals, recent)[i]; PointShape(p, id, size, accesses) && !p.aggregate
  {
  }

  lemma BucketSizeLaw(older: nat)
    ensures older <= MAX_AGGREGATE_POINTS * BucketSize(older) && (0 < older ==> 0 < BucketSize(older))
  {
  }

  lemma SequencesSplit(accesses: seq<Access>, split: nat)
    requires split <= |accesses|
    ensures SequencesOf(accesses) == SequencesOf(accesses[..split]) + SequencesOf(accesses[split..])
  {
  }

  lemma SomeBucket(older: seq<Access>, size: nat)
    requires 0 < size && older != []
    ensures Buckets(older, size, 0) != []
  {
  }

  // ----- the points of all nodes -----

  predicate IsShown(known: set<string>, a: Access) {
    a.nodeId != "" && a.nodeId in known
  }

  /** The known nodes in the order of their first access. */
  function FirstSeen(ordered: seq<Access>, known: set<string>): (ids: seq<string>)
    ensures Distinct(ids)
  {
    if ordered == [] then []
    else
      var ids, a := FirstSeen(ordered[..|ordered| - 1], known), ordered[|ordered| - 1];
      if IsShown(known, a) && a.nodeId !in ids then ids + [a.nodeId] else ids
  }

  function AllPoints(ordinals: map<(string, int), nat>, ordered: seq<Access>, ids: seq<string>): seq<Point> {
    if ids == [] then []
    else AllPoints(ordinals, ordered, ids[..|ids| - 1]) + NodePoints(ordinals, Of(ordered, ids[|ids| - 1]))
  }

  function BuiltPoints(trail: seq<Access>, known: set<string>): seq<Point> {
    var ordered := Sort(AccessBefore, trail);
    AllPoints(Ordinals(ordered), ordered, FirstSeen(ordered, known))
  }

  method IndividualPoints(ordinals: map<(string, int), nat>, accesses: seq<Access>) returns (points: seq<Point>)
    ensures points == Individuals(ordinals, accesses)
  {
    points := [];
    for i := 0 to |accesses|
      invariant points == Individuals(ordinals, accesses)[..i]
    {
      points := points + [PointFrom([accesses[i]], OrdinalOf(ordinals, accesses[i]), false)];
    }
  }

  function BucketsFrom(older: seq<Access>, size: nat, start: nat, k: nat): seq<Point>
    requires 0 < size
  {
    if start < |older| then Buckets(older[start..], size, k) else []
  }

  lemma BucketsFromStep(older: seq<Access>, size: nat, start: nat, k: nat)
    requires 0 < size && start < |older|
    ensures var end := Min(start + size, |older|);
            BucketsFrom(older, size, start, k) == [PointFrom(older[start..end], k, true)] + BucketsFrom(older, size, start + size, k + 1)
  {
    var end := Min(start + size, |older|);
    var left := older[start..];
    assert older[start..end] == if |left| <= size then left else left[..size];
    if |left| > size {
      assert left[size..] == older[start + size..];
    }
  }

  method BucketPoints(older: seq<Access>, bucketSize: nat) returns (points: seq<Point>)
    requires 0 < bucketSize
    ensures points == BucketsFrom(older, bucketSize, 0, 0)
  {
    hide BucketsFrom, PointFrom;
    points := [];
    var start := 0;
    ghost var k := 0;
    while start < |older|
      invariant 0 <= start && start == k * bucketSize && 0 <= k
      invariant points + BucketsFrom(older, bucketSize, start, k) == BucketsFrom(older, bucketSize, 0, 0)
      decreases |older| - start
    {
      DivBounds(start, bucketSize, k);
      BucketsFromStep(older, bucketSize, start, k);
      points := points + [PointFrom(older[start..Min(start + bucketSize, |older|)], start / bucketSize, true)];
      start := start + bucketSize;
      k := k + 1;
    }
    NoBucketsLeft(older, bucketSize, start, k);
  }

  lemma NoBucketsLeft(older: seq<Access>, size: nat, start: nat, k: nat)
    requires 0 < size && |older| <= start
    ensures BucketsFrom(older, size, start, k) == []
  {
  }

  method PointsOfNode(ordinals: map<(string, int), nat>, accesses: seq<Access>) returns (points: seq<Point>)
    ensures points == NodePoints(ordinals, accesses)
  {
    if |accesses| <= MAX_INDIVIDUAL_ACCESS_POINTS {
      points := IndividualPoints(ordinals, accesses);
      return;
    }
    var split := |accesses| - RECENT_INDIVIDUAL_ACCESS_POINTS;
    var recent, older := accesses[split..], accesses[..split];
    hide Buckets, BucketSize, Individuals;
    var bucketSize := BucketSize(|older|);
    BucketSizeLaw(|older|);
    assert older[0..] == older;
    points := BucketPoints(older, bucketSize);
    var single := IndividualPoints(ordinals, recent);
    points := points + single;
  }

  ghost predicate Grouped(ordered: seq<Access>, known: set<string>, order: seq<string>, byNode: map<string, seq<Access>>) {
    && order == FirstSeen(ordered, known)
    && (forall id :: id in byNode <==> id in order)
    && (forall id :: id in byNode ==> byNode[id] == Of(ordered, id))
  }

  lemma GroupedStep(ordered: seq<Access>, known: set<string>, order: seq<string>, byNode: map<string, seq<Access>>, a: Access)
    requires Grouped(ordered, known, order, byNode)
    ensures var before := if a.nodeId in byNode then byNode[a.nodeId] else [];
            var more := if a.nodeId in byNode then order else order + [a.nodeId];
            if IsShown(known, a) then Grouped(ordered + [a], known, more, byNode[a.nodeId := before + [a]])
            else Grouped(ordered + [a], known, order, byNode)
  {
    hide Of, FirstSeen;
    FirstSeenSnoc(ordered, known, a);
    UnseenHasNone(ordered, known, a);
    forall id ensures Of(ordered + [a], id) == if a.nodeId == id then Of(ordered, id) + [a] else Of(ordered, id) {
      OfSnoc(ordered, a, id);
    }
  }

  lemma FirstSeenSnoc(ordered: seq<Access>, known: set<string>, a: Access)
    ensures FirstSeen(ordered + [a], known) ==
            if IsShown(known, a) && a.nodeId !in FirstSeen(ordered, known) then FirstSeen(ordered, known) + [a.nodeId]
            else FirstSeen(ordered, known)
  {
    assert (ordered + [a])[..|ordered|] == ordered;
  }

  lemma UnseenHasNone(ordered: seq<Access>, known: set<string>, a: Access)
    ensures IsShown(known, a) && a.nodeId !in FirstSeen(ordered, known) ==> Of(ordered, a.nodeId) == []
    ensures !IsShown(known, a) ==> a.nodeId !in FirstSeen(ordered, known)
  {
    hide Of, FirstSeen;
    FirstSeenLaw(ordered, known);
    OfMembers(ordered, a.nodeId);
    if Of(ordered, a.nodeId) != [] {
      assert Of(ordered, a.nodeId)[0] in Of(ordered, a.nodeId);
    }
  }

  lemma OfSnoc(ordered: seq<Access>, a: Access, id: string)
    ensures Of(ordered + [a], id) == if a.nodeId == id then Of(ordered, id) + [a] else Of(ordered, id)
  {
    assert (ordered + [a])[..|ordered|] == ordered;
  }

  method GroupByNode(ordered: seq<Access>, known: set<string>) returns (order: seq<string>, byNode: map<string, seq<Access>>)
    ensures Grouped(ordered, known, order, byNode)
  {
    hide Grouped;
    order, byNode := [], map[];
    NothingGrouped(known);
    assert ordered[..0] == [];
    for i := 0 to |ordered|
      invariant Grouped(ordered[..i], known, order, byNode)
    {
      var access := ordered[i];
      assert ordered[..i + 1] == ordered[..i] + [access];
      GroupedStep(ordered[..i], known, order, byNode, access);
      if access.nodeId == "" || access.nodeId !in known {
        continue;
      }
      var accesses := if access.nodeId in byNode then byNode[access.nodeId] else [];
      if access.nodeId !in byNode {
        order := order + [access.nodeId];
      }
      byNode := byNode[access.nodeId := accesses + [access]];
    }
    assert ordered[..|ordered|] == ordered;
  }

  lemma NothingGrouped(known: set<string>)
    ensures Grouped([], known, [], map[])
  {
  }

  /** nodes are the IDs of the graph's nodes. */
  method BuildAccessPoints(trail: seq<Access>, nodes: seq<string>) returns (points: seq<Point>)
    ensures points == BuiltPoints(trail, Elements(nodes))
  {
    hide NodePoints, Of, FirstSeen, Ordinals;
    var ordinals := AccessAnchorOrdinals(trail);
    var ordered := Sort(AccessBefore, trail);
    var order, byNode := GroupByNode(ordered, set id <- nodes);
    points := [];
    for k := 0 to |order|
      invariant points == AllPoints(ordinals, ordered, order[..k])
    {
      assert order[..k + 1][..k] == order[..k];
      assert order[k] in order;
      var some := PointsOfNode(ordinals, byNode[order[k]]);
      points := points + some;
    }
    assert order[..|order|] == order;
    assert Elements(nodes) == set id <- nodes;
  }

  lemma {:induction false} FirstSeenLaw(ordered: seq<Access>, known: set<string>)
    ensures forall id :: id in FirstSeen(ordered, known) <==> id != "" && id in known && Of(ordered, id) != []
  {
    if ordered != [] {
      FirstSeenLaw(ordered[..|ordered| - 1], known);
    }
  }

  // ----- what the whole list of points promises -----

  function PointsFor(points: seq<Point>, id: string): seq<Point> {
    if points == [] then []
    else PointsFor(points[..|points| - 1], id) + if points[|points| - 1].nodeId == id then [points[|points| - 1]] else []
  }

  lemma {:induction false} PointsForJoin(a: seq<Point>, b: seq<Point>, id: string)
    ensures PointsFor(a + b, id) == PointsFor(a, id) + PointsFor(b, id)
  {
    if b == [] {
      assert a + b == a;
    } else {
      var last := |b| - 1;
      PointsForJoin(a, b[..last], id);
      assert (a + b)[..|a| + last] == a + b[..last] && (a + b)[|a| + last] == b[last];
    }
  }

  lemma {:induction false} PointsForOwn(points: seq<Point>, own: string, id: string)
    requires forall i :: 0 <= i < |points| ==> points[i].nodeId == own
    ensures PointsFor(points, id) == if id == own then points else []
  {
    if points != [] {
      PointsForOwn(points[..|points| - 1], own, id);
      assert points == points[..|points| - 1] + [points[|points| - 1]];
    }
  }

  lemma OwnPoints(ordinals: map<(string, int), nat>, ordered: seq<Access>, node: string, id: string)
    ensures var points := NodePoints(ordinals, Of(ordered, node)); PointsFor(points, id) == if id == node then points else []
  {
    hide NodePoints, Of, Covered;
    OfMembers(ordered, node);
    NodePointsLaw(ordinals, Of(ordered, node), node);
    PointsForOwn(NodePoints(ordinals, Of(ordered, node)), node, id);
  }

  lemma AllPointsSnoc(ordinals: map<(string, int), nat>, ordered: seq<Access>, front: seq<string>, last: string)
    ensures AllPoints(ordinals, ordered, front + [last]) == AllPoints(ordinals, ordered, front) + NodePoints(ordinals, Of(ordered, last))
  {
    hide NodePoints, Of;
    assert (front + [last])[..|front|] == front;
  }

  lemma NoPointsFor(ordinals: map<(string, int), nat>, ordered: seq<Access>, id: string)
    ensures PointsFor(AllPoints(ordinals, ordered, []), id) == []
  {
  }

  lemma {:induction false} AllPointsFor(ordinals: map<(string, int), nat>, ordered: seq<Access>, ids: seq<string>, id: string)
    requires Distinct(ids)
    ensures PointsFor(AllPoints(ordinals, ordered, ids), id) == if id in ids then NodePoints(ordinals, Of(ordered, id)) else []
  {
    hide NodePoints, Of, PointsFor, AllPoints;
    if ids == [] {
      NoPointsFor(ordinals, ordered, id);
    } else {
      var front, last := ids[..|ids| - 1], ids[|ids| - 1];
      assert ids == front + [last];
      AllPointsFor(ordinals, ordered, front, id);
      AllPointsSnoc(ordinals, ordered, front, last);
      OwnPoints(ordinals, ordered, last, id);
      PointsForJoin(AllPoints(ordinals, ordered, front), NodePoints(ordinals, Of(ordered, last)), id);
    }
  }

  /** The points of each known node cover its accesses, each once and in order, by at most twenty-four points; no other node has points. */
  lemma EveryAccessIsCovered(trail: seq<Access>, known: set<string>, id: string)
    requires DistinctSequences(trail)
    ensures var points := PointsFor(BuiltPoints(trail, known), id);
            if id != "" && id in known then
              Covered(points) == SequencesOf(Of(Sort(AccessBefore, trail), id)) && |points| <= MAX_INDIVIDUAL_ACCESS_POINTS
            else points == []
  {
    hide NodePoints, Of, FirstSeen, Ordinals, Covered, AllPoints;
    var ordered := Sort(AccessBefore, trail);
    AllPointsFor(Ordinals(ordered), ordered, FirstSeen(ordered, known), id);
    FirstSeenLaw(ordered, known);
    OfMembers(ordered, id);
    NodePointsLaw(Ordinals(ordered), Of(ordered, id), id);
    NoPoints(Ordinals(ordered));
  }

  lemma NoPoints(ordinals: map<(string, int), nat>)
    ensures NodePoints(ordinals, []) == [] && Covered([]) == SequencesOf([])
  {
  }

  ghost predicate EndsInLatest(p: Point) {
    p.sequences != [] && p.sequences[|p.sequences| - 1] == p.latest.sequence && p.nodeId == p.latest.nodeId
  }

  ghost predicate Increasing(s: seq<int>) {
    forall i, j :: 0 <= i < j < |s| ==> s[i] < s[j]
  }

  lemma {:induction false} LatestIsCovered(points: seq<Point>, j: nat)
    requires j < |points| && forall i :: 0 <= i < |points| ==> EndsInLatest(points[i])
    ensures points[j].latest.sequence in Covered(points)
  {
    if j > 0 {
      LatestIsCovered(points[1..], j - 1);
    }
  }

  lemma {:induction false} LatestIncreases(points: seq<Point>, i: nat, j: nat)
    requires i < j < |points| && Increasing(Covered(points)) && forall i :: 0 <= i < |points| ==> EndsInLatest(points[i])
    ensures points[i].latest.sequence < points[j].latest.sequence
  {
    var first, rest := points[0].sequences, points[1..];
    var covered := Covered(points);
    assert covered == first + Covered(rest);
    if i > 0 {
      assert forall k :: 0 <= k < |Covered(rest)| ==> Covered(rest)[k] == covered[|first| + k];
      LatestIncreases(rest, i - 1, j - 1);
    } else {
      LatestIsCovered(rest, j - 1);
      var k :| 0 <= k < |Covered(rest)| && Covered(rest)[k] == points[j].latest.sequence;
      assert covered[|first| - 1] < covered[|first| + k];
    }
  }

  /** Every point ends in an access of its node, and different points in different accesses. */
  ghost predicate EndApart(points: seq<Point>, ordered: seq<Access>, ids: seq<string>) {
    && (forall i :: 0 <= i < |points| ==> EndsInLatest(points[i]) && points[i].latest in ordered && points[i].nodeId in ids)
    && (forall i, j :: 0 <= i < j < |points| ==> points[i].latest.sequence != points[j].latest.sequence)
  }

  lemma NodePointsEndApart(ordinals: map<(string, int), nat>, ordered: seq<Access>, id: string)
    requires SortedBy(AccessBefore, ordered)
    ensures EndApart(NodePoints(ordinals, Of(ordered, id)), ordered, [id])
  {
    hide NodePoints, Of, Covered;
    var accesses := Of(ordered, id);
    var points := NodePoints(ordinals, accesses);
    OfMembers(ordered, id);
    NodePointsLaw(ordinals, accesses, id);
    forall i | 0 <= i < |points| ensures EndsInLatest(points[i]) && points[i].latest in ordered && points[i].nodeId == id {
    }
    assert Increasing(SequencesOf(accesses));
    forall i, j | 0 <= i < j < |points| ensures points[i].latest.sequence != points[j].latest.sequence {
      LatestIncreases(points, i, j);
    }
  }

  lemma EndApartJoin(a: seq<Point>, b: seq<Point>, ordered: seq<Access>, ids: seq<string>, id: string)
    requires SortedBy(AccessBefore, ordered) && EndApart(a, ordered, ids) && EndApart(b, ordered, [id]) && id !in ids
    ensures EndApart(a + b, ordered, ids + [id])
  {
    forall i, j | 0 <= i < |a| && 0 <= j < |b| ensures a[i].latest.sequence != b[j].latest.sequence {
      assert a[i].latest != b[j].latest;
      var m :| 0 <= m < |ordered| && ordered[m] == a[i].latest;
      var n :| 0 <= n < |ordered| && ordered[n] == b[j].latest;
      assert AccessBefore(ordered[m], ordered[n]) || AccessBefore(ordered[n], ordered[m]);
    }
  }

  lemma {:induction false} AllPointsEndApart(ordinals: map<(string, int), nat>, ordered: seq<Access>, ids: seq<string>)
    requires SortedBy(AccessBefore, ordered) && Distinct(ids)
    ensures EndApart(AllPoints(ordinals, ordered, ids), ordered, ids)
  {
    hide NodePoints, Of, EndApart;
    if ids == [] {
      assert EndApart([], ordered, ids) by { NothingEnds(ordered, ids); }
    } else {
      var last := |ids| - 1;
      AllPointsEndApart(ordinals, ordered, ids[..last]);
      NodePointsEndApart(ordinals, ordered, ids[last]);
      EndApartJoin(AllPoints(ordinals, ordered, ids[..last]), NodePoints(ordinals, Of(ordered, ids[last])), ordered, ids[..last], ids[last]);
      assert ids == ids[..last] + [ids[last]];
    }
  }

  lemma NothingEnds(ordered: seq<Access>, ids: seq<string>)
    ensures EndApart([], ordered, ids)
  {
  }

  lemma BuiltPointsEndApart(trail: seq<Access>, known: set<string>)
    requires DistinctSequences(trail)
    ensures var ordered := Sort(AccessBefore, trail); EndApart(BuiltPoints(trail, known), ordered, FirstSeen(ordered, known))
  {
    SortTrail(trail);
    var ordered := Sort(AccessBefore, trail);
    AllPointsEndApart(Ordinals(ordered), ordered, FirstSeen(ordered, known));
  }
}
