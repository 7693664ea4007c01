/** Reading git's NUL-separated status: parseStatus of internal/adapters/filesystem/git.go. */
module GitStatus {
  import opened Common
  import opened Pieces

  type Bytes = seq<Byte>

  const NUL: Byte := 0
  const SPACE: Byte := 32
  const COPIED: Byte := 67
  const RENAMED: Byte := 82

  datatype Status = Status(index: Byte, worktree: Byte)

  /** One entry as read: a path, its status, and the path it was renamed from. */
  datatype Found = Found(path: Bytes, status: Status, previous: Option<Bytes>)

  predicate IsRecord(record: Bytes) {
    4 <= |record| && record[2] == SPACE
  }

  predicate IsRename(s: Status) {
    s.index == RENAMED || s.worktree == RENAMED
  }

  function StatusIn(record: Bytes): Status
    requires IsRecord(record)
  {
    Status(record[0], record[1])
  }

  /** The entries the reader recognises; a rename takes the record after it, whatever that is. */
  function Recognised(records: seq<Bytes>): seq<Found>
    decreases |records|
  {
    if records == [] then []
    else if !IsRecord(records[0]) then Recognised(records[1..])
    else
      var s := StatusIn(records[0]);
      if IsRename(s) && 1 < |records| then [Found(records[0][3..], s, Some(records[1]))] + Recognised(records[2..])
      else [Found(records[0][3..], s, None)] + Recognised(records[1..])
  }

  function Statuses(found: seq<Found>, status: map<Bytes, Status>): map<Bytes, Status> {
    if found == [] then status
    else Statuses(found[..|found| - 1], status)[found[|found| - 1].path := found[|found| - 1].status]
  }

  function Renames(found: seq<Found>, renames: map<Bytes, Bytes>): map<Bytes, Bytes> {
    if found == [] then renames
    else
      var before, last := Renames(found[..|found| - 1], renames), found[|found| - 1];
      if last.previous.Some? && last.previous.value != [] then before[last.previous.value := last.path] else before
  }

  /** The maps passed in come back extended, as the reader fills them in place. */
  method ParseStatus(output: Bytes, status0: map<Bytes, Status>, renames0: map<Bytes, Bytes>)
    returns (status: map<Bytes, Status>, renames: map<Bytes, Bytes>)
    ensures status == Statuses(Recognised(Split(output, NUL)), status0)
    ensures renames == Renames(Recognised(Split(output, NUL)), renames0)
  {
    hide Split, Statuses, Renames, Recognised;
    NoneYet(status0, renames0);
    status, renames := status0, renames0;
    var records := Split(output, NUL);
    ghost var seen: seq<Found> := [];
    var index := 0;
    assert records[0..] == records;
    while index < |records|
      invariant 0 <= index <= |records|
      invariant status == Statuses(seen, status0) && renames == Renames(seen, renames0)
      invariant seen + Recognised(records[index..]) == Recognised(records)
    {
      var record := records[index];
      RecognisedStep(records, index);
      if |record| < 4 || record[2] != SPACE {
        index := index + 1;
        continue;
      }
      var path := record[3..];
      var value := Status(record[0], record[1]);
      status := status[path := value];
      ghost var origin := None;
      if (record[0] == RENAMED || record[1] == RENAMED) && index + 1 < |records| {
        var previous := records[index + 1];
        origin := Some(previous);
        if previous != [] {
          renames := renames[previous := path];
        }
        index := index + 1;
      }
      MapsSnoc(seen, Found(path, value, origin), status0, renames0);
      seen := seen + [Found(path, value, origin)];
      index := index + 1;
    }
    assert records[|records|..] == [] && seen + [] == seen;
    NothingRecognised();
  }

  lemma NoneYet(status: map<Bytes, Status>, renames: map<Bytes, Bytes>)
    ensures Statuses([], status) == status && Renames([], renames) == renames
  {
  }

  lemma NothingRecognised()
    ensures Recognised([]) == []
  {
  }

  lemma MapsSnoc(found: seq<Found>, f: Found, status: map<Bytes, Status>, renames: map<Bytes, Bytes>)
    ensures Statuses(found + [f], status) == Statuses(found, status)[f.path := f.status]
    ensures Renames(found + [f], renames) ==
            if f.previous.Some? && f.previous.value != [] then Renames(found, renames)[f.previous.value := f.path] else Renames(found, renames)
  {
    assert (found + [f])[..|found|] == found;
  }

  lemma ConsEqual<T>(x: T, a: seq<T>, b: seq<T>)
    ensures [x] + a == [x] + b <==> a == b
  {
    assert ([x] + a)[1..] == a && ([x] + b)[1..] == b;
  }

  lemma RecognisedStep(records: seq<Bytes>, index: nat)
    requires index < |records|
    ensures var here := records[index];
            Recognised(records[index..]) ==
            if !IsRecord(here) then Recognised(records[index + 1..])
            else if IsRename(StatusIn(here)) && index + 1 < |records| then
              [Found(here[3..], StatusIn(here), Some(records[index + 1]))] + Recognised(records[index + 2..])
            else [Found(here[3..], StatusIn(here), None)] + Recognised(records[index + 1..])
  {
    assert records[index..][1..] == records[index + 1..];
    if index + 1 < |records| {
      assert records[index..][2..] == records[index + 2..];
    }
  }

  // ----- what git prints -----

  /** An entry of git's status; renamed and copied entries also name where they came from. */
  datatype Entry = Entry(path: Bytes, status: Status, origin: Option<Bytes>)

  predicate NamesOrigin(s: Status) {
    IsRename(s) || s.index == COPIED || s.worktree == COPIED
  }

  ghost predicate ProperEntry(e: Entry) {
    && e.path != [] && NUL !in e.path && e.status.index != NUL && e.status.worktree != NUL
    && (e.origin.Some? <==> NamesOrigin(e.status)) && (e.origin.Some? ==> e.origin.value != [] && NUL !in e.origin.value)
  }

  ghost predicate ProperEntries(entries: seq<Entry>) {
    forall i :: 0 <= i < |entries| ==> ProperEntry(entries[i])
  }

  function RecordOf(e: Entry): Bytes {
    [e.status.index, e.status.worktree, SPACE] + e.path
  }

  function RecordsOf(e: Entry): seq<Bytes> {
    [RecordOf(e)] + if e.origin.Some? then [e.origin.value] else []
  }

  /** XY PATH NUL [ORIG NUL], section "Porcelain Format Version 1" of the git-status manual with -z. */
  function PrintEntry(e: Entry): Bytes {
    RecordOf(e) + [NUL] + if e.origin.Some? then e.origin.value + [NUL] else []
  }

  function Print(entries: seq<Entry>): Bytes {
    if entries == [] then [] else PrintEntry(entries[0]) + Print(entries[1..])
  }

  function Records(entries: seq<Entry>): seq<Bytes> {
    if entries == [] then [[]] else RecordsOf(entries[0]) + Records(entries[1..])
  }

  lemma {:induction false} SplitPrint(entries: seq<Entry>)
    requires ProperEntries(entries)
    ensures Split(Print(entries), NUL) == Records(entries)
  {
    if entries != [] {
      SplitPrint(entries[1..]);
      assert ProperEntry(entries[0]);
      SplitEntry(entries[0], Print(entries[1..]));
    }
  }

  lemma SplitEntry(e: Entry, rest: Bytes)
    requires ProperEntry(e)
    ensures Split(PrintEntry(e) + rest, NUL) == RecordsOf(e) + Split(rest, NUL)
  {
    hide Split;
    if e.origin.Some? {
      var tail := e.origin.value + [NUL] + rest;
      assert PrintEntry(e) + rest == RecordOf(e) + [NUL] + tail;
      SplitFirst(RecordOf(e), tail, NUL);
      SplitFirst(e.origin.value, rest, NUL);
    } else {
      assert PrintEntry(e) + rest == RecordOf(e) + [NUL] + rest;
      SplitFirst(RecordOf(e), rest, NUL);
    }
  }

  /** What the reader should make of an entry: where a rename came from, and nothing about copies. */
  function Meant(e: Entry): Found {
    Found(e.path, e.status, if IsRename(e.status) then e.origin else None)
  }

  function AllMeant(entries: seq<Entry>): seq<Found> {
    seq(|entries|, i requires 0 <= i < |entries| => Meant(entries[i]))
  }

  /** The reader takes no origin off a copied entry, so it will take this one for an entry of its own. */
  predicate Misleads(e: Entry) {
    e.origin.Some? && !IsRename(e.status) && IsRecord(e.origin.value)
  }

  lemma ReadOne(e: Entry, rest: seq<Bytes>)
    requires ProperEntry(e) && !Misleads(e)
    ensures Recognised(RecordsOf(e) + rest) == [Meant(e)] + Recognised(rest)
  {
    var records := RecordsOf(e) + rest;
    var record := RecordOf(e);
    assert record[3..] == e.path && IsRecord(record) && StatusIn(record) == e.status;
    if e.origin.Some? {
      assert records[1..][1..] == rest && records[2..] == rest && records[1] == e.origin.value;
    } else {
      assert records[1..] == rest;
    }
  }

  lemma NothingLeft()
    ensures Recognised([[]]) == []
  {
    var empty: seq<Bytes> := [[]];
    assert empty[1..] == [];
  }

  // ----- a misleading origin is never made good by what follows -----

  function SkipJunk(records: seq<Bytes>): seq<Bytes> {
    if records == [] || IsRecord(records[0]) then records else SkipJunk(records[1..])
  }

  lemma {:induction false} SkipJunkLaw(records: seq<Bytes>, rest: seq<Bytes>)
    ensures Recognised(records + rest) == Recognised(SkipJunk(records) + rest)
    ensures (exists i :: 0 <= i < |records| && IsRecord(records[i])) ==> SkipJunk(records) != []
    ensures SkipJunk(records) != [] ==> IsRecord(SkipJunk(records)[0])
  {
    if records != [] && !IsRecord(records[0]) {
      SkipJunkLaw(records[1..], rest);
      assert (records + rest)[1..] == records[1..] + rest;
    }
  }

  lemma RecordTellsEntry(e: Entry, record: Bytes)
    requires ProperEntry(e) && IsRecord(record) && e.path == record[3..] && e.status == StatusIn(record)
    ensures RecordOf(e) == record
  {
  }

  /** Extra records of which the first passes for an entry never read back as the entries behind them. */
  lemma {:induction false} ExtraRecordsShow(extra: seq<Bytes>, entries: seq<Entry>)
    requires ProperEntries(entries) && extra != [] && IsRecord(extra[0])
    ensures Recognised(extra + Records(entries)) != AllMeant(entries)
    decreases |entries|
  {
    if entries != [] && Recognised(extra + Records(entries)) == AllMeant(entries) {
      var e, later := entries[0], entries[1..];
      assert ProperEntry(e) && AllMeant(entries)[0] == Meant(e) && AllMeant(entries)[1..] == AllMeant(later);
      assert ProperEntries(later);
      FirstOfExtra(extra, entries);
      RecordTellsEntry(e, extra[0]);
      var left := LeftOver(extra, e);
      LeftOverLaw(extra, e, Records(later));
      assert Records(entries) == RecordsOf(e) + Records(later);
      SkipJunkLaw(left, Records(later));
      ExtraRecordsShow(SkipJunk(left), later);
      assert false;
    }
  }

  lemma FirstOfExtra(extra: seq<Bytes>, entries: seq<Entry>)
    requires extra != [] && IsRecord(extra[0]) && entries != []
    requires Recognised(extra + Records(entries)) == AllMeant(entries)
    ensures entries[0].path == extra[0][3..] && entries[0].status == StatusIn(extra[0])
    ensures IsRename(StatusIn(extra[0])) && entries[0].origin.Some? ==>
              entries[0].origin.value == (extra + Records(entries))[1]
  {
    assert (extra + Records(entries))[0] == extra[0];
    assert AllMeant(entries)[0] == Meant(entries[0]);
  }

  /** What stands before the later entries once the first entry has been read off the front. */
  function LeftOver(extra: seq<Bytes>, e: Entry): seq<Bytes>
    requires extra != [] && IsRecord(extra[0])
  {
    if IsRename(StatusIn(extra[0])) then (extra + RecordsOf(e))[2..] else extra[1..] + RecordsOf(e)
  }

  lemma LeftOverLaw(extra: seq<Bytes>, e: Entry, rest: seq<Bytes>)
    requires ProperEntry(e) && extra != [] && IsRecord(extra[0]) && RecordOf(e) == extra[0]
    requires e.status == StatusIn(extra[0])
    requires IsRename(e.status) ==> e.origin.Some? && e.origin.value == (extra + (RecordsOf(e) + rest))[1]
    ensures var all := Recognised(extra + (RecordsOf(e) + rest)); all != [] && all[1..] == Recognised(LeftOver(extra, e) + rest)
    ensures exists i :: 0 <= i < |LeftOver(extra, e)| && IsRecord(LeftOver(extra, e)[i])
  {
    hide IsRecord, RecordOf, IsRename, StatusIn, ProperEntry;
    LeftOverHasRecord(extra, e, rest);
    var records := extra + (RecordsOf(e) + rest);
    assert records[0] == extra[0] && 1 < |records|;
    if IsRename(e.status) {
      assert records[2..] == LeftOver(extra, e) + rest;
    } else {
      assert records[1..] == LeftOver(extra, e) + rest;
    }
  }

  lemma LeftOverHasRecord(extra: seq<Bytes>, e: Entry, rest: seq<Bytes>)
    requires extra != [] && IsRecord(extra[0]) && RecordOf(e) == extra[0] && e.status == StatusIn(extra[0])
    requires IsRename(e.status) ==> e.origin.Some? && e.origin.value == (extra + (RecordsOf(e) + rest))[1]
    ensures IsRename(e.status) || 1 < |extra + (RecordsOf(e) + rest)|
    ensures exists i :: 0 <= i < |LeftOver(extra, e)| && IsRecord(LeftOver(extra, e)[i])
  {
    hide IsRecord, RecordOf, IsRename, StatusIn;
    var left, own := LeftOver(extra, e), RecordsOf(e);
    assert own[0] == extra[0];
    if !IsRename(e.status) {
      assert left[|extra| - 1] == own[0];
    } else if |extra| == 1 {
      assert left[0] == own[1] == extra[0];
    } else {
      assert left[|extra| - 2] == own[0];
    }
  }

  /** Reading back what git printed gives the printed entries exactly when no copied entry's origin passes for an entry. */
  lemma {:induction false} RoundTripIff(entries: seq<Entry>)
    requires ProperEntries(entries)
    ensures Recognised(Split(Print(entries), NUL)) == AllMeant(entries)
            <==> forall i :: 0 <= i < |entries| ==> !Misleads(entries[i])
  {
    SplitPrint(entries);
    RecordsReadBackIff(entries);
  }

  lemma {:induction false} RecordsReadBackIff(entries: seq<Entry>)
    requires ProperEntries(entries)
    ensures Recognised(Records(entries)) == AllMeant(entries) <==> forall i :: 0 <= i < |entries| ==> !Misleads(entries[i])
  {
    hide Recognised, Misleads;
    if entries == [] {
      NothingLeft();
    } else {
      var e, later := entries[0], entries[1..];
      assert ProperEntry(e) && ProperEntries(later);
      assert AllMeant(entries) == [Meant(e)] + AllMeant(later);
      if Misleads(e) {
        MisledRead(e, later);
      } else {
        RecordsReadBackIff(later);
        ReadOne(e, Records(later));
        ConsEqual(Meant(e), Recognised(Records(later)), AllMeant(later));
        if forall i :: 0 <= i < |later| ==> !Misleads(later[i]) {
          assert forall i :: 0 < i < |entries| ==> entries[i] == later[i - 1];
        } else {
          var i :| 0 <= i < |later| && Misleads(later[i]);
          assert Misleads(entries[i + 1]);
        }
      }
    }
  }

  lemma MisledRead(e: Entry, later: seq<Entry>)
    requires ProperEntry(e) && Misleads(e) && ProperEntries(later)
    ensures Recognised(Records([e] + later)) != AllMeant([e] + later)
  {
    var entries := [e] + later;
    assert entries[1..] == later;
    var records := Records(entries);
    assert RecordOf(e)[3..] == e.path;
    assert records[0] == RecordOf(e) && records[1..] == [e.origin.value] + Records(later);
    ExtraRecordsShow([e.origin.value], later);
    assert Recognised(records) == [Meant(e)] + Recognised([e.origin.value] + Records(later));
    assert AllMeant(entries) == [Meant(e)] + AllMeant(later);
    ConsEqual(Meant(e), Recognised([e.origin.value] + Records(later)), AllMeant(later));
  }

  // ----- the maps -----

  ghost predicate DistinctPaths(entries: seq<Entry>) {
    forall i, j :: 0 <= i < j < |entries| ==> entries[i].path != entries[j].path
  }

  /** No two renames from the same path. */
  ghost predicate DistinctOrigins(entries: seq<Entry>) {
    forall i, j :: 0 <= i < j < |entries| && IsRename(entries[i].status) && IsRename(entries[j].status) ==>
      entries[i].origin != entries[j].origin
  }

  ghost predicate IsStatusOf(status: map<Bytes, Status>, entries: seq<Entry>) {
    && (forall i :: 0 <= i < |entries| ==> entries[i].path in status && status[entries[i].path] == entries[i].status)
    && (forall p :: p in status ==> exists i :: 0 <= i < |entries| && entries[i].path == p)
  }

  ghost predicate IsRenamesOf(renames: map<Bytes, Bytes>, entries: seq<Entry>) {
    && (forall i :: 0 <= i < |entries| && IsRename(entries[i].status) && entries[i].origin.Some? ==>
          entries[i].origin.value in renames && renames[entries[i].origin.value] == entries[i].path)
    && (forall p :: p in renames ==> exists i :: 0 <= i < |entries| && IsRename(entries[i].status) && entries[i].origin == Some(p))
  }

  lemma {:induction false} StatusesOfMeant(entries: seq<Entry>)
    requires DistinctPaths(entries)
    ensures IsStatusOf(Statuses(AllMeant(entries), map[]), entries)
  {
    if entries != [] {
      var last := |entries| - 1;
      StatusesOfMeant(entries[..last]);
      hide IsStatusOf, DistinctPaths;
      assert AllMeant(entries)[..last] == AllMeant(entries[..last]);
      assert entries == entries[..last] + [entries[last]];
      StatusStep(entries[..last], entries[last], Statuses(AllMeant(entries[..last]), map[]));
    }
  }

  lemma {:induction false} RenamesOfMeant(entries: seq<Entry>)
    requires ProperEntries(entries) && DistinctOrigins(entries)
    ensures IsRenamesOf(Renames(AllMeant(entries), map[]), entries)
  {
    if entries != [] {
      var last := |entries| - 1;
      RenamesOfMeant(entries[..last]);
      assert ProperEntry(entries[last]);
      hide IsRenamesOf, DistinctOrigins, ProperEntry;
      assert AllMeant(entries)[..last] == AllMeant(entries[..last]);
      assert entries == entries[..last] + [entries[last]];
      RenamesStep(entries[..last], entries[last], Renames(AllMeant(entries[..last]), map[]));
    }
  }

  lemma StatusStep(front: seq<Entry>, e: Entry, status: map<Bytes, Status>)
    requires IsStatusOf(status, front) && DistinctPaths(front + [e])
    ensures IsStatusOf(status[e.path := e.status], front + [e])
  {
    var all := front + [e];
    assert forall i :: 0 <= i < |front| ==> all[i] == front[i];
    assert all[|front|] == e;
    forall i | 0 <= i < |front| ensures front[i].path != e.path {
      assert all[i].path != all[|front|].path;
    }
  }

  lemma RenamesStep(front: seq<Entry>, e: Entry, renames: map<Bytes, Bytes>)
    requires ProperEntry(e) && IsRenamesOf(renames, front) && DistinctOrigins(front + [e])
    ensures var meant := Meant(e);
            IsRenamesOf(if meant.previous.Some? && meant.previous.value != [] then renames[meant.previous.value := e.path] else renames, front + [e])
  {
    var all := front + [e];
    assert forall i :: 0 <= i < |front| ==> all[i] == front[i];
    assert all[|front|] == e;
    forall i | 0 <= i < |front| && IsRename(front[i].status) && IsRename(e.status) ensures front[i].origin != e.origin {
      assert all[i].origin != all[|front|].origin;
    }
  }

  /** Without copies whose origin misleads, the maps hold just the printed statuses and renames. */
  lemma StatusRoundTrip(entries: seq<Entry>)
    requires ProperEntries(entries) && DistinctPaths(entries) && DistinctOrigins(entries)
    requires forall i :: 0 <= i < |entries| ==> !Misleads(entries[i])
    ensures var found := Recognised(Split(Print(entries), NUL));
            IsStatusOf(Statuses(found, map[]), entries) && IsRenamesOf(Renames(found, map[]), entries)
  {
    RoundTripIff(entries);
    StatusesOfMeant(entries);
    RenamesOfMeant(entries);
  }

  /** The bytes of an entry: its two letters, a space, the path, and NUL; R (82) is a rename and C (67) a copy, on either side. */
  lemma EntryBytes(e: Entry)
    ensures PrintEntry(e) == [e.status.index, e.status.worktree, 32] + e.path + [0] + (if e.origin.Some? then e.origin.value + [0] else [])
    ensures IsRename(e.status) <==> e.status.index == 82 || e.status.worktree == 82
    ensures NamesOrigin(e.status) <==> 82 in [e.status.index, e.status.worktree] || 67 in [e.status.index, e.status.worktree]
  {
  }
}
