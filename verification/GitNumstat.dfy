/** Reading git's NUL-separated line counts: parseNumstat of internal/adapters/filesystem/git.go. */
module GitNumstat {
  import opened Common
  import opened Pieces

  type Bytes = seq<Byte>

  const NUL: Byte := 0
  const TAB: Byte := 9
  const PLUS: Byte := 43
  const MINUS: Byte := 45
  const ZERO: Byte := 48
  const INT64_LIMIT := 0x8000_0000_0000_0000

  datatype Delta = Delta(added: int, deleted: int, binary: bool)

  // ----- strconv.ParseInt(s, 10, 64) -----

  predicate IsDigit(c: Byte) {
    ZERO <= c <= ZERO + 9
  }

  function DigitsValue(digits: Bytes): Option<nat> {
    if digits == [] then Some(0)
    else
      var before, c := DigitsValue(digits[..|digits| - 1]), digits[|digits| - 1];
      if before.Some? && IsDigit(c) then Some(10 * before.value + (c - ZERO) as nat) else None
  }

  function ParseInt(s: Bytes): Option<int> {
    var signed := s != [] && (s[0] == PLUS || s[0] == MINUS);
    var digits := if signed then s[1..] else s;
    var value := DigitsValue(digits);
    if digits == [] || value.None? then None
    else if signed && s[0] == MINUS then
      var negative: int := 0 - value.value;
      if -INT64_LIMIT <= negative then Some(negative) else None
    else if value.value < INT64_LIMIT then Some(value.value)
    else None
  }

  function Digit(n: nat): Byte
    requires n < 10
  {
    ZERO + n as Byte
  }

  function Format(n: nat): (s: Bytes)
    ensures s != []
  {
    if n < 10 then [Digit(n)] else Format(n / 10) + [Digit(n % 10)]
  }

  lemma {:induction false} FormatReadsBack(n: nat)
    ensures DigitsValue(Format(n)) == Some(n)
    ensures forall i :: 0 <= i < |Format(n)| ==> IsDigit(Format(n)[i])
  {
    if n < 10 {
      assert [Digit(n)][..0] == [];
    } else {
      FormatReadsBack(n / 10);
      assert Format(n)[..|Format(n)| - 1] == Format(n / 10);
    }
  }

  lemma ParseIntOfFormat(n: nat)
    requires n < INT64_LIMIT
    ensures ParseInt(Format(n)) == Some(n)
    ensures TAB !in Format(n) && NUL !in Format(n) && Format(n) != [MINUS]
  {
    FormatReadsBack(n);
    assert IsDigit(Format(n)[0]);
  }

  // ----- the records -----

  /** bytes.SplitN(record, tab, 3), where it has three fields. */
  function ThreeFields(record: Bytes): Option<(Bytes, Bytes, Bytes)> {
    var first := Split(record, TAB);
    if |first| < 3 then None else Some((first[0], first[1], Join(first[2..], TAB)))
  }

  /** What a record says of which path. */
  function DeltaIn(record: Bytes): Option<(Bytes, Delta)> {
    match ThreeFields(record)
    case None => None
    case Some(fields) =>
      if fields.2 == [] then None
      else if fields.0 == [MINUS] || fields.1 == [MINUS] then Some((fields.2, Delta(0, 0, true)))
      else
        var added, deleted := ParseInt(fields.0), ParseInt(fields.1);
        if added.Some? && deleted.Some? then Some((fields.2, Delta(added.value, deleted.value, false))) else None
  }

  function Deltas(records: seq<Bytes>, deltas: map<Bytes, Delta>): map<Bytes, Delta> {
    if records == [] then deltas
    else
      var before, d := Deltas(records[..|records| - 1], deltas), DeltaIn(records[|records| - 1]);
      if d.Some? then before[d.value.0 := d.value.1] else before
  }

  method ParseNumstat(output: Bytes, deltas0: map<Bytes, Delta>) returns (deltas: map<Bytes, Delta>)
    ensures deltas == Deltas(Split(output, NUL), deltas0)
  {
    hide Split, ParseInt;
    deltas := deltas0;
    var records := Split(output, NUL);
    for i := 0 to |records|
      invariant deltas == Deltas(records[..i], deltas0)
    {
      assert records[..i + 1][..i] == records[..i];
      var fields := ThreeFields(records[i]);
      if fields.None? {
        continue;
      }
      var (addedField, deletedField, path) := fields.value;
      if path == [] {
        continue;
      }
      if addedField == [MINUS] || deletedField == [MINUS] {
        deltas := deltas[path := Delta(0, 0, true)];
        continue;
      }
      var added, deleted := ParseInt(addedField), ParseInt(deletedField);
      if added.Some? && deleted.Some? {
        deltas := deltas[path := Delta(added.value, deleted.value, false)];
      }
    }
    assert records[..|records|] == records;
  }

  // ----- what git prints -----

  /** counts is None for a binary file; the path may hold tabs. */
  datatype Entry = Entry(path: Bytes, counts: Option<(nat, nat)>)

  ghost predicate ProperEntry(e: Entry) {
    && e.path != [] && NUL !in e.path
    && (e.counts.Some? ==> e.counts.value.0 < INT64_LIMIT && e.counts.value.1 < INT64_LIMIT)
  }

  function AddedField(e: Entry): Bytes {
    if e.counts.Some? then Format(e.counts.value.0) else [MINUS]
  }

  function DeletedField(e: Entry): Bytes {
    if e.counts.Some? then Format(e.counts.value.1) else [MINUS]
  }

  function RecordOf(e: Entry): Bytes {
    AddedField(e) + [TAB] + (DeletedField(e) + [TAB] + e.path)
  }

  function Print(entries: seq<Entry>): Bytes {
    if entries == [] then [] else RecordOf(entries[0]) + [NUL] + Print(entries[1..])
  }

  function DeltaOf(e: Entry): Delta {
    if e.counts.Some? then Delta(e.counts.value.0, e.counts.value.1, false) else Delta(0, 0, true)
  }

  function AllDeltas(entries: seq<Entry>, deltas: map<Bytes, Delta>): map<Bytes, Delta> {
    if entries == [] then deltas
    else AllDeltas(entries[..|entries| - 1], deltas)[entries[|entries| - 1].path := DeltaOf(entries[|entries| - 1])]
  }

  lemma FieldsAreClean(e: Entry)
    requires ProperEntry(e)
    ensures TAB !in AddedField(e) && TAB !in DeletedField(e) && NUL !in RecordOf(e)
  {
    if e.counts.Some? {
      ParseIntOfFormat(e.counts.value.0);
      ParseIntOfFormat(e.counts.value.1);
    }
  }

  lemma ReadOne(e: Entry)
    requires ProperEntry(e)
    ensures DeltaIn(RecordOf(e)) == Some((e.path, DeltaOf(e)))
  {
    FieldsAreClean(e);
    hide Split, Join, ParseInt, Format;
    var record := RecordOf(e);
    SplitFirst(AddedField(e), DeletedField(e) + [TAB] + e.path, TAB);
    SplitFirst(DeletedField(e), e.path, TAB);
    var pieces := Split(record, TAB);
    assert pieces == [AddedField(e), DeletedField(e)] + Split(e.path, TAB);
    assert pieces[2..] == Split(e.path, TAB);
    JoinSplit(e.path, TAB);
    if e.counts.Some? {
      ParseIntOfFormat(e.counts.value.0);
      ParseIntOfFormat(e.counts.value.1);
    }
  }

  function Records(entries: seq<Entry>): seq<Bytes> {
    seq(|entries|, i requires 0 <= i < |entries| => RecordOf(entries[i]))
  }

  lemma {:induction false} SplitPrint(entries: seq<Entry>)
    requires forall i :: 0 <= i < |entries| ==> ProperEntry(entries[i])
    ensures Split(Print(entries), NUL) == Records(entries) + [[]]
  {
    if entries != [] {
      SplitPrint(entries[1..]);
      assert ProperEntry(entries[0]);
      FieldsAreClean(entries[0]);
      hide Split;
      SplitFirst(RecordOf(entries[0]), Print(entries[1..]), NUL);
      assert Records(entries) == [RecordOf(entries[0])] + Records(entries[1..]);
    }
  }

  lemma {:induction false} RecordsReadBack(entries: seq<Entry>, deltas: map<Bytes, Delta>)
    requires forall i :: 0 <= i < |entries| ==> ProperEntry(entries[i])
    ensures Deltas(Records(entries), deltas) == AllDeltas(entries, deltas)
  {
    if entries != [] {
      var last := |entries| - 1;
      RecordsReadBack(entries[..last], deltas);
      assert ProperEntry(entries[last]);
      hide DeltaIn, RecordOf;
      ReadOne(entries[last]);
      assert Records(entries)[..last] == Records(entries[..last]);
    }
  }

  /** Reading back printed counts gives each path its counts, tabs in the path or not. */
  lemma NumstatRoundTrip(entries: seq<Entry>, deltas: map<Bytes, Delta>)
    requires forall i :: 0 <= i < |entries| ==> ProperEntry(entries[i])
    ensures Deltas(Split(Print(entries), NUL), deltas) == AllDeltas(entries, deltas)
  {
    SplitPrint(entries);
    RecordsReadBack(entries, deltas);
    LastIsEmpty(Records(entries), deltas);
  }

  lemma LastIsEmpty(records: seq<Bytes>, deltas: map<Bytes, Delta>)
    ensures Deltas(records + [[]], deltas) == Deltas(records, deltas)
  {
    assert (records + [[]])[..|records|] == records;
    assert DeltaIn([]).None?;
  }
}
