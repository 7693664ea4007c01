/**
 The gate of adapter/go/wrapper/evidence.go: strong evidence passes at once, fallback evidence
 waits out a window and gives way to strong evidence for the same change.
 */
module EvidenceGate {
  import opened Common
  import opened Protocol

  // ----- keys -----

  function EventFamily(t: EventType): string {
    match t
    case FileModified => "file_write"
    case FilePatched => "file_write"
    case FileCreated => "file_create"
    case FileDeleted => "file_delete"
    case FileRenamed => "file_move"
    case FileMoved => "file_move"
    case DirectoryCreated => "directory_create"
    case DirectoryDeleted => "directory_delete"
    case DirectoryRenamed => "directory_move"
    case _ => ""
  }

  /** canonical stands for canonicalEvidencePath: the platform's path cleaning. */
  function EvidenceKey(e: Event, canonical: (string, string) -> string): string {
    if EventFamily(e.eventType) == "" || e.path == "" then ""
    else JoinNul([e.sessionId, EventFamily(e.eventType), canonical(e.projectRoot, e.path), canonical(e.projectRoot, e.previousPath)])
  }

  lemma NoFamilyHasNul(t: EventType)
    ensures NUL_CHAR !in EventFamily(t)
  {
  }

  /** Two events are evidence for one change exactly when session, family and both canonical paths agree. */
  lemma SameKeyIff(a: Event, b: Event, canonical: (string, string) -> string)
    requires NUL_CHAR !in a.sessionId && NUL_CHAR !in b.sessionId
    requires forall root, path :: NUL_CHAR !in canonical(root, path)
    requires EvidenceKey(a, canonical) != "" && EvidenceKey(b, canonical) != ""
    ensures EvidenceKey(a, canonical) == EvidenceKey(b, canonical) <==>
            && a.sessionId == b.sessionId && EventFamily(a.eventType) == EventFamily(b.eventType)
            && canonical(a.projectRoot, a.path) == canonical(b.projectRoot, b.path)
            && canonical(a.projectRoot, a.previousPath) == canonical(b.projectRoot, b.previousPath)
  {
    hide EventFamily;
    NoFamilyHasNul(a.eventType);
    NoFamilyHasNul(b.eventType);
    var x := [a.sessionId, EventFamily(a.eventType), canonical(a.projectRoot, a.path), canonical(a.projectRoot, a.previousPath)];
    var y := [b.sessionId, EventFamily(b.eventType), canonical(b.projectRoot, b.path), canonical(b.projectRoot, b.previousPath)];
    if JoinNul(x) == JoinNul(y) {
      JoinNulInjective(x, y);
      assert x[0] == y[0] && x[1] == y[1] && x[2] == y[2] && x[3] == y[3];
    }
  }

  predicate IsFallback(e: Event) {
    e.source.Filesystem? || e.source.Git?
  }

  // ----- the gate as a function of its inputs -----

  /** What the gate is handed: an event with its key, a tick of its timer, or the final drain. */
  datatype Input = Arrives(event: Event, key: string) | Tick | Drain

  datatype Timed = Timed(input: Input, now: Time)

  /** id is the position of the event among the inputs. */
  datatype Waiting = Waiting(event: Event, id: nat, expires: Time)

  /** An event handed on: which input it came with, and which input handed it on. */
  datatype Emission = Emission(event: Event, id: nat, step: nat)

  datatype Fate = IsWaiting | WasEmitted | Suppressed | Superseded | OverCapacity

  datatype Gate = Gate(
    window: int,
    capacity: nat,
    pending: map<string, Waiting>,
    recentStrong: map<string, Time>,
    out: seq<Emission>,
    fates: map<nat, Fate>)

  predicate Suppresses(g: Gate, key: string, now: Time) {
    key in g.recentStrong && now - g.recentStrong[key] <= g.window
  }

  predicate Full(g: Gate, key: string) {
    |g.pending| >= g.capacity && key !in g.pending
  }

  /** The fates once whatever waits under the key no longer does. */
  function Displaced(g: Gate, key: string): map<nat, Fate> {
    if key in g.pending then g.fates[g.pending[key].id := Superseded] else g.fates
  }

  function Arrive(g: Gate, e: Event, key: string, id: nat, now: Time): Gate {
    if key == "" then g.(out := g.out + [Emission(e, id, id)])
    else if IsFallback(e) then
      if Suppresses(g, key, now) then g.(fates := g.fates[id := Suppressed])
      else if Full(g, key) then g.(fates := g.fates[id := OverCapacity])
      else g.(pending := g.pending[key := Waiting(e, id, now + g.window)], fates := Displaced(g, key)[id := IsWaiting])
    else
      g.(pending := g.pending - {key}, recentStrong := g.recentStrong[key := now],
         out := g.out + [Emission(e, id, id)], fates := Displaced(g, key))
  }

  function Due(g: Gate, now: Time, all: bool): set<string> {
    set key | key in g.pending && (all || g.pending[key].expires <= now)
  }

  function Emissions(g: Gate, keys: seq<string>, step: nat): seq<Emission>
    requires forall k :: k in keys ==> k in g.pending
  {
    seq(|keys|, i requires 0 <= i < |keys| => Emission(g.pending[keys[i]].event, g.pending[keys[i]].id, step))
  }

  function EmitKeys(g: Gate, keys: seq<string>, step: nat): Gate
    requires forall k :: k in keys ==> k in g.pending
  {
    var ids := set k | k in keys :: g.pending[k].id;
    g.(pending := g.pending - Elements(keys), out := g.out + Emissions(g, keys, step), fates := g.fates + map id | id in ids :: WasEmitted)
  }

  /** The keys in the order sortStrings leaves them. */
  ghost function SortedKeys(keys: set<string>): (s: seq<string>)
    ensures SortedBy(StringLess, s) && Elements(s) == keys && Distinct(s)
  {
    if keys == {} then []
    else
      var key :| key in keys;
      var rest := SortedKeys(keys - {key});
      InsertKey(key, rest);
      Insert(StringLess, key, rest)
  }

  lemma InsertKey(key: string, rest: seq<string>)
    requires SortedBy(StringLess, rest) && key !in Elements(rest)
    ensures var s := Insert(StringLess, key, rest);
            SortedBy(StringLess, s) && Elements(s) == Elements(rest) + {key} && Distinct(s)
  {
    StringLessOrders(Elements(rest) + {key});
    InsertSorted(StringLess, key, rest);
    InsertMultiset(StringLess, key, rest);
    assert multiset(Insert(StringLess, key, rest)) == multiset([key] + rest);
    SameMultiset(Insert(StringLess, key, rest), [key] + rest);
    StringSortedDistinct(Insert(StringLess, key, rest));
  }

  lemma StringSortedDistinct(s: seq<string>)
    requires SortedBy(StringLess, s)
    ensures Distinct(s)
  {
    forall i, j | 0 <= i < j < |s| ensures s[i] != s[j] {
      StringLessIrreflexive(s[i]);
    }
  }

  ghost function Flush(g: Gate, now: Time, all: bool, step: nat): Gate {
    assert forall k :: k in SortedKeys(Due(g, now, all)) ==> k in Elements(SortedKeys(Due(g, now, all)));
    EmitKeys(g, SortedKeys(Due(g, now, all)), step)
  }

  function Prune(g: Gate, now: Time): Gate {
    g.(recentStrong := map key | key in g.recentStrong && now - g.recentStrong[key] <= 2 * g.window :: g.recentStrong[key])
  }

  ghost function Step(g: Gate, t: Timed, id: nat): Gate {
    match t.input
    case Arrives(e, key) => Arrive(g, e, key, id, t.now)
    case Tick => Prune(Flush(g, t.now, false, id), t.now)
    case Drain => Flush(g, t.now, true, id)
  }

  ghost function After(window: int, capacity: nat, trace: seq<Timed>, n: nat): Gate
    requires n <= |trace|
  {
    if n == 0 then Gate(window, capacity, map[], map[], [], map[])
    else Step(After(window, capacity, trace, n - 1), trace[n - 1], n - 1)
  }

  // ----- families and sources, told by name -----

  predicate InFamily(t: EventType) {
    t in {FileModified, FilePatched, FileCreated, FileDeleted, FileRenamed, FileMoved, DirectoryCreated, DirectoryDeleted, DirectoryRenamed}
  }

  /** Types that may be evidence for one and the same change. */
  predicate OneFamily(a: EventType, b: EventType) {
    || (a == b && InFamily(a))
    || (a in {FileModified, FilePatched} && b in {FileModified, FilePatched})
    || (a in {FileRenamed, FileMoved} && b in {FileRenamed, FileMoved})
  }

  lemma FamilyIff(a: EventType, b: EventType)
    ensures EventFamily(a) != "" <==> InFamily(a)
    ensures EventFamily(a) == EventFamily(b) != "" <==> OneFamily(a, b)
  {
    hide EventFamily;
    FamilyNames(a);
    FamilyNames(b);
  }

  /** Length and one letter tell the families apart. */
  lemma FamilyNames(t: EventType)
    ensures var name := EventFamily(t);
            && (InFamily(t) || name == "")
            && (t in {FileModified, FilePatched} ==> name == EventFamily(FileModified) && |name| == 10)
            && (t in {FileRenamed, FileMoved} ==> name == EventFamily(FileMoved) && |name| == 9)
            && (t == FileCreated ==> |name| == 11 && name[5] == 'c') && (t == FileDeleted ==> |name| == 11 && name[5] == 'd')
            && (t == DirectoryCreated ==> |name| == 16 && name[10] == 'c') && (t == DirectoryDeleted ==> |name| == 16 && name[10] == 'd')
            && (t == DirectoryRenamed ==> |name| == 14)
  {
  }

  /** An event has a key exactly when its type is in a family and it names a path; only file system and Git events wait. */
  lemma WhatWaits(e: Event, canonical: (string, string) -> string)
    ensures EvidenceKey(e, canonical) != "" <==> InFamily(e.eventType) && e.path != ""
    ensures IsFallback(e) <==> e.source == Filesystem || e.source == Git
  {
    FamilyIff(e.eventType, e.eventType);
    if EventFamily(e.eventType) != "" && e.path != "" {
      KeyIsNotEmpty([e.sessionId, EventFamily(e.eventType), canonical(e.projectRoot, e.path), canonical(e.projectRoot, e.previousPath)]);
    }
  }

  lemma KeyIsNotEmpty(parts: seq<string>)
    requires 1 < |parts|
    ensures JoinNul(parts) != ""
  {
    assert JoinNul(parts) == parts[0] + [NUL_CHAR] + JoinNul(parts[1..]);
  }
}
