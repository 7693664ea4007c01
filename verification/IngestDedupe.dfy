/** Duplicate suppression with pruning: internal/ingest/dedupe.go against the full history. */
module IngestDedupe {
  import opened Common
  import opened Protocol

  /** typeName spells an event type; the key of an event without an ID joins four fields with NUL. */
  function DedupeKey(e: Event, typeName: EventType -> string): string {
    if e.eventId != "" then e.eventId else JoinNul([typeName(e.eventType), e.sessionId, e.path, e.correlationId])
  }

  predicate NulFree(e: Event) {
    NUL_CHAR !in e.eventId && NUL_CHAR !in e.sessionId && NUL_CHAR !in e.path && NUL_CHAR !in e.correlationId
  }

  lemma JoinHasNul(a: string, b: string, rest: seq<string>)
    ensures NUL_CHAR in JoinNul([a, b] + rest)
  {
    var parts := [a, b] + rest;
    assert JoinNul(parts) == parts[0] + [NUL_CHAR] + JoinNul(parts[1..]);
  }

  /** Two events share a key exactly when they share an ID, or have none and share all four fields. */
  lemma SameKeyIff(a: Event, b: Event, typeName: EventType -> string)
    requires NulFree(a) && NulFree(b)
    requires forall t :: NUL_CHAR !in typeName(t)
    requires forall t, u :: typeName(t) == typeName(u) ==> t == u
    ensures DedupeKey(a, typeName) == DedupeKey(b, typeName) <==>
            if a.eventId != "" || b.eventId != "" then a.eventId == b.eventId
            else a.eventType == b.eventType && a.sessionId == b.sessionId && a.path == b.path && a.correlationId == b.correlationId
  {
    var x := [typeName(a.eventType), a.sessionId, a.path, a.correlationId];
    var y := [typeName(b.eventType), b.sessionId, b.path, b.correlationId];
    JoinHasNul(x[0], x[1], x[2..]);
    JoinHasNul(y[0], y[1], y[2..]);
    assert x == [x[0], x[1]] + x[2..] && y == [y[0], y[1]] + y[2..];
    if a.eventId == "" && b.eventId == "" && JoinNul(x) == JoinNul(y) {
      JoinNulInjective(x, y);
      assert x[0] == y[0] && x[1] == y[1] && x[2] == y[2] && x[3] == y[3];
    }
  }

  datatype Seen = Seen(seen: map<string, Time>, duplicate: bool)

  predicate IsDuplicate(seen: map<string, Time>, key: string, now: Time, window: int) {
    key in seen && now - seen[key] <= window
  }

  function Check(seen: map<string, Time>, key: string, now: Time, window: int): Seen {
    if IsDuplicate(seen, key, now, window) then Seen(seen, true)
    else
      var added := seen[key := now];
      Seen(map k | k in added && now - added[k] <= window * 2 :: added[k], false)
  }

  class Deduper {
    const window: int
    var seen: map<string, Time>

    constructor (window: int)
      ensures this.window == window && seen == map[]
    {
      this.window := window;
      seen := map[];
    }

    method Duplicate(e: Event, now: Time, typeName: EventType -> string) returns (duplicate: bool)
      modifies this
      ensures Seen(seen, duplicate) == Check(old(seen), DedupeKey(e, typeName), now, window)
    {
      var key := e.eventId;
      if key == "" {
        key := JoinNul([typeName(e.eventType), e.sessionId, e.path, e.correlationId]);
      }
      if key in seen && now - seen[key] <= window {
        return true;
      }
      seen := seen[key := now];
      ghost var added := seen;
      var todo := seen.Keys;
      while todo != {}
        invariant todo <= seen.Keys <= added.Keys
        invariant forall k :: k in seen ==> seen[k] == added[k]
        invariant forall k :: k in added ==> (k in seen <==> k in todo || now - added[k] <= window * 2)
      {
        var candidate :| candidate in todo;
        if now - seen[candidate] > window * 2 {
          seen := seen - {candidate};
        }
        todo := todo - {candidate};
      }
      assert seen == Check(old(seen), key, now, window).seen;
      return false;
    }
  }

  // ----- against the full history -----

  datatype Call = Call(key: string, now: Time)

  /** The table after the first n calls, and the answers given. */
  function After(calls: seq<Call>, n: nat, window: int): map<string, Time>
    requires n <= |calls|
  {
    if n == 0 then map[] else Check(After(calls, n - 1, window), calls[n - 1].key, calls[n - 1].now, window).seen
  }

  predicate Accepted(calls: seq<Call>, i: nat, window: int)
    requires i < |calls|
  {
    !Check(After(calls, i, window), calls[i].key, calls[i].now, window).duplicate
  }

  ghost predicate Monotone(calls: seq<Call>) {
    forall i, j :: 0 <= i <= j < |calls| ==> calls[i].now <= calls[j].now
  }

  /** Some earlier accepted call with the key lies within the window. */
  ghost predicate InHistory(calls: seq<Call>, n: nat, key: string, now: Time, window: int)
    requires n <= |calls|
  {
    exists i :: 0 <= i < n && Accepted(calls, i, window) && calls[i].key == key && now - calls[i].now <= window
  }

  /** The table holds the last acceptance of each key, unless that lies more than two windows back. */
  ghost predicate TableOk(calls: seq<Call>, n: nat, window: int, key: string)
    requires n <= |calls|
  {
    var table := After(calls, n, window);
    && (key in table ==> exists i :: 0 <= i < n && Accepted(calls, i, window) && calls[i].key == key && calls[i].now == table[key])
    && (forall i :: 0 <= i < n && Accepted(calls, i, window) && calls[i].key == key ==>
          if key in table then calls[i].now <= table[key] else calls[n - 1].now - calls[i].now > 2 * window)
  }

  lemma CheckTable(seen: map<string, Time>, call: Call, window: int, key: string)
    requires 0 <= window
    ensures var r := Check(seen, call.key, call.now, window);
            && (r.duplicate ==> r.seen == seen)
            && (!r.duplicate && key == call.key ==> key in r.seen && r.seen[key] == call.now)
            && (!r.duplicate && key != call.key ==>
                 (key in r.seen <==> key in seen && call.now - seen[key] <= 2 * window) && (key in r.seen ==> r.seen[key] == seen[key]))
  {
  }

  lemma {:induction false} TableStays(calls: seq<Call>, n: nat, window: int, key: string)
    requires 0 <= window && n <= |calls| && Monotone(calls)
    ensures TableOk(calls, n, window, key)
  {
    hide Check;
    if n > 0 {
      TableStays(calls, n - 1, window, key);
      TableStep(calls, n, window, key);
    }
  }

  lemma TableStep(calls: seq<Call>, n: nat, window: int, key: string)
    requires 0 <= window && 0 < n <= |calls| && Monotone(calls) && TableOk(calls, n - 1, window, key)
    ensures TableOk(calls, n, window, key)
  {
    hide Check;
    var before := After(calls, n - 1, window);
    var call := calls[n - 1];
    CheckTable(before, call, window, key);
    var table := After(calls, n, window);
    assert table == Check(before, call.key, call.now, window).seen;
    assert n > 1 ==> calls[n - 2].now <= call.now;
    if key in table && !(Accepted(calls, n - 1, window) && key == call.key) {
      var i :| 0 <= i < n - 1 && Accepted(calls, i, window) && calls[i].key == key && calls[i].now == before[key];
      assert calls[i].now == table[key];
    }
    forall i | 0 <= i < n && Accepted(calls, i, window) && calls[i].key == key
      ensures if key in table then calls[i].now <= table[key] else calls[n - 1].now - calls[i].now > 2 * window
    {
      assert calls[i].now <= call.now;
    }
  }

  /** With a clock that never runs back, pruning is invisible: an answer is "duplicate" exactly when the history says so. */
  lemma DuplicateIffInHistory(calls: seq<Call>, n: nat, key: string, now: Time, window: int)
    requires 0 <= window && n <= |calls| && Monotone(calls) && (n > 0 ==> calls[n - 1].now <= now)
    ensures IsDuplicate(After(calls, n, window), key, now, window) <==> InHistory(calls, n, key, now, window)
  {
    TableStays(calls, n, window, key);
    var table := After(calls, n, window);
    if IsDuplicate(table, key, now, window) {
      var i :| 0 <= i < n && Accepted(calls, i, window) && calls[i].key == key && calls[i].now == table[key];
    }
  }

  /** Accepted events with one key are more than a window apart. */
  lemma AcceptedAreApart(calls: seq<Call>, i: nat, j: nat, window: int)
    requires 0 <= window && i < j < |calls| && Monotone(calls)
    requires Accepted(calls, i, window) && Accepted(calls, j, window) && calls[i].key == calls[j].key
    ensures calls[j].now - calls[i].now > window
  {
    DuplicateIffInHistory(calls, j, calls[j].key, calls[j].now, window);
    assert calls[j - 1].now <= calls[j].now;
  }
}
