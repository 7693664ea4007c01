/** The sequence-gap protocol of adapter/go/wrapper/stream.go. */
module StreamTap {
  import opened Common

  datatype Stream = Stdout | Stderr

  datatype Chunk = Chunk(stream: Stream, data: seq<Byte>, sequence: nat, droppedBefore: bool, eof: bool)

  const MAX_CHUNK: nat := 32768

  // ----- the consumer -----

  /** Is the chunk out of step with the last sequence seen (zero for none)? */
  predicate Gap(last: nat, sequence: nat) {
    (last != 0 && sequence != last + 1) || (last == 0 && sequence > 1)
  }

  function LastSeen(taken: seq<Chunk>): nat {
    if taken == [] then 0 else taken[|taken| - 1].sequence
  }

  /** What run hands to the parser: the chunks with their flags, then the two end markers. */
  function Parsed(taken: seq<Chunk>): seq<Chunk> {
    seq(|taken|, i requires 0 <= i < |taken| => taken[i].(droppedBefore := Gap(LastSeen(taken[..i]), taken[i].sequence)))
  }

  function EndMarkers(taken: seq<Chunk>, final: nat): seq<Chunk> {
    [Chunk(Stdout, [], final + 1, final != LastSeen(taken), true), Chunk(Stderr, [], final + 2, false, true)]
  }

  method Run(queue: seq<Chunk>, final: nat) returns (parsed: seq<Chunk>)
    ensures parsed == Parsed(queue) + EndMarkers(queue, final)
    ensures |parsed| == |queue| + 2 && forall k :: 0 <= k < |queue| ==> parsed[k].(droppedBefore := queue[k].droppedBefore) == queue[k]
    ensures parsed[|queue|].stream == Stdout && parsed[|queue|].eof && parsed[|queue|].data == [] && parsed[|queue|].sequence == final + 1
    ensures parsed[|queue| + 1] == Chunk(Stderr, [], final + 2, false, true)
  {
    parsed := [];
    var last := 0;
    for i := 0 to |queue|
      invariant |parsed| == i && last == LastSeen(queue[..i])
      invariant forall k :: 0 <= k < i ==> parsed[k] == Parsed(queue)[k]
    {
      var chunk := queue[i].(droppedBefore := last != 0 && queue[i].sequence != last + 1);
      if last == 0 && chunk.sequence > 1 {
        chunk := chunk.(droppedBefore := true);
      }
      last := chunk.sequence;
      assert queue[..i + 1][i] == queue[i];
      parsed := parsed + [chunk];
    }
    assert queue[..|queue|] == queue;
    assert parsed == Parsed(queue);
    var dropped := final != last;
    parsed := parsed + [Chunk(Stdout, [], final + 1, dropped, true)];
    parsed := parsed + [Chunk(Stderr, [], final + 2, false, true)];
  }

  ghost predicate NothingFlagged(parsed: seq<Chunk>) {
    forall k :: 0 <= k < |parsed| ==> !parsed[k].droppedBefore
  }

  /** Chunks 1 to n, in order. */
  ghost predicate IsComplete(taken: seq<Chunk>, n: nat) {
    |taken| == n && forall k :: 0 <= k < n ==> taken[k].sequence == k + 1
  }

  lemma {:induction false} UnflaggedPrefix(taken: seq<Chunk>, n: nat)
    requires n <= |taken| && NothingFlagged(Parsed(taken)) && forall k :: 0 <= k < |taken| ==> 0 < taken[k].sequence
    ensures forall k :: 0 <= k < n ==> taken[k].sequence == k + 1
  {
    if n > 0 {
      UnflaggedPrefix(taken, n - 1);
      assert !Parsed(taken)[n - 1].droppedBefore;
      assert n > 1 ==> taken[..n - 1][n - 2] == taken[n - 2];
    }
  }

  /**
   However chunks of several writers were numbered, dropped and interleaved: nothing the parser
   gets is flagged exactly when it gets chunks 1 to N in order.
   */
  lemma UnflaggedIffComplete(taken: seq<Chunk>, final: nat)
    requires forall k :: 0 <= k < |taken| ==> 0 < taken[k].sequence
    ensures NothingFlagged(Parsed(taken) + EndMarkers(taken, final)) <==> IsComplete(taken, final)
  {
    var all := Parsed(taken) + EndMarkers(taken, final);
    if NothingFlagged(all) {
      forall k | 0 <= k < |taken| ensures !Parsed(taken)[k].droppedBefore {
        assert all[k] == Parsed(taken)[k];
      }
      UnflaggedPrefix(taken, |taken|);
      assert !all[|taken|].droppedBefore;
    }
    if IsComplete(taken, final) {
      forall k | 0 <= k < |all| ensures !all[k].droppedBefore {
        if k < |taken| {
          assert k > 0 ==> taken[..k][k - 1].sequence == k;
        }
      }
    }
  }

  // ----- one writer -----

  function Bytes(chunks: seq<Chunk>): seq<Byte> {
    if chunks == [] then [] else Bytes(chunks[..|chunks| - 1]) + chunks[|chunks| - 1].data
  }

  /** The chunks that found room in the queue; room answers by sequence number. */
  function Delivered(log: seq<Chunk>, room: nat -> bool): seq<Chunk> {
    if log == [] then []
    else
      var rest, last := Delivered(log[..|log| - 1], room), log[|log| - 1];
      if room(last.sequence) then rest + [last] else rest
  }

  ghost predicate Numbered(log: seq<Chunk>) {
    forall k :: 0 <= k < |log| ==>
      log[k].sequence == k + 1 && 0 < |log[k].data| <= 32768 && !log[k].droppedBefore && !log[k].eof
  }

  class Tap {
    const room: nat -> bool
    var sequence: nat
    var queue: seq<Chunk>
    ghost var log: seq<Chunk>

    ghost predicate Valid()
      reads this
    {
      Numbered(log) && sequence == |log| && queue == Delivered(log, room)
    }

    constructor (room: nat -> bool)
      ensures Valid() && log == [] && this.room == room
    {
      this.room := room;
      sequence, queue, log := 0, [], [];
    }

    method Push(stream: Stream, piece: seq<Byte>)
      requires Valid() && 0 < |piece| <= MAX_CHUNK
      modifies this
      ensures Valid() && log == old(log) + [Chunk(stream, piece, |old(log)| + 1, false, false)]
    {
      sequence := sequence + 1;
      var chunk := Chunk(stream, piece, sequence, false, false);
      DeliveredSnoc(log, chunk, room);
      if room(sequence) {
        queue := queue + [chunk];
      }
      log := log + [chunk];
    }

    /** Splits what was written into numbered chunks and queues those that find room. */
    method Offer(stream: Stream, data: seq<Byte>)
      requires Valid()
      modifies this
      ensures Valid() && old(log) <= log
      ensures Bytes(log) == old(Bytes(log)) + data
      ensures forall k :: |old(log)| <= k < |log| ==> log[k].stream == stream
    {
      hide Numbered, Delivered;
      var rest := data;
      ghost var start, sent := log, [];
      assert Bytes(start) + [] == Bytes(start);
      while |rest| > 0
        invariant Valid() && start <= log
        invariant sent + rest == data
        invariant Bytes(log) == Bytes(start) + sent
        invariant forall k :: |start| <= k < |log| ==> log[k].stream == stream
      {
        var size := Min(|rest|, MAX_CHUNK);
        ghost var before := log;
        Push(stream, rest[..size]);
        BytesSnoc(before, log[|before|]);
        assert Bytes(start) + (sent + rest[..size]) == Bytes(start) + sent + rest[..size];
        sent := sent + rest[..size];
        rest := rest[size..];
      }
      assert sent == data;
    }
  }

  lemma DeliveredSnoc(log: seq<Chunk>, chunk: Chunk, room: nat -> bool)
    ensures Delivered(log + [chunk], room) == if room(chunk.sequence) then Delivered(log, room) + [chunk] else Delivered(log, room)
  {
    assert (log + [chunk])[..|log|] == log;
  }

  lemma BytesSnoc(log: seq<Chunk>, chunk: Chunk)
    ensures Bytes(log + [chunk]) == Bytes(log) + chunk.data
  {
    assert (log + [chunk])[..|log|] == log;
  }

  /** A rising selection of the log's chunks, all with room. */
  ghost predicate SelectedFrom(d: seq<Chunk>, log: seq<Chunk>, room: nat -> bool) {
    && (forall k :: 0 <= k < |d| ==> 1 <= d[k].sequence <= |log| && room(d[k].sequence) && d[k] == log[d[k].sequence - 1])
    && Rising(d)
  }

  ghost predicate Rising(d: seq<Chunk>) {
    forall k :: 0 <= k < |d| - 1 ==> d[k].sequence < d[k + 1].sequence
  }

  lemma {:induction false} DeliveredNumbers(log: seq<Chunk>, room: nat -> bool)
    requires Numbered(log)
    ensures SelectedFrom(Delivered(log, room), log, room)
  {
    if log != [] {
      var front := log[..|log| - 1];
      DeliveredNumbers(front, room);
      assert log == front + [log[|log| - 1]];
      DeliveredSnoc(front, log[|log| - 1], room);
    }
  }

  /** A sequence number with room is delivered somewhere. */
  lemma {:induction false} DeliveredCovers(log: seq<Chunk>, room: nat -> bool, n: nat) returns (k: nat)
    requires Numbered(log) && 1 <= n <= |log| && room(n)
    ensures k < |Delivered(log, room)| && Delivered(log, room)[k].sequence == n
  {
    if n == |log| {
      k := |Delivered(log, room)| - 1;
    } else {
      k := DeliveredCovers(log[..|log| - 1], room, n);
    }
  }

  lemma {:induction false} IncreasingSequences(d: seq<Chunk>, i: nat, j: nat)
    requires Rising(d) && i < j < |d|
    ensures d[i].sequence < d[j].sequence
  {
    if i + 1 < j {
      IncreasingSequences(d, i, j - 1);
    }
    assert d[j - 1].sequence < d[j - 1 + 1].sequence;
  }

  lemma LastSeenBefore(d: seq<Chunk>, i: nat)
    requires Rising(d) && i < |d| && 0 < d[i].sequence
    ensures LastSeen(d[..i]) == (if i == 0 then 0 else d[i - 1].sequence) && LastSeen(d[..i]) < d[i].sequence
  {
    assert i > 0 ==> d[i - 1].sequence < d[i - 1 + 1].sequence;
  }

  /** A gap before a delivered chunk starts with a dropped one. */
  lemma GapStartsDropped(log: seq<Chunk>, room: nat -> bool, i: nat)
    requires Numbered(log) && i < |Delivered(log, room)|
    requires LastSeen(Delivered(log, room)[..i]) + 1 < Delivered(log, room)[i].sequence
    ensures !room(LastSeen(Delivered(log, room)[..i]) + 1)
  {
    hide Delivered, Numbered, LastSeen;
    var d := Delivered(log, room);
    DeliveredNumbers(log, room);
    LastSeenBefore(d, i);
    var n := LastSeen(d[..i]) + 1;
    if room(n) {
      var k := DeliveredCovers(log, room, n);
      if k < i - 1 {
        IncreasingSequences(d, k, i - 1);
      } else if i < k {
        IncreasingSequences(d, i, k);
      }
    }
  }

  /** With one writer a chunk is flagged exactly when some chunk since the one delivered before it was dropped. */
  lemma FlagIffDropped(log: seq<Chunk>, room: nat -> bool, i: nat)
    requires Numbered(log) && i < |Delivered(log, room)|
    ensures var d := Delivered(log, room);
            Parsed(d)[i].droppedBefore <==> exists n: nat :: LastSeen(d[..i]) < n < d[i].sequence && !room(n)
  {
    hide Delivered, Numbered, LastSeen;
    var d := Delivered(log, room);
    DeliveredNumbers(log, room);
    LastSeenBefore(d, i);
    var last := LastSeen(d[..i]);
    if last + 1 < d[i].sequence {
      GapStartsDropped(log, room, i);
      assert last < last + 1 < d[i].sequence && !room(last + 1);
    }
  }

  /** The end marker is flagged exactly when some chunk after the last delivered one was dropped. */
  lemma EndFlagIffDropped(log: seq<Chunk>, room: nat -> bool)
    requires Numbered(log)
    ensures var d := Delivered(log, room);
            EndMarkers(d, |log|)[0].droppedBefore <==> exists n: nat :: LastSeen(d) < n <= |log| && !room(n)
  {
    hide Delivered, Numbered, LastSeen;
    DeliveredNumbers(log, room);
    LastWithRoom(log, room);
    LastSeenInLog(log, room, Delivered(log, room));
    if LastSeen(Delivered(log, room)) < |log| {
      assert LastSeen(Delivered(log, room)) < |log| <= |log| && !room(|log|);
    }
  }

  lemma LastWithRoom(log: seq<Chunk>, room: nat -> bool)
    requires Numbered(log)
    ensures |log| > 0 && room(|log|) ==> LastSeen(Delivered(log, room)) == |log|
  {
  }

  lemma LastSeenInLog(log: seq<Chunk>, room: nat -> bool, d: seq<Chunk>)
    requires SelectedFrom(d, log, room)
    ensures LastSeen(d) <= |log|
  {
  }

  /** When nothing is flagged, the parser got every byte that was written, in order. */
  lemma UnflaggedMeansEveryByte(log: seq<Chunk>, room: nat -> bool)
    requires Numbered(log) && NothingFlagged(Parsed(Delivered(log, room)) + EndMarkers(Delivered(log, room), |log|))
    ensures Bytes(Delivered(log, room)) == Bytes(log)
  {
    hide Numbered, Delivered, NothingFlagged, Parsed, EndMarkers, Bytes;
    DeliveredNumbers(log, room);
    var d := Delivered(log, room);
    UnflaggedIffComplete(d, |log|);
    CompleteIsAll(log, room, d);
  }

  lemma CompleteIsAll(log: seq<Chunk>, room: nat -> bool, d: seq<Chunk>)
    requires SelectedFrom(d, log, room) && IsComplete(d, |log|)
    ensures d == log
  {
    assert forall k :: 0 <= k < |log| ==> d[k] == log[k];
  }
}
