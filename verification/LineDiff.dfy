/**
 Line counting of internal/diff/pipeline.go.

 Lcs is the recurrence behind the rolling two-row table of countSnapshots; the lemmas
 say what it means: the length of a longest common subsequence, and hence the cost of
 a cheapest edit script.
 */
module LineDiff {
  import opened Common
  import opened Pieces

  // ----- common subsequences -----

  /** The positions idx, in increasing order, pick c out of a. */
  ghost predicate Embeds<T>(c: seq<T>, a: seq<T>, idx: seq<nat>) {
    && |idx| == |c|
    && (forall k :: 0 <= k < |idx| ==> idx[k] < |a| && a[idx[k]] == c[k])
    && (forall k, l :: 0 <= k < l < |idx| ==> idx[k] < idx[l])
  }

  ghost predicate IsSubsequence<T(!new)>(c: seq<T>, a: seq<T>) {
    exists idx :: Embeds(c, a, idx)
  }

  ghost predicate IsCommon<T(!new)>(c: seq<T>, a: seq<T>, b: seq<T>) {
    IsSubsequence(c, a) && IsSubsequence(c, b)
  }

  function Front<T>(s: seq<T>): seq<T>
    requires s != []
  {
    s[..|s| - 1]
  }

  function Last<T>(s: seq<T>): T
    requires s != []
  {
    s[|s| - 1]
  }

  function Lcs<T(==)>(a: seq<T>, b: seq<T>): nat
    decreases |a| + |b|
  {
    if a == [] || b == [] then 0
    else if Last(a) == Last(b) then Lcs(Front(a), Front(b)) + 1
    else Max(Lcs(a, Front(b)), Lcs(Front(a), b))
  }

  lemma EmbedsPrefix<T>(c: seq<T>, a: seq<T>, idx: seq<nat>, n: nat)
    requires Embeds(c, a, idx) && n <= |a|
    requires c != [] ==> Last(idx) < n
    ensures Embeds(c, a[..n], idx)
  {
    forall k | 0 <= k < |idx| ensures idx[k] < n && a[..n][idx[k]] == c[k] {
      assert k < |idx| - 1 ==> idx[k] < idx[|idx| - 1];
    }
  }

  lemma EmbedsDropLast<T>(c: seq<T>, a: seq<T>, idx: seq<nat>)
    requires c != [] && a != [] && Embeds(c, a, idx)
    ensures Embeds(Front(c), Front(a), Front(idx))
  {
    forall k | 0 <= k < |idx| - 1 ensures idx[k] < |a| - 1 {
      assert idx[k] < idx[|idx| - 1];
    }
  }

  /** Nothing common to both is longer than Lcs. */
  lemma {:induction false} LcsIsUpperBound<T(!new)>(c: seq<T>, a: seq<T>, b: seq<T>)
    requires IsCommon(c, a, b)
    ensures |c| <= Lcs(a, b)
    decreases |a| + |b|
  {
    var ia: seq<nat> :| Embeds(c, a, ia);
    var ib: seq<nat> :| Embeds(c, b, ib);
    if c != [] {
      assert ia[0] < |a| && ib[0] < |b|;
      if Last(a) == Last(b) {
        EmbedsDropLast(c, a, ia);
        EmbedsDropLast(c, b, ib);
        LcsIsUpperBound(Front(c), Front(a), Front(b));
      } else if Last(ia) < |a| - 1 {
        EmbedsPrefix(c, a, ia, |a| - 1);
        LcsIsUpperBound(c, Front(a), b);
      } else {
        assert Last(c) == Last(a) && Last(ib) < |b| - 1;
        EmbedsPrefix(c, b, ib, |b| - 1);
        LcsIsUpperBound(c, a, Front(b));
      }
    }
  }

  lemma SubsequenceOfFront<T(!new)>(c: seq<T>, a: seq<T>)
    requires a != [] && IsSubsequence(c, Front(a))
    ensures IsSubsequence(c, a)
  {
    var idx: seq<nat> :| Embeds(c, Front(a), idx);
    assert Embeds(c, a, idx);
  }

  lemma SubsequenceSnoc<T(!new)>(c: seq<T>, a: seq<T>)
    requires a != [] && IsSubsequence(c, Front(a))
    ensures IsSubsequence(c + [Last(a)], a)
  {
    var idx: seq<nat> :| Embeds(c, Front(a), idx);
    var longer: seq<nat> := idx + [|a| - 1];
    assert Embeds(c + [Last(a)], a, longer);
  }

  /** Some common subsequence is exactly Lcs long. */
  lemma {:induction false} LcsIsAttained<T(!new)>(a: seq<T>, b: seq<T>) returns (c: seq<T>)
    ensures IsCommon(c, a, b) && |c| == Lcs(a, b)
    decreases |a| + |b|
  {
    if a == [] || b == [] {
      c := [];
      assert Embeds(c, a, []) && Embeds(c, b, []);
    } else if Last(a) == Last(b) {
      c := LcsIsAttained(Front(a), Front(b));
      SubsequenceSnoc(c, a);
      SubsequenceSnoc(c, b);
      c := c + [Last(a)];
    } else if Lcs(a, Front(b)) < Lcs(Front(a), b) {
      c := LcsIsAttained(Front(a), b);
      SubsequenceOfFront(c, a);
    } else {
      c := LcsIsAttained(a, Front(b));
      SubsequenceOfFront(c, b);
    }
  }

  lemma LcsSymmetric<T(!new)>(a: seq<T>, b: seq<T>)
    ensures Lcs(a, b) == Lcs(b, a)
  {
    var c := LcsIsAttained(a, b);
    LcsIsUpperBound(c, b, a);
    var d := LcsIsAttained(b, a);
    LcsIsUpperBound(d, a, b);
  }

  lemma {:induction false} EmbedsAtLeast<T>(c: seq<T>, a: seq<T>, idx: seq<nat>, k: nat)
    requires Embeds(c, a, idx) && k < |c|
    ensures k <= idx[k]
  {
    if k > 0 {
      EmbedsAtLeast(c, a, idx, k - 1);
      assert idx[k - 1] < idx[k];
    }
  }

  lemma SubsequenceIsNoLonger<T(!new)>(c: seq<T>, a: seq<T>)
    requires IsSubsequence(c, a)
    ensures |c| <= |a|
    ensures |c| == |a| ==> c == a
  {
    var idx: seq<nat> :| Embeds(c, a, idx);
    if c != [] {
      EmbedsAtLeast(c, a, idx, |c| - 1);
    }
    if |c| == |a| {
      forall k | 0 <= k < |c| ensures c[k] == a[k] {
        FullEmbeddingIsIdentity(c, a, idx, k);
      }
    }
  }

  lemma {:induction false} FullEmbeddingIsIdentity<T>(c: seq<T>, a: seq<T>, idx: seq<nat>, k: nat)
    requires Embeds(c, a, idx) && |c| == |a| && k < |c|
    ensures idx[k] == k
    decreases |c| - k
  {
    EmbedsAtLeast(c, a, idx, k);
    if k + 1 < |c| {
      FullEmbeddingIsIdentity(c, a, idx, k + 1);
      assert idx[k] < idx[k + 1];
    }
  }

  lemma {:induction false} LcsOfSame<T>(a: seq<T>)
    ensures Lcs(a, a) == |a|
  {
    if a != [] {
      LcsOfSame(Front(a));
    }
  }

  lemma LcsBounds<T(!new)>(a: seq<T>, b: seq<T>)
    ensures Lcs(a, b) <= |a| && Lcs(a, b) <= |b|
    ensures (Lcs(a, b) == |a| == |b|) <==> a == b
  {
    var c := LcsIsAttained(a, b);
    SubsequenceIsNoLonger(c, a);
    SubsequenceIsNoLonger(c, b);
    if a == b {
      LcsOfSame(a);
    }
  }

  // ----- edit scripts -----

  datatype Edit<T> = Keep(line: T) | Delete(line: T) | Insert(line: T)

  function Source<T>(script: seq<Edit<T>>): seq<T> {
    if script == [] then []
    else Source(Front(script)) + (if Last(script).Insert? then [] else [Last(script).line])
  }

  function Target<T>(script: seq<Edit<T>>): seq<T> {
    if script == [] then []
    else Target(Front(script)) + (if Last(script).Delete? then [] else [Last(script).line])
  }

  function Kept<T>(script: seq<Edit<T>>): seq<T> {
    if script == [] then []
    else Kept(Front(script)) + (if Last(script).Keep? then [Last(script).line] else [])
  }

  function Inserts<T>(script: seq<Edit<T>>): nat {
    if script == [] then 0 else Inserts(Front(script)) + if Last(script).Insert? then 1 else 0
  }

  function Deletes<T>(script: seq<Edit<T>>): nat {
    if script == [] then 0 else Deletes(Front(script)) + if Last(script).Delete? then 1 else 0
  }

  /** The script turns the lines a into the lines b. */
  ghost predicate Transforms<T>(script: seq<Edit<T>>, a: seq<T>, b: seq<T>) {
    Source(script) == a && Target(script) == b
  }

  lemma {:induction false} ScriptCounts<T>(script: seq<Edit<T>>)
    ensures |Source(script)| == |Kept(script)| + Deletes(script)
    ensures |Target(script)| == |Kept(script)| + Inserts(script)
  {
    if script != [] {
      ScriptCounts(Front(script));
    }
  }

  lemma {:induction false} KeptIsCommon<T(!new)>(script: seq<Edit<T>>)
    ensures IsCommon(Kept(script), Source(script), Target(script))
  {
    if script == [] {
      assert Embeds<T>([], [], []);
    } else {
      var f := Front(script);
      KeptIsCommon(f);
      assert Last(script).Insert? || Front(Source(script)) == Source(f);
      assert Last(script).Delete? || Front(Target(script)) == Target(f);
      if Last(script).Keep? {
        SubsequenceSnoc(Kept(f), Source(script));
        SubsequenceSnoc(Kept(f), Target(script));
      } else if Last(script).Delete? {
        SubsequenceOfFront(Kept(f), Source(script));
        assert Target(script) == Target(f) && Kept(script) == Kept(f);
      } else {
        SubsequenceOfFront(Kept(f), Target(script));
        assert Source(script) == Source(f) && Kept(script) == Kept(f);
      }
    }
  }

  lemma {:induction false} CheapestScript<T>(a: seq<T>, b: seq<T>) returns (script: seq<Edit<T>>)
    ensures Transforms(script, a, b)
    ensures |Kept(script)| == Lcs(a, b)
    decreases |a| + |b|
  {
    var step: Edit<T>;
    if a == [] && b == [] {
      script := [];
      return;
    } else if a == [] || (b != [] && Last(a) != Last(b) && Lcs(Front(a), b) <= Lcs(a, Front(b))) {
      script := CheapestScript(a, Front(b));
      step := Edit.Insert(Last(b));
    } else if b == [] || Last(a) != Last(b) {
      script := CheapestScript(Front(a), b);
      step := Delete(Last(a));
    } else {
      script := CheapestScript(Front(a), Front(b));
      step := Keep(Last(a));
    }
    assert Front(script + [step]) == script;
    assert a != [] ==> a == Front(a) + [Last(a)];
    assert b != [] ==> b == Front(b) + [Last(b)];
    script := script + [step];
  }

  /** The counts the pipeline reports for two line lists. */
  function Added<T(==)>(a: seq<T>, b: seq<T>): int {
    |b| - Lcs(a, b)
  }

  function Deleted<T(==)>(a: seq<T>, b: seq<T>): int {
    |a| - Lcs(a, b)
  }

  /** Both counts are minimal at once, over every script that turns a into b. */
  lemma CountsAreMinimal<T(!new)>(a: seq<T>, b: seq<T>, script: seq<Edit<T>>)
    requires Transforms(script, a, b)
    ensures Added(a, b) <= Inserts(script)
    ensures Deleted(a, b) <= Deletes(script)
  {
    ScriptCounts(script);
    KeptIsCommon(script);
    LcsIsUpperBound(Kept(script), a, b);
  }

  /** The counts are those of an actual script. */
  lemma CountsAreAttained<T(!new)>(a: seq<T>, b: seq<T>)
    ensures exists script :: Transforms(script, a, b) && Inserts(script) == Added(a, b) && Deletes(script) == Deleted(a, b)
  {
    var script := CheapestScript(a, b);
    ScriptCounts(script);
    assert Transforms(script, a, b);
  }

  /** Swapping the inputs swaps the counts; the counts vanish together exactly on equal input. */
  lemma CountsLaws<T(!new)>(a: seq<T>, b: seq<T>)
    ensures Added(a, b) == Deleted(b, a)
    ensures Added(a, b) - Deleted(a, b) == |b| - |a|
    ensures 0 <= Added(a, b) && 0 <= Deleted(a, b)
    ensures (Added(a, b) == 0 && Deleted(a, b) == 0) <==> a == b
  {
    LcsSymmetric(a, b);
    LcsBounds(a, b);
  }

  // ----- text to lines -----

  const NUL: Byte := 0
  const NL: Byte := 10
  const CR: Byte := 13

  /** strings.ReplaceAll(value, "\r\n", "\n") */
  function UnixNewlines(s: seq<Byte>): seq<Byte> {
    if s == [] then []
    else if |s| >= 2 && s[0] == CR && s[1] == NL then [NL] + UnixNewlines(s[2..])
    else [s[0]] + UnixNewlines(s[1..])
  }

  /** strings.TrimSuffix(value, "\n") */
  function TrimNewline(s: seq<Byte>): seq<Byte> {
    if s != [] && Last(s) == NL then Front(s) else s
  }

  function SplitLines(value: seq<Byte>): seq<seq<Byte>> {
    var text := TrimNewline(UnixNewlines(value));
    if text == [] then [] else Split(text, NL)
  }

  /** Two texts have the same lines exactly when they differ at most in newline style and one final newline. */
  lemma SameLinesIff(x: seq<Byte>, y: seq<Byte>)
    ensures SplitLines(x) == SplitLines(y) <==> TrimNewline(UnixNewlines(x)) == TrimNewline(UnixNewlines(y))
  {
    JoinSplit(TrimNewline(UnixNewlines(x)), NL);
    JoinSplit(TrimNewline(UnixNewlines(y)), NL);
  }

  /** Lines written out, each newline as CR LF where crlf says so. */
  function Render(lines: seq<seq<Byte>>, crlf: seq<bool>): seq<Byte>
    requires |crlf| == |lines|
  {
    if lines == [] then []
    else lines[0] + (if crlf[0] then [CR, NL] else [NL]) + Render(lines[1..], crlf[1..])
  }

  ghost predicate PlainLines(lines: seq<seq<Byte>>) {
    forall k :: 0 <= k < |lines| ==> CR !in lines[k] && NL !in lines[k]
  }

  lemma UnixNewlinesPlainHead(c: Byte, rest: seq<Byte>)
    requires c != CR
    ensures UnixNewlines([c] + rest) == [c] + UnixNewlines(rest)
  {
    assert ([c] + rest)[1..] == rest;
  }

  lemma {:induction false} UnixNewlinesPlainPrefix(x: seq<Byte>, rest: seq<Byte>)
    requires CR !in x
    ensures UnixNewlines(x + rest) == x + UnixNewlines(rest)
  {
    hide UnixNewlines;
    if x == [] {
      assert x + rest == rest && x + UnixNewlines(rest) == UnixNewlines(rest);
    } else {
      UnixNewlinesPlainPrefix(x[1..], rest);
      UnixNewlinesPlainHead(x[0], x[1..] + rest);
      assert [x[0]] + (x[1..] + rest) == x + rest;
      assert [x[0]] + (x[1..] + UnixNewlines(rest)) == x + UnixNewlines(rest);
    }
  }

  lemma UnixNewlinesOfBreak(crlf: bool, rest: seq<Byte>)
    ensures UnixNewlines((if crlf then [CR, NL] else [NL]) + rest) == [NL] + UnixNewlines(rest)
  {
    var text := (if crlf then [CR, NL] else [NL]) + rest;
    assert text[if crlf then 2 else 1..] == rest;
  }

  lemma UnixNewlinesOfFirst(line: seq<Byte>, crlf: bool, rest: seq<Byte>)
    requires CR !in line
    ensures UnixNewlines(line + (if crlf then [CR, NL] else [NL]) + rest) == line + ([NL] + UnixNewlines(rest))
  {
    hide UnixNewlines;
    var broken := (if crlf then [CR, NL] else [NL]) + rest;
    assert line + (if crlf then [CR, NL] else [NL]) + rest == line + broken;
    UnixNewlinesPlainPrefix(line, broken);
    UnixNewlinesOfBreak(crlf, rest);
  }

  lemma {:induction false} UnixNewlinesOfRender(lines: seq<seq<Byte>>, crlf: seq<bool>)
    requires |crlf| == |lines| && PlainLines(lines) && lines != []
    ensures UnixNewlines(Render(lines, crlf)) == Join(lines, NL) + [NL]
  {
    hide UnixNewlines;
    var rest := Render(lines[1..], crlf[1..]);
    UnixNewlinesOfFirst(lines[0], crlf[0], rest);
    if |lines| == 1 {
      UnixNewlinesOfNothing();
      assert rest == [];
    } else {
      UnixNewlinesOfRender(lines[1..], crlf[1..]);
      var joined := Join(lines[1..], NL);
      assert lines[0] + ([NL] + (joined + [NL])) == lines[0] + [NL] + joined + [NL];
    }
  }

  lemma UnixNewlinesOfNothing()
    ensures UnixNewlines([]) == []
  {
  }

  /**
   Reading back written lines gives the same lines, whatever mix of newline styles was used, unless
   all there is is one empty line: that one is read back as no line.
   */
  lemma SplitLinesOfRender(lines: seq<seq<Byte>>, crlf: seq<bool>)
    requires |crlf| == |lines| && PlainLines(lines)
    ensures SplitLines(Render(lines, crlf)) == lines <==> lines != [[]]
    ensures lines == [[]] ==> SplitLines(Render(lines, crlf)) == []
  {
    if lines == [] {
      UnixNewlinesOfNothing();
    } else {
      UnixNewlinesOfRender(lines, crlf);
      assert TrimNewline(Join(lines, NL) + [NL]) == Join(lines, NL);
      SplitJoin(lines, NL);
      assert Join(lines, NL) == [] <==> lines == [[]];
    }
  }

  // ----- countSnapshots -----

  datatype Status = Known | Empty | Unknown | Binary | UnsupportedEncoding | Pending

  const MAX_SNAPSHOT_CELLS := 1_000_000

  /** Row i of the table: entry j compares the first i left lines with the first j right lines. */
  ghost predicate IsRow<T>(row: seq<int>, left: seq<T>, right: seq<T>, upTo: nat) {
    && |row| == |right| + 1 && upTo < |row|
    && forall j :: 0 <= j <= upTo ==> row[j] == Lcs(left, right[..j])
  }

  lemma LcsStep<T>(left: seq<T>, right: seq<T>, i: nat, j: nat)
    requires i < |left| && j < |right|
    ensures Lcs(left[..i + 1], right[..j + 1]) ==
            if left[i] == right[j] then Lcs(left[..i], right[..j]) + 1
            else Max(Lcs(left[..i + 1], right[..j]), Lcs(left[..i], right[..j + 1]))
  {
    assert Front(left[..i + 1]) == left[..i] && Front(right[..j + 1]) == right[..j];
  }

  /** The rolling two-row table. */
  method CommonLines(left: seq<seq<Byte>>, right: seq<seq<Byte>>) returns (common: nat)
    ensures common == Lcs(left, right)
  {
    var previous := new int[|right| + 1](_ => 0);
    var current := new int[|right| + 1](_ => 0);
    for i := 0 to |left|
      invariant previous.Length == current.Length == |right| + 1 && previous != current
      invariant fresh(previous) && fresh(current)
      invariant IsRow(previous[..], left[..i], right, |right|)
      invariant current[0] == 0
    {
      for j := 0 to |right|
        invariant IsRow(current[..], left[..i + 1], right, j)
        invariant IsRow(previous[..], left[..i], right, |right|)
      {
        LcsStep(left, right, i, j);
        assert previous[..][j] == Lcs(left[..i], right[..j]);
        assert previous[..][j + 1] == Lcs(left[..i], right[..j + 1]);
        assert current[..][j] == Lcs(left[..i + 1], right[..j]);
        if left[i] == right[j] {
          current[j + 1] := previous[j] + 1;
        } else {
          current[j + 1] := Max(current[j], previous[j + 1]);
        }
      }
      previous, current := current, previous;
      forall k | 0 <= k < current.Length { current[k] := 0; }
    }
    assert left[..|left|] == left && right[..|right|] == right;
    assert previous[..][|right|] == Lcs(left, right);
    common := previous[|right|];
  }

  datatype Counts = Counts(added: int, deleted: int, status: Status)

  /** What countSnapshots answers; isUtf8 stands for the library's encoding test. */
  function SnapshotCounts(before: seq<Byte>, after: seq<Byte>, isUtf8: seq<Byte> -> bool): Counts {
    var left, right := SplitLines(before), SplitLines(after);
    if NUL in before || NUL in after then Counts(0, 0, Binary)
    else if !isUtf8(before) || !isUtf8(after) then Counts(0, 0, UnsupportedEncoding)
    else if |left| * |right| > MAX_SNAPSHOT_CELLS then Counts(0, 0, Unknown)
    else Counts(Added(left, right), Deleted(left, right), if left == right then Empty else Known)
  }

  /** Where there are counts, some script attains both, and none does with less of either. */
  lemma SnapshotCountsAreLeast(before: seq<Byte>, after: seq<Byte>, isUtf8: seq<Byte> -> bool, other: seq<Edit<seq<Byte>>>)
    returns (script: seq<Edit<seq<Byte>>>)
    requires SnapshotCounts(before, after, isUtf8).status.Known? || SnapshotCounts(before, after, isUtf8).status.Empty?
    ensures Transforms(script, SplitLines(before), SplitLines(after))
    ensures SnapshotCounts(before, after, isUtf8).added == Inserts(script) && SnapshotCounts(before, after, isUtf8).deleted == Deletes(script)
    ensures Transforms(other, SplitLines(before), SplitLines(after)) ==>
              Inserts(script) <= Inserts(other) && Deletes(script) <= Deletes(other)
  {
    hide Lcs, Transforms, Inserts, Deletes;
    CountsAreAttained(SplitLines(before), SplitLines(after));
    var left, right := SplitLines(before), SplitLines(after);
    script :| Transforms(script, left, right) && Inserts(script) == Added(left, right) && Deletes(script) == Deleted(left, right);
    if Transforms(other, SplitLines(before), SplitLines(after)) {
      CountsAreMinimal(SplitLines(before), SplitLines(after), other);
    }
  }

  /** The table decides "empty" by two zero counts, which is to say by equal lines. */
  method CountSnapshots(before: seq<Byte>, after: seq<Byte>, isUtf8: seq<Byte> -> bool) returns (counts: Counts)
    ensures counts == SnapshotCounts(before, after, isUtf8)
    ensures counts.status.Known? || counts.status.Empty? ==>
              counts.added - counts.deleted == |SplitLines(after)| - |SplitLines(before)| && 0 <= counts.added && 0 <= counts.deleted
    ensures counts.status.Binary? <==> 0 in before || 0 in after
    ensures counts.status.UnsupportedEncoding? <==> !counts.status.Binary? && !(isUtf8(before) && isUtf8(after))
    ensures counts.status.Unknown? <==>
              0 !in before + after && isUtf8(before) && isUtf8(after) && 1_000_000 < |SplitLines(before)| * |SplitLines(after)|
    ensures counts.status.Empty? ==> counts.added == 0 && counts.deleted == 0 && SplitLines(before) == SplitLines(after)
    ensures counts.status.Known? ==> SplitLines(before) != SplitLines(after)
    ensures !counts.status.Pending?
  {
    if NUL in before || NUL in after {
      return Counts(0, 0, Binary);
    }
    if !isUtf8(before) || !isUtf8(after) {
      return Counts(0, 0, UnsupportedEncoding);
    }
    var left, right := SplitLines(before), SplitLines(after);
    if |left| * |right| > MAX_SNAPSHOT_CELLS {
      return Counts(0, 0, Unknown);
    }
    var common := CommonLines(left, right);
    CountsLaws(left, right);
    var added, deleted := |right| - common, |left| - common;
    if added == 0 && deleted == 0 {
      return Counts(0, 0, Empty);
    }
    return Counts(added, deleted, Known);
  }

  /** Comparing the other way round swaps the counts and keeps the status. */
  lemma SnapshotsSwap(before: seq<Byte>, after: seq<Byte>, isUtf8: seq<Byte> -> bool)
    ensures var there, back := SnapshotCounts(before, after, isUtf8), SnapshotCounts(after, before, isUtf8);
            there.added == back.deleted && there.deleted == back.added && there.status == back.status
  {
    CountsLaws(SplitLines(before), SplitLines(after));
    CountsLaws(SplitLines(after), SplitLines(before));
    CellsCommute(|SplitLines(before)|, |SplitLines(after)|);
  }

  lemma CellsCommute(m: nat, n: nat)
    ensures m * n == n * m
  {
  }
}
