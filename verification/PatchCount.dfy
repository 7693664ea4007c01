/**
 Counting the lines of a unified patch: countPatch of internal/diff/pipeline.go, against the
 edit script the patch was printed from.
 */
module PatchCount {
  import opened Common
  import opened Pieces
  import opened LineDiff

  type Line = seq<Byte>

  const PLUS: Byte := 43
  const MINUS: Byte := 45
  const SPACE: Byte := 32
  const AT: Byte := 64

  /** "Binary files " */
  const BINARY_FILES: seq<Byte> := [66, 105, 110, 97, 114, 121, 32, 102, 105, 108, 101, 115, 32]

  predicate OccursAt(text: seq<Byte>, part: seq<Byte>, i: nat) {
    i + |part| <= |text| && text[i..i + |part|] == part
  }

  predicate Occurs(text: seq<Byte>, part: seq<Byte>) {
    exists i :: 0 <= i <= |text| && OccursAt(text, part, i)
  }

  predicate StartsWith(line: Line, prefix: Line) {
    prefix <= line
  }

  predicate IsHunk(line: Line) {
    StartsWith(line, [AT, AT])
  }

  predicate IsFileHeader(line: Line) {
    StartsWith(line, [PLUS, PLUS, PLUS]) || StartsWith(line, [MINUS, MINUS, MINUS])
  }

  predicate CountsAdded(line: Line) {
    StartsWith(line, [PLUS]) && !StartsWith(line, [PLUS, PLUS, PLUS])
  }

  predicate CountsDeleted(line: Line) {
    StartsWith(line, [MINUS]) && !StartsWith(line, [MINUS, MINUS, MINUS])
  }

  function AddedLines(lines: seq<Line>): nat {
    if lines == [] then 0 else AddedLines(lines[..|lines| - 1]) + if CountsAdded(lines[|lines| - 1]) then 1 else 0
  }

  function DeletedLines(lines: seq<Line>): nat {
    if lines == [] then 0 else DeletedLines(lines[..|lines| - 1]) + if CountsDeleted(lines[|lines| - 1]) then 1 else 0
  }

  function PatchCounts(patch: seq<Byte>, isUtf8: seq<Byte> -> bool): Counts {
    if NUL in patch || Occurs(patch, BINARY_FILES) then Counts(0, 0, Binary)
    else if !isUtf8(patch) then Counts(0, 0, UnsupportedEncoding)
    else
      var lines := Split(UnixNewlines(patch), NL);
      var added, deleted := AddedLines(lines), DeletedLines(lines);
      Counts(added, deleted, if added == 0 && deleted == 0 then Empty else Known)
  }

  lemma HeadersAreNotCounted(line: Line)
    ensures IsHunk(line) || IsFileHeader(line) ==> !CountsAdded(line) && !CountsDeleted(line)
  {
    if IsHunk(line) {
      assert line[0] == AT;
    } else if StartsWith(line, [PLUS, PLUS, PLUS]) {
      assert line[0] == PLUS;
    } else if StartsWith(line, [MINUS, MINUS, MINUS]) {
      assert line[0] == MINUS;
    }
  }

  /** Somewhere in the text stands "Binary files ". */
  ghost predicate HoldsBinaryFiles(text: seq<Byte>) {
    exists i :: StandsAt(text, i)
  }

  predicate StandsAt(text: seq<Byte>, i: int) {
    0 <= i && i + 13 <= |text| && text[i..i + 13] == [66, 105, 110, 97, 114, 121, 32, 102, 105, 108, 101, 115, 32]
  }

  lemma OccursMeans(text: seq<Byte>)
    ensures Occurs(text, BINARY_FILES) <==> HoldsBinaryFiles(text)
  {
    if HoldsBinaryFiles(text) {
      var i :| StandsAt(text, i);
      assert OccursAt(text, BINARY_FILES, i);
    }
    if Occurs(text, BINARY_FILES) {
      var i :| 0 <= i <= |text| && OccursAt(text, BINARY_FILES, i);
      assert StandsAt(text, i);
    }
  }

  /** The hunk flag of the loop changes nothing: the lines it lets through before a hunk are not counted anyway. */
  method CountPatch(patch: seq<Byte>, isUtf8: seq<Byte> -> bool) returns (counts: Counts)
    ensures counts == PatchCounts(patch, isUtf8)
    ensures counts.status.Binary? <==> 0 in patch || HoldsBinaryFiles(patch)
    ensures counts.status.UnsupportedEncoding? <==> !counts.status.Binary? && !isUtf8(patch)
    ensures counts.status.Empty? ==> counts.added == 0 && counts.deleted == 0
    ensures counts.status.Known? ==> 0 < counts.added || 0 < counts.deleted
    ensures counts.status.Binary? || counts.status.UnsupportedEncoding? || counts.status.Empty? || counts.status.Known?
  {
    OccursMeans(patch);
    if NUL in patch || Occurs(patch, BINARY_FILES) {
      return Counts(0, 0, Binary);
    }
    if !isUtf8(patch) {
      return Counts(0, 0, UnsupportedEncoding);
    }
    var lines := Split(UnixNewlines(patch), NL);
    var added, deleted, inHunk := 0, 0, false;
    for i := 0 to |lines|
      invariant added == AddedLines(lines[..i]) && deleted == DeletedLines(lines[..i])
    {
      assert lines[..i + 1][..i] == lines[..i];
      var line := lines[i];
      HeadersAreNotCounted(line);
      if IsHunk(line) {
        inHunk := true;
        continue;
      }
      if !inHunk && IsFileHeader(line) {
        continue;
      }
      if CountsAdded(line) {
        added := added + 1;
      }
      if CountsDeleted(line) {
        deleted := deleted + 1;
      }
    }
    assert lines[..|lines|] == lines;
    if added == 0 && deleted == 0 {
      return Counts(0, 0, Empty);
    }
    return Counts(added, deleted, Known);
  }

  // ----- against an edit script -----

  function PatchLine(edit: Edit<Line>): Line {
    match edit
    case Keep(line) => [SPACE] + line
    case Delete(line) => [MINUS] + line
    case Insert(line) => [PLUS] + line
  }

  /** A line of a printed patch: of an edit, or of the frame around the edits. */
  datatype Printed = Frame(text: Line) | Body(edit: Edit<Line>)

  /** Hunk and file headers, and lines with neither sign in front: "diff", "index", "\ No newline". */
  predicate IsFrame(line: Line) {
    IsHunk(line) || IsFileHeader(line) || !(StartsWith(line, [PLUS]) || StartsWith(line, [MINUS]))
  }

  function Printout(p: Printed): Line {
    match p
    case Frame(text) => text
    case Body(edit) => PatchLine(edit)
  }

  function PatchLines(patch: seq<Printed>): seq<Line> {
    if patch == [] then [] else PatchLines(Front(patch)) + [Printout(Last(patch))]
  }

  /** The edits of all hunks and files, in order. */
  function ScriptOf(patch: seq<Printed>): seq<Edit<Line>> {
    if patch == [] then [] else ScriptOf(Front(patch)) + if Last(patch).Body? then [Last(patch).edit] else []
  }

  function PatchText(patch: seq<Printed>): seq<Byte>
    requires patch != []
  {
    Join(PatchLines(patch), NL) + [NL]
  }

  /** An inserted line starting with "++", or a deleted one starting with "--": printed, it looks like a file header. */
  predicate LooksLikeHeader(edit: Edit<Line>) {
    (edit.Insert? && StartsWith(edit.line, [PLUS, PLUS])) || (edit.Delete? && StartsWith(edit.line, [MINUS, MINUS]))
  }

  function Hidden(script: seq<Edit<Line>>, inserts: bool): nat {
    if script == [] then 0
    else Hidden(Front(script), inserts) + if LooksLikeHeader(Last(script)) && Last(script).Insert? == inserts then 1 else 0
  }

  ghost predicate PlainPatch(patch: seq<Printed>) {
    forall k :: 0 <= k < |patch| ==>
      && CR !in Printout(patch[k]) && NL !in Printout(patch[k])
      && (patch[k].Frame? ==> IsFrame(patch[k].text))
  }

  lemma PatchLineCounts(edit: Edit<Line>)
    ensures CountsAdded(PatchLine(edit)) <==> edit.Insert? && !LooksLikeHeader(edit)
    ensures CountsDeleted(PatchLine(edit)) <==> edit.Delete? && !LooksLikeHeader(edit)
  {
    var l := PatchLine(edit);
    assert l[0] == if edit.Keep? then SPACE else if edit.Delete? then MINUS else PLUS;
    assert l[1..] == edit.line;
    assert StartsWith(l, [PLUS, PLUS, PLUS]) <==> l[0] == PLUS && StartsWith(edit.line, [PLUS, PLUS]);
    assert StartsWith(l, [MINUS, MINUS, MINUS]) <==> l[0] == MINUS && StartsWith(edit.line, [MINUS, MINUS]);
  }

  lemma FrameIsNotCounted(line: Line)
    requires IsFrame(line)
    ensures !CountsAdded(line) && !CountsDeleted(line)
  {
    HeadersAreNotCounted(line);
  }

  ghost predicate CountsMatch(lines: seq<Line>, script: seq<Edit<Line>>) {
    && AddedLines(lines) + Hidden(script, true) == Inserts(script)
    && DeletedLines(lines) + Hidden(script, false) == Deletes(script)
  }

  lemma FrameMatches(lines: seq<Line>, script: seq<Edit<Line>>, text: Line)
    requires CountsMatch(lines, script) && IsFrame(text)
    ensures CountsMatch(lines + [text], script)
  {
    hide IsFrame, CountsAdded, CountsDeleted, Hidden, Inserts, Deletes;
    FrameIsNotCounted(text);
    assert (lines + [text])[..|lines|] == lines;
  }

  lemma BodyMatches(lines: seq<Line>, script: seq<Edit<Line>>, edit: Edit<Line>)
    requires CountsMatch(lines, script)
    ensures CountsMatch(lines + [PatchLine(edit)], script + [edit])
  {
    hide CountsAdded, CountsDeleted, StartsWith, PatchLine;
    PatchLineCounts(edit);
    assert (lines + [PatchLine(edit)])[..|lines|] == lines;
    assert Front(script + [edit]) == script;
  }

  lemma {:induction false} LinesOfPatch(patch: seq<Printed>)
    requires PlainPatch(patch)
    ensures CountsMatch(PatchLines(patch), ScriptOf(patch))
  {
    hide IsFrame, CountsMatch, PatchLine;
    if patch == [] {
      NothingMatches();
    } else {
      LinesOfPatch(Front(patch));
      assert Last(patch) == patch[|patch| - 1];
      if Last(patch).Body? {
        BodyMatches(PatchLines(Front(patch)), ScriptOf(Front(patch)), Last(patch).edit);
      } else {
        FrameMatches(PatchLines(Front(patch)), ScriptOf(Front(patch)), Last(patch).text);
        assert ScriptOf(Front(patch)) + [] == ScriptOf(Front(patch));
      }
    }
  }

  lemma NothingMatches()
    ensures CountsMatch([], [])
  {
  }

  lemma {:induction false} SplitJoinNewline(lines: seq<Line>)
    requires lines != [] && PlainLines(lines)
    ensures Split(Join(lines, NL) + [NL], NL) == lines + [[]]
  {
    hide Split;
    SplitOfNewline();
    if |lines| == 1 {
      SplitPlainPrefix(lines[0], [NL], NL);
      assert lines[0] + [] == lines[0];
      assert lines == [lines[0]];
    } else {
      var rest := [NL] + (Join(lines[1..], NL) + [NL]);
      assert Join(lines, NL) + [NL] == lines[0] + rest;
      SplitPlainPrefix(lines[0], rest, NL);
      SplitJoinNewline(lines[1..]);
      SplitAfterNewline(Join(lines[1..], NL) + [NL]);
      assert lines[0] + [] == lines[0];
      assert lines + [[]] == [lines[0]] + (lines[1..] + [[]]);
    }
  }

  lemma SplitOfNewline()
    ensures Split([NL], NL) == [[], []]
  {
    assert [NL][1..] == [];
  }

  lemma SplitAfterNewline(s: seq<Byte>)
    ensures Split([NL] + s, NL) == [[]] + Split(s, NL)
  {
    assert ([NL] + s)[1..] == s;
  }

  lemma {:induction false} JoinHasNoReturn(lines: seq<Line>)
    requires lines != [] && PlainLines(lines)
    ensures CR !in Join(lines, NL)
  {
    if |lines| > 1 {
      JoinHasNoReturn(lines[1..]);
    }
  }

  lemma {:induction false} PlainPatchLines(patch: seq<Printed>)
    requires PlainPatch(patch)
    ensures PlainLines(PatchLines(patch)) && |PatchLines(patch)| == |patch|
  {
    hide IsFrame;
    if patch != [] {
      PlainPatchLines(Front(patch));
      assert Last(patch) == patch[|patch| - 1];
    }
  }

  /**
   The counts read off a printed patch, of any number of hunks and files, are its insertions and
   deletions except for the lines that look like file headers; so they are right exactly when no
   line does.
   */
  lemma PatchCountsScript(patch: seq<Printed>, isUtf8: seq<Byte> -> bool)
    requires patch != [] && PlainPatch(patch)
    requires var text := PatchText(patch); NUL !in text && !Occurs(text, BINARY_FILES) && isUtf8(text)
    ensures var counts, script := PatchCounts(PatchText(patch), isUtf8), ScriptOf(patch);
            && counts.added == Inserts(script) - Hidden(script, true)
            && counts.deleted == Deletes(script) - Hidden(script, false)
            && (counts.added == Inserts(script) && counts.deleted == Deletes(script) <==>
                forall k :: 0 <= k < |script| ==> !LooksLikeHeader(script[k]))
  {
    hide Split, Join, UnixNewlines, Occurs, PlainPatch, LooksLikeHeader, Hidden, Inserts, Deletes, PatchLines, ScriptOf;
    PatchTextLines(patch);
    LinesOfPatch(patch);
    assert (PatchLines(patch) + [[]])[..|PatchLines(patch)|] == PatchLines(patch);
    HiddenIff(ScriptOf(patch));
  }

  /** Read back, the printed patch has its own lines and an empty one after the last newline. */
  lemma PatchTextLines(patch: seq<Printed>)
    requires patch != [] && PlainPatch(patch)
    ensures Split(UnixNewlines(PatchText(patch)), NL) == PatchLines(patch) + [[]]
  {
    hide Split, Join, UnixNewlines, PlainPatch, PatchLines;
    var lines := PatchLines(patch);
    PlainPatchLines(patch);
    JoinHasNoReturn(lines);
    UnixNewlinesPlainPrefix(Join(lines, NL) + [NL], []);
    UnixNewlinesOfNothing();
    assert Join(lines, NL) + [NL] + [] == Join(lines, NL) + [NL];
    SplitJoinNewline(lines);
  }

  lemma {:induction false} HiddenIff(script: seq<Edit<Line>>)
    ensures Hidden(script, true) == 0 && Hidden(script, false) == 0 <==> forall k :: 0 <= k < |script| ==> !LooksLikeHeader(script[k])
  {
    if script != [] {
      HiddenIff(Front(script));
      assert forall k :: 0 <= k < |script| - 1 ==> Front(script)[k] == script[k];
      assert Last(script) == script[|script| - 1];
    }
  }

  /** The lines that are counted, byte by byte: 43 is the plus sign and 45 the minus. */
  lemma CountedSigns(line: Line)
    ensures CountsAdded(line) <==> line != [] && line[0] == 43 && !(3 <= |line| && line[1] == 43 && line[2] == 43)
    ensures CountsDeleted(line) <==> line != [] && line[0] == 45 && !(3 <= |line| && line[1] == 45 && line[2] == 45)
  {
    assert StartsWith(line, [PLUS]) <==> line != [] && line[0] == PLUS;
    assert StartsWith(line, [MINUS]) <==> line != [] && line[0] == MINUS;
    assert StartsWith(line, [PLUS, PLUS, PLUS]) <==> 3 <= |line| && line[0] == PLUS && line[1] == PLUS && line[2] == PLUS;
    assert StartsWith(line, [MINUS, MINUS, MINUS]) <==> 3 <= |line| && line[0] == MINUS && line[1] == MINUS && line[2] == MINUS;
  }
}
