/** What the parser can return, and which line its errors name
    (`crates/apply-patch/src/parser.rs`, lines 155 to 435). */
module ParserImage {
  import opened Text
  import opened Patch
  import opened Parser
  import opened Printer
  import opened StoredPatch

  // ---------------------------------------------------------------- every parsed hunk can be written down

  lemma PlainTail(line: string, n: nat)
    requires PlainLine(line) && n <= |line|
    ensures PlainLine(line[n..])
  {
  }

  predicate Started(chunk: Chunk) {
    chunk.oldLines != [] || chunk.newLines != []
  }

  predicate PlainChunk(chunk: Chunk) {
    && AllPlain(chunk.oldLines) && AllPlain(chunk.newLines)
    && (chunk.changeContext.Some? ==> PlainLine(chunk.changeContext.value))
  }

  lemma TakenIsPlain(chunk: Chunk, line: string)
    requires PlainChunk(chunk) && PlainLine(line) && TakeLine(chunk, line).Some?
    ensures PlainChunk(TakeLine(chunk, line).value) && Started(TakeLine(chunk, line).value)
  {
    if line != "" {
      PlainTail(line, 1);
    }
  }

  lemma {:induction false} BodyIsPlain(lines: seq<string>, ln: nat, chunk: Chunk, parsed: nat)
    requires AllPlain(lines) && PlainChunk(chunk)
    requires parsed > 0 ==> Started(chunk)
    requires parsed > 0 || lines != []
    ensures var r := ChunkBody(lines, ln, chunk, parsed);
            r.Ok? ==> PrintableChunk(r.value.value)
    decreases |lines|
  {
    hide PlainLine, TakeLine;
    if lines != [] && lines[0] != EOF_MARKER {
      var taken := TakeLine(chunk, lines[0]);
      if taken.Some? {
        TakenIsPlain(chunk, lines[0]);
        BodyIsPlain(lines[1..], ln, taken.value, parsed + 1);
      }
    }
  }

  lemma ChunkIsPrintable(lines: seq<string>, ln: nat, allowMissing: bool)
    requires AllPlain(lines)
    ensures var r := ParseChunk(lines, ln, allowMissing);
            r.Ok? ==> PrintableChunk(r.value.value)
  {
    hide PlainLine, ChunkBody;
    if lines != [] {
      var marker := ContextMarker(lines[0]);
      if marker.value.Some? {
        PlainTail(lines[0], |CHANGE_CONTEXT_MARKER|);
      }
      if marker.count < |lines| {
        BodyIsPlain(lines[marker.count..], ln, Chunk(marker.value, [], [], false), 0);
      }
    }
  }

  predicate AllPrintable(chunks: seq<Chunk>) {
    forall i :: 0 <= i < |chunks| ==> PrintableChunk(chunks[i])
  }

  lemma {:induction false} UpdateIsPrintable(lines: seq<string>, ln: nat, chunks: seq<Chunk>, parsed: nat)
    requires AllPlain(lines) && AllPrintable(chunks)
    ensures var r := UpdateBody(lines, ln, chunks, parsed);
            r.Ok? ==> AllPrintable(r.value.value)
    decreases |lines|
  {
    hide PlainLine, ParseChunk, PrintableChunk, Trim;
    if lines != [] {
      if Trim(lines[0]) == "" {
        UpdateIsPrintable(lines[1..], ln, chunks, parsed + 1);
      } else if !StartsWith(lines[0], "***") {
        var chunk := ParseChunk(lines, ln + parsed, chunks == []);
        ChunkIsPrintable(lines, ln + parsed, chunks == []);
        if chunk.Ok? {
          UpdateIsPrintable(lines[chunk.value.count..], ln, chunks + [chunk.value.value], parsed + chunk.value.count);
        }
      }
    }
  }

  /** Whole plain lines. */
  predicate PlainText(contents: string) {
    (contents == "" || contents[|contents| - 1] == '\n') && AllPlain(Split(contents, '\n'))
  }

  lemma PlainTextGrows(contents: string, line: string)
    requires PlainText(contents) && PlainLine(line)
    ensures PlainText(contents + line + "\n")
  {
    hide Split;
    SplitHead(line, "", '\n');
    SplitWhole("", '\n');
    assert line + ['\n'] + "" == line + "\n";
    assert Split(line + "\n", '\n') == [line, ""];
    if contents == "" {
      assert contents + line + "\n" == line + "\n";
    } else {
      var front := contents[..|contents| - 1];
      assert contents == front + ['\n'] + "";
      assert contents + line + "\n" == front + ['\n'] + (line + "\n");
      SplitConcat(front, "", '\n');
      SplitConcat(front, line + "\n", '\n');
      assert AllPlain(Split(front, '\n')) by {
        hide PlainLine;
        var all := Split(contents, '\n');
        assert all[..|all| - 1] == Split(front, '\n');
      }
      AllPlainConcat(Split(front, '\n'), [line, ""]);
    }
  }

  lemma {:induction false} AddedIsPlain(lines: seq<string>, contents: string, parsed: nat)
    requires AllPlain(lines) && PlainText(contents)
    ensures PlainText(AddBody(lines, contents, parsed).value)
    decreases |lines|
  {
    hide PlainLine, PlainText;
    if lines != [] && StartsWith(lines[0], "+") {
      PlainTail(lines[0], 1);
      PlainTextGrows(contents, lines[0][1..]);
      AddedIsPlain(lines[1..], contents + lines[0][1..] + "\n", parsed + 1);
    }
  }

  /** Trimming leaves no room for an empty path: the marker itself ends in a space. */
  lemma HeaderPath(line: string, marker: string)
    requires '\n' !in line && marker != "" && marker[|marker| - 1] == ' '
    ensures var path := StripPrefix(Trim(line), marker);
            path.Some? ==> GoodPath(path.value)
  {
    hide Trim;
    var pre, post := TrimParts(line);
    var t := Trim(line);
    if StripPrefix(t, marker).Some? {
      var path := t[|marker|..];
      assert t == marker + path;
      assert forall i :: 0 <= i < |t| ==> t[i] == line[|pre| + i];
      assert t[|t| - 1] == if path == "" then ' ' else path[|path| - 1];
    }
  }

  lemma HunkIsPrintable(lines: seq<string>, ln: nat)
    requires lines != [] && AllPlain(lines)
    ensures var r := ParseHunk(lines, ln);
            r.Ok? ==> Printable(r.value.value)
  {
    hide Trim, StripPrefix, GoodPath, UpdateBody, AddBody, PrintableChunk, AllPlain, Split;
    assert PlainLine(lines[0]) && AllPlain(lines[1..]) by { PlainParts(lines); }
    HeaderPath(lines[0], ADD_FILE_MARKER);
    HeaderPath(lines[0], DELETE_FILE_MARKER);
    HeaderPath(lines[0], UPDATE_FILE_MARKER);
    NothingIsPlain();
    AddedIsPlain(lines[1..], "", 1);
    var updated := StripPrefix(Trim(lines[0]), UPDATE_FILE_MARKER);
    if updated.Some? {
      UpdateHunkIsPrintable(updated.value, lines[1..], ln);
    }
  }

  lemma PlainParts(lines: seq<string>)
    requires lines != [] && AllPlain(lines)
    ensures PlainLine(lines[0]) && AllPlain(lines[1..])
  {
    hide PlainLine;
  }

  lemma NothingIsPlain()
    ensures PlainText("")
  {
  }

  lemma UpdateHunkIsPrintable(path: string, lines: seq<string>, ln: nat)
    requires AllPlain(lines) && GoodPath(path)
    ensures var r := UpdateHunk(path, lines, ln);
            r.Ok? ==> Printable(r.value.value)
  {
    hide PlainLine, GoodPath, UpdateBody, PrintableChunk;
    var move := MoveTo(lines);
    if move.Some? {
      PlainTail(lines[0], |MOVE_TO_MARKER|);
    }
    var skip := if move.Some? then 1 else 0;
    UpdateIsPrintable(lines[skip..], ln, [], skip + 1);
  }

  predicate PrintableHunks(hunks: seq<Hunk>) {
    forall i :: 0 <= i < |hunks| ==> Printable(hunks[i])
  }

  lemma {:induction false} HunksArePrintable(lines: seq<string>, ln: nat, hunks: seq<Hunk>)
    requires AllPlain(lines) && PrintableHunks(hunks)
    ensures var r := HunksFrom(lines, ln, hunks);
            r.Ok? ==> PrintableHunks(r.value)
    decreases |lines|
  {
    hide PlainLine, ParseHunk, Printable;
    if lines != [] {
      var hunk := ParseHunk(lines, ln);
      HunkIsPrintable(lines, ln);
      if hunk.Ok? {
        HunksArePrintable(lines[hunk.value.count..], ln + hunk.value.count, hunks + [hunk.value.value]);
      }
    }
  }

  /** Whatever the text looked like, padded, heredoc-wrapped or with blank separators: the hunks
      it parses to are printable, and printing them is a normal form, a patch that both modes
      parse to those same hunks. */
  lemma ParsedHunksHaveNormalForm(patch: string, mode: Mode, again: Mode)
    requires ParseText(patch, mode).Ok?
    requires AllPlain(Accepted(patch, mode))
    ensures var hunks := ParseText(patch, mode).value.hunks;
            && PrintableHunks(hunks)
            && HunksOnly(ParseText(PatchText(HunkDocsOf(hunks)), again)) == Ok(hunks)
  {
    hide Trim, Lines, HunksFrom, ParseText, PatchLines, PlainLine, CheckBoundaries, Printable, Join, PatchText;
    AcceptedFacts(patch, mode);
    var ls := Accepted(patch, mode);
    HunksArePrintable(Inside(ls), 2, []);
    HunksRoundTrip(ParseText(patch, mode).value.hunks, again);
  }

  /** Some patch text without stray carriage returns parses to these hunks. */
  ghost predicate Obtainable(hunks: seq<Hunk>, mode: Mode) {
    exists patch :: ParsesTo(patch, mode, hunks)
  }

  predicate ParsesTo(patch: string, mode: Mode, hunks: seq<Hunk>) {
    && ParseText(patch, mode).Ok?
    && AllPlain(Accepted(patch, mode))
    && ParseText(patch, mode).value.hunks == hunks
  }

  /** The parser's image, exactly: a list of hunks is the parse of some patch if and only if
      every hunk in it is printable. */
  lemma ObtainableExactly(hunks: seq<Hunk>, mode: Mode)
    ensures Obtainable(hunks, mode) <==> PrintableHunks(hunks)
  {
    hide ParseText, Accepted, AllPlain, Printable, PatchText, HunksOnly;
    if PrintableHunks(hunks) {
      HunksRoundTrip(hunks, mode);
      PrintedIsPlain(hunks, mode);
      assert ParsesTo(PatchText(HunkDocsOf(hunks)), mode, hunks);
    }
    if Obtainable(hunks, mode) {
      var patch :| ParsesTo(patch, mode, hunks);
      ParsedHunksHaveNormalForm(patch, mode, mode);
    }
  }

  /** The lines of a printed patch are plain. */
  lemma PrintedIsPlain(hunks: seq<Hunk>, mode: Mode)
    requires PrintableHunks(hunks)
    requires ParseText(PatchText(HunkDocsOf(hunks)), mode).Ok?
    ensures AllPlain(Accepted(PatchText(HunkDocsOf(hunks)), mode))
  {
    hide Trim, Lines, Join, PlainLine, HunksFrom, Printable, IsWhitespace, PrintHunks, GoodPatch;
    var docs := HunkDocsOf(hunks);
    HunkDocsMean(hunks);
    HunksPlain(docs);
    var mid := PrintHunks(docs);
    MarkerLines();
    TextTrimmed(BEGIN_PATCH_MARKER, mid, END_PATCH_MARKER);
    LinesJoin([BEGIN_PATCH_MARKER] + mid, END_PATCH_MARKER);
  }

  // ---------------------------------------------------------------- the line an error names

  predicate HasMarker(line: string) {
    ContextMarker(line).count == 1
  }

  /** What the one-based line `n` of the patch has to do with the problem reported there. A
      chunk's unexpected first line is named exactly if the chunk has a marker; without one the
      line after it is named. */
  predicate Names(all: seq<string>, problem: HunkProblem, n: nat) {
    && 2 <= n <= |all|
    && match problem
       case BadHeader(text) => n < |all| && Trim(all[n - 1]) == text
       case EmptyUpdate(path) => n < |all| && StripPrefix(Trim(all[n - 1]), UPDATE_FILE_MARKER) == Some(path)
       case MissingContextMarker(line) => n < |all| && all[n - 1] == line && !HasMarker(line)
       case NoLines => HasMarker(all[n - 2]) && (n == |all| || all[n - 1] == EOF_MARKER)
       case UnexpectedLine(line) =>
         || (n < |all| && HasMarker(all[n - 2]) && all[n - 1] == line)
         || (all[n - 2] == line && !HasMarker(line))
  }

  /** `lines` are the lines from the one-based line `n` on, without the closing marker. */
  predicate From(all: seq<string>, lines: seq<string>, n: nat) {
    2 <= n && n + |lines| == |all| && all[n - 1..|all| - 1] == lines
  }

  lemma FromDrop(all: seq<string>, lines: seq<string>, n: nat, k: nat)
    requires From(all, lines, n) && k <= |lines|
    ensures From(all, lines[k..], n + k)
    ensures forall i :: 0 <= i < |lines| ==> all[n - 1 + i] == lines[i]
  {
    assert all[n + k - 1..|all| - 1] == all[n - 1..|all| - 1][k..];
  }

  lemma {:induction false} BodyError(lines: seq<string>, ln: nat, chunk: Chunk, parsed: nat)
    requires parsed > 0
    ensures ChunkBody(lines, ln, chunk, parsed).Ok?
    decreases |lines|
  {
    hide TakeLine;
    if lines != [] && lines[0] != EOF_MARKER {
      var taken := TakeLine(chunk, lines[0]);
      if taken.Some? {
        BodyError(lines[1..], ln, taken.value, parsed + 1);
      }
    }
  }

  lemma ChunkErrorNames(all: seq<string>, lines: seq<string>, n: nat, allowMissing: bool)
    requires From(all, lines, n) && lines != [] && !StartsWith(lines[0], "***")
    ensures var r := ParseChunk(lines, n, allowMissing);
            r.Err? ==> r.error.InvalidHunk? && Names(all, r.error.problem, r.error.lineNumber)
  {
    hide Trim, TakeLine, ContextMarker;
    FromDrop(all, lines, n, 0);
    var marker := ContextMarker(lines[0]);
    MarkerCount(lines[0]);
    assert lines[0] != EOF_MARKER;
    if marker.count < |lines| {
      var body := lines[marker.count..];
      assert body[0] == lines[marker.count] == all[n - 1 + marker.count];
      var start := Chunk(marker.value, [], [], false);
      var taken := TakeLine(start, body[0]);
      if taken.Some? {
        BodyError(body[1..], n, taken.value, 1);
      }
    }
  }

  lemma MarkerCount(line: string)
    ensures ContextMarker(line).count <= 1
  {
  }

  lemma {:induction false} UpdateErrorNames(
      all: seq<string>, lines: seq<string>, ln: nat, chunks: seq<Chunk>, parsed: nat)
    requires From(all, lines, ln + parsed)
    ensures var r := UpdateBody(lines, ln, chunks, parsed);
            r.Err? ==> r.error.InvalidHunk? && Names(all, r.error.problem, r.error.lineNumber)
    decreases |lines|
  {
    hide From, Names, ParseChunk, Trim;
    if lines != [] {
      if Trim(lines[0]) == "" {
        FromDrop(all, lines, ln + parsed, 1);
        UpdateErrorNames(all, lines[1..], ln, chunks, parsed + 1);
      } else if !StartsWith(lines[0], "***") {
        var chunk := ParseChunk(lines, ln + parsed, chunks == []);
        ChunkErrorNames(all, lines, ln + parsed, chunks == []);
        if chunk.Ok? {
          FromDrop(all, lines, ln + parsed, chunk.value.count);
          var Parsed(value, count) := chunk.value;
          UpdateErrorNames(all, lines[count..], ln, chunks + [value], parsed + count);
        }
      }
    }
  }

  lemma HunkErrorNames(all: seq<string>, lines: seq<string>, n: nat)
    requires From(all, lines, n) && lines != []
    ensures var r := ParseHunk(lines, n);
            r.Err? ==> r.error.InvalidHunk? && Names(all, r.error.problem, r.error.lineNumber)
  {
    hide Trim, StripPrefix, UpdateBody, AddBody, ContextMarker;
    FromDrop(all, lines, n, 1);
    var rest := lines[1..];
    var skip := if MoveTo(rest).Some? then 1 else 0;
    FromDrop(all, rest, n + 1, skip);
    UpdateErrorNames(all, rest[skip..], n, [], skip + 1);
  }

  lemma {:induction false} HunksErrorNames(all: seq<string>, lines: seq<string>, n: nat, hunks: seq<Hunk>)
    requires From(all, lines, n)
    ensures var r := HunksFrom(lines, n, hunks);
            r.Err? ==> r.error.InvalidHunk? && Names(all, r.error.problem, r.error.lineNumber)
    decreases |lines|
  {
    hide From, Names, ParseHunk;
    if lines != [] {
      var hunk := ParseHunk(lines, n);
      HunkErrorNames(all, lines, n);
      if hunk.Ok? {
        FromDrop(all, lines, n, hunk.value.count);
        HunksErrorNames(all, lines[hunk.value.count..], n + hunk.value.count, hunks + [hunk.value.value]);
      }
    }
  }

  /** Every failing parse either fails at the patch markers or names a line of the patch (counted
      from its opening marker) that the problem is about. */
  lemma ErrorNamesLine(patch: string, mode: Mode)
    ensures var lines, r := PatchLines(Lines(Trim(patch)), mode), ParseText(patch, mode);
            r.Err? ==>
              if lines.Err? then r.error == lines.error && !r.error.InvalidHunk?
              else r.error.InvalidHunk? && Names(lines.value, r.error.problem, r.error.lineNumber)
  {
    hide Trim, Lines, HunksFrom, Names;
    var lines := PatchLines(Lines(Trim(patch)), mode);
    PatchLinesBounded(Lines(Trim(patch)), mode);
    if lines.Ok? {
      HunksErrorNames(lines.value, Inside(lines.value), 2, []);
    }
  }

  /** The off-by-one at an input: the line at fault is the third, the error names the fourth. */
  lemma {:induction false} UnexpectedLineMisnamed(mode: Mode)
    ensures var patch := Join([BEGIN_PATCH_MARKER, "*** Update File: a", "foo", END_PATCH_MARKER], "\n");
            && Lines(Trim(patch)) == [BEGIN_PATCH_MARKER, "*** Update File: a", "foo", END_PATCH_MARKER]
            && ParseText(patch, mode) == Err(InvalidHunk(UnexpectedLine("foo"), 4))
  {
    hide Trim, Lines, Join, HunksFrom, IsWhitespace;
    var mid := ["*** Update File: a", "foo"];
    var all := [BEGIN_PATCH_MARKER] + mid + [END_PATCH_MARKER];
    assert all == [BEGIN_PATCH_MARKER, "*** Update File: a", "foo", END_PATCH_MARKER];
    MarkerLines();
    TextTrimmed(BEGIN_PATCH_MARKER, mid, END_PATCH_MARKER);
    LinesJoin([BEGIN_PATCH_MARKER] + mid, END_PATCH_MARKER);
    assert Inside(all) == mid;
    UnmarkedLineFails(mid);
  }

  lemma {:induction false} UnmarkedLineFails(mid: seq<string>)
    requires mid == ["*** Update File: a", "foo"]
    ensures HunksFrom(mid, 2, []) == Err(InvalidHunk(UnexpectedLine("foo"), 4))
  {
    hide Trim, StripPrefix, HunkStart;
    assert mid[0] == UPDATE_FILE_MARKER + "a" && GoodPath("a");
    UpdateHeader("a");
    var lines := mid[1..];
    assert lines == ["foo"] && lines[0..] == lines;
    TrimVisible("foo");
    assert "foo"[0] == 'f' && !StartsWith("foo", "***");
    assert ContextMarker("foo") == Parsed(None, 0) && MoveTo(lines) == None by { NoPrefix(); }
    assert ChunkBody(lines, 3, Chunk(None, [], [], false), 0) == Err(InvalidHunk(UnexpectedLine("foo"), 4));
  }

  lemma NoPrefix()
    ensures ContextMarker("foo") == Parsed(None, 0) && StripPrefix("foo", MOVE_TO_MARKER) == None
  {
    assert "foo"[0] == 'f' && EMPTY_CHANGE_CONTEXT_MARKER[0] == '@' && CHANGE_CONTEXT_MARKER[0] == '@';
  }
}
