/** Parsing patch text into hunks (`crates/apply-patch/src/parser.rs`). */
module Parser {
  import opened Text
  import opened Patch

  const BEGIN_PATCH_MARKER := "*** Begin Patch"
  const END_PATCH_MARKER := "*** End Patch"
  const ADD_FILE_MARKER := "*** Add File: "
  const DELETE_FILE_MARKER := "*** Delete File: "
  const UPDATE_FILE_MARKER := "*** Update File: "
  const MOVE_TO_MARKER := "*** Move to: "
  const EOF_MARKER := "*** End of File"
  const CHANGE_CONTEXT_MARKER := "@@ "
  const EMPTY_CHANGE_CONTEXT_MARKER := "@@"

  datatype HunkProblem =
    | NoLines
    | MissingContextMarker(line: string)
    | UnexpectedLine(line: string)
    | EmptyUpdate(path: string)
    | BadHeader(line: string)

  datatype ParseError =
    | BadFirstLine
    | BadLastLine
    | InvalidHunk(problem: HunkProblem, lineNumber: nat)

  /** A value and the number of lines it was parsed from. */
  datatype Parsed<T> = Parsed(value: T, count: nat)

  datatype Mode = Strict | Lenient

  datatype PatchArgs = PatchArgs(hunks: seq<Hunk>, patch: string)

  // ---------------------------------------------------------------- one chunk

  /** Takes one change line into the chunk; `None` if the line is not one. */
  function TakeLine(chunk: Chunk, line: string): Option<Chunk> {
    if line == "" then
      Some(chunk.(oldLines := chunk.oldLines + [""], newLines := chunk.newLines + [""]))
    else if line[0] == ' ' then
      Some(chunk.(oldLines := chunk.oldLines + [line[1..]], newLines := chunk.newLines + [line[1..]]))
    else if line[0] == '+' then
      Some(chunk.(newLines := chunk.newLines + [line[1..]]))
    else if line[0] == '-' then
      Some(chunk.(oldLines := chunk.oldLines + [line[1..]]))
    else
      None
  }

  /** The change lines of a chunk, continuing after `parsed` of them. */
  function ChunkBody(lines: seq<string>, lineNumber: nat, chunk: Chunk, parsed: nat)
    : (r: Result<Parsed<Chunk>, ParseError>)
    ensures r.Ok? ==> parsed <= r.value.count <= parsed + |lines|
    ensures r.Ok? && lines != [] ==> r.value.count > 0
    decreases |lines|
  {
    if lines == [] then Ok(Parsed(chunk, parsed))
    else if lines[0] == EOF_MARKER then
      if parsed == 0 then Err(InvalidHunk(NoLines, lineNumber + 1))
      else Ok(Parsed(chunk.(isEndOfFile := true), parsed + 1))
    else
      var taken := TakeLine(chunk, lines[0]);
      if taken.Some? then ChunkBody(lines[1..], lineNumber, taken.value, parsed + 1)
      else if parsed == 0 then Err(InvalidHunk(UnexpectedLine(lines[0]), lineNumber + 1))
      else Ok(Parsed(chunk, parsed))
  }

  /** The context marker: the context it gives and the number of lines it takes (0 or 1). */
  function ContextMarker(line: string): Parsed<Option<string>> {
    if line == EMPTY_CHANGE_CONTEXT_MARKER then Parsed(None, 1)
    else
      var context := StripPrefix(line, CHANGE_CONTEXT_MARKER);
      if context.Some? then Parsed(context, 1) else Parsed(None, 0)
  }

  function ParseChunk(lines: seq<string>, lineNumber: nat, allowMissingContext: bool)
    : (r: Result<Parsed<Chunk>, ParseError>)
    ensures r.Ok? ==> 0 < r.value.count <= |lines|
  {
    if lines == [] then Err(InvalidHunk(NoLines, lineNumber))
    else
      var marker := ContextMarker(lines[0]);
      if marker.count == 0 && !allowMissingContext then
        Err(InvalidHunk(MissingContextMarker(lines[0]), lineNumber))
      else if marker.count >= |lines| then
        Err(InvalidHunk(NoLines, lineNumber + 1))
      else
        var body := ChunkBody(lines[marker.count..], lineNumber, Chunk(marker.value, [], [], false), 0);
        if body.Err? then Err(body.error)
        else Ok(Parsed(body.value.value, body.value.count + marker.count))
  }

  /** `parse_update_file_chunk`. */
  method ParseUpdateFileChunk(lines: seq<string>, lineNumber: nat, allowMissingContext: bool)
    returns (r: Result<Parsed<Chunk>, ParseError>)
    ensures r == ParseChunk(lines, lineNumber, allowMissingContext)
  {
    if lines == [] {
      return Err(InvalidHunk(NoLines, lineNumber));
    }
    var marker := ContextMarker(lines[0]);
    if marker.count == 0 && !allowMissingContext {
      return Err(InvalidHunk(MissingContextMarker(lines[0]), lineNumber));
    }
    if marker.count >= |lines| {
      return Err(InvalidHunk(NoLines, lineNumber + 1));
    }
    var body := ParseChunkLines(lines[marker.count..], lineNumber, Chunk(marker.value, [], [], false));
    if body.Err? {
      return Err(body.error);
    }
    return Ok(Parsed(body.value.value, body.value.count + marker.count));
  }

  /** The loop over the change lines. */
  method ParseChunkLines(lines: seq<string>, lineNumber: nat, start: Chunk)
    returns (r: Result<Parsed<Chunk>, ParseError>)
    ensures r == ChunkBody(lines, lineNumber, start, 0)
  {
    var chunk, parsed := start, 0;
    assert lines[0..] == lines;
    while parsed < |lines|
      invariant 0 <= parsed <= |lines|
      invariant ChunkBody(lines[parsed..], lineNumber, chunk, parsed) == ChunkBody(lines, lineNumber, start, 0)
    {
      assert lines[parsed..][0] == lines[parsed] && lines[parsed..][1..] == lines[parsed + 1..];
      var line := lines[parsed];
      if line == EOF_MARKER {
        if parsed == 0 {
          return Err(InvalidHunk(NoLines, lineNumber + 1));
        }
        return Ok(Parsed(chunk.(isEndOfFile := true), parsed + 1));
      }
      var taken := TakeLine(chunk, line);
      if taken.None? {
        if parsed == 0 {
          return Err(InvalidHunk(UnexpectedLine(line), lineNumber + 1));
        }
        return Ok(Parsed(chunk, parsed));
      }
      chunk, parsed := taken.value, parsed + 1;
    }
    assert lines[parsed..] == [];
    return Ok(Parsed(chunk, parsed));
  }

  // ---------------------------------------------------------------- one hunk

  /** The chunks of an update hunk, continuing after `parsed` lines of it. */
  function UpdateBody(lines: seq<string>, lineNumber: nat, chunks: seq<Chunk>, parsed: nat)
    : (r: Result<Parsed<seq<Chunk>>, ParseError>)
    ensures r.Ok? ==> parsed <= r.value.count <= parsed + |lines|
    decreases |lines|
  {
    if lines == [] then Ok(Parsed(chunks, parsed))
    else if Trim(lines[0]) == "" then UpdateBody(lines[1..], lineNumber, chunks, parsed + 1)
    else if StartsWith(lines[0], "***") then Ok(Parsed(chunks, parsed))
    else
      var chunk := ParseChunk(lines, lineNumber + parsed, chunks == []);
      if chunk.Err? then Err(chunk.error)
      else UpdateBody(lines[chunk.value.count..], lineNumber, chunks + [chunk.value.value], parsed + chunk.value.count)
  }

  /** The lines of an added file, continuing after `parsed` lines of the hunk. */
  function AddBody(lines: seq<string>, contents: string, parsed: nat): (r: Parsed<string>)
    ensures parsed <= r.count <= parsed + |lines|
    decreases |lines|
  {
    if lines == [] || !StartsWith(lines[0], "+") then Parsed(contents, parsed)
    else AddBody(lines[1..], contents + lines[0][1..] + "\n", parsed + 1)
  }

  function MoveTo(lines: seq<string>): Option<string> {
    if lines == [] then None else StripPrefix(lines[0], MOVE_TO_MARKER)
  }

  function UpdateHunk(path: string, lines: seq<string>, lineNumber: nat): (r: Result<Parsed<Hunk>, ParseError>)
    ensures r.Ok? ==> 0 < r.value.count <= |lines| + 1
  {
    var move := MoveTo(lines);
    var skip := if move.Some? then 1 else 0;
    var body := UpdateBody(lines[skip..], lineNumber, [], skip + 1);
    if body.Err? then Err(body.error)
    else if body.value.value == [] then Err(InvalidHunk(EmptyUpdate(path), lineNumber))
    else Ok(Parsed(UpdateFile(path, move, body.value.value), body.value.count))
  }

  function ParseHunk(lines: seq<string>, lineNumber: nat): (r: Result<Parsed<Hunk>, ParseError>)
    requires lines != []
    ensures r.Ok? ==> 0 < r.value.count <= |lines|
  {
    var first := Trim(lines[0]);
    var added := StripPrefix(first, ADD_FILE_MARKER);
    var deleted := StripPrefix(first, DELETE_FILE_MARKER);
    var updated := StripPrefix(first, UPDATE_FILE_MARKER);
    if added.Some? then
      var body := AddBody(lines[1..], "", 1);
      Ok(Parsed(AddFile(added.value, body.value), body.count))
    else if deleted.Some? then
      Ok(Parsed(DeleteFile(deleted.value), 1))
    else if updated.Some? then
      UpdateHunk(updated.value, lines[1..], lineNumber)
    else
      Err(InvalidHunk(BadHeader(first), lineNumber))
  }

  /** `parse_one_hunk`. */
  method ParseOneHunk(lines: seq<string>, lineNumber: nat) returns (r: Result<Parsed<Hunk>, ParseError>)
    requires lines != []
    ensures r == ParseHunk(lines, lineNumber)
  {
    var first := Trim(lines[0]);
    var added := StripPrefix(first, ADD_FILE_MARKER);
    if added.Some? {
      var body := ParseAddedLines(lines[1..]);
      return Ok(Parsed(AddFile(added.value, body.value), body.count));
    }
    var deleted := StripPrefix(first, DELETE_FILE_MARKER);
    if deleted.Some? {
      return Ok(Parsed(DeleteFile(deleted.value), 1));
    }
    var updated := StripPrefix(first, UPDATE_FILE_MARKER);
    if updated.Some? {
      var move := MoveTo(lines[1..]);
      var skip := if move.Some? then 1 else 0;
      var body := ParseUpdateChunks(lines[1..][skip..], lineNumber, skip + 1);
      if body.Err? {
        return Err(body.error);
      }
      if body.value.value == [] {
        return Err(InvalidHunk(EmptyUpdate(updated.value), lineNumber));
      }
      return Ok(Parsed(UpdateFile(updated.value, move, body.value.value), body.value.count));
    }
    return Err(InvalidHunk(BadHeader(first), lineNumber));
  }

  /** The loop over the lines of an added file. */
  method ParseAddedLines(lines: seq<string>) returns (r: Parsed<string>)
    ensures r == AddBody(lines, "", 1)
  {
    var contents, i := "", 0;
    assert lines[0..] == lines;
    while i < |lines|
      invariant 0 <= i <= |lines|
      invariant AddBody(lines[i..], contents, i + 1) == AddBody(lines, "", 1)
    {
      assert lines[i..][0] == lines[i] && lines[i..][1..] == lines[i + 1..];
      if !StartsWith(lines[i], "+") {
        return Parsed(contents, i + 1);
      }
      contents := contents + lines[i][1..] + "\n";
      i := i + 1;
    }
    assert lines[i..] == [];
    return Parsed(contents, i + 1);
  }

  /** What is left of an update hunk while its chunks are being read. */
  datatype Cursor = Cursor(remaining: seq<string>, chunks: seq<Chunk>, parsed: nat)

  /** The loop over the chunks of an update, shrinking the remaining lines. */
  method ParseUpdateChunks(lines: seq<string>, lineNumber: nat, start: nat)
    returns (r: Result<Parsed<seq<Chunk>>, ParseError>)
    ensures r == UpdateBody(lines, lineNumber, [], start)
  {
    var at := Cursor(lines, [], start);
    var stop: Option<Result<Parsed<seq<Chunk>>, ParseError>> := None;
    ghost var goal := UpdateBody(lines, lineNumber, [], start);
    while at.remaining != []
      invariant UpdateBody(at.remaining, lineNumber, at.chunks, at.parsed) == goal
      decreases |at.remaining|
    {
      at, stop := ParseNextChunk(at, lineNumber, goal);
      if stop.Some? {
        return stop.value;
      }
    }
    return Ok(Parsed(at.chunks, at.parsed));
  }

  /** The body of that loop. */
  method ParseNextChunk(at: Cursor, lineNumber: nat, ghost goal: Result<Parsed<seq<Chunk>>, ParseError>)
    returns (next: Cursor, stop: Option<Result<Parsed<seq<Chunk>>, ParseError>>)
    requires at.remaining != []
    requires UpdateBody(at.remaining, lineNumber, at.chunks, at.parsed) == goal
    ensures stop.Some? ==> stop.value == goal
    ensures stop.None? ==> |next.remaining| < |at.remaining|
    ensures stop.None? ==> UpdateBody(next.remaining, lineNumber, next.chunks, next.parsed) == goal
  {
    hide ParseChunk, Trim;
    var Cursor(remaining, chunks, parsed) := at;
    if Trim(remaining[0]) == "" {
      return Cursor(remaining[1..], chunks, parsed + 1), None;
    }
    if StartsWith(remaining[0], "***") {
      return at, Some(Ok(Parsed(chunks, parsed)));
    }
    var chunk := ParseUpdateFileChunk(remaining, lineNumber + parsed, chunks == []);
    if chunk.Err? {
      return at, Some(Err(chunk.error));
    }
    var Parsed(value, count) := chunk.value;
    return Cursor(remaining[count..], chunks + [value], parsed + count), None;
  }

  // ---------------------------------------------------------------- the whole patch

  function CheckBoundaries(lines: seq<string>): Option<ParseError> {
    if lines == [] then Some(BadLastLine)
    else
      var first, last := Trim(lines[0]), Trim(lines[|lines| - 1]);
      if first == BEGIN_PATCH_MARKER && last == END_PATCH_MARKER then None
      else if first != BEGIN_PATCH_MARKER then Some(BadFirstLine)
      else Some(BadLastLine)
  }

  predicate HeredocStart(line: string) {
    line == "<<EOF" || line == "<<'EOF'" || line == "<<\"EOF\""
  }

  /** The lines between the patch markers' lines, markers included. */
  function PatchLines(lines: seq<string>, mode: Mode): Result<seq<string>, ParseError> {
    var problem := CheckBoundaries(lines);
    if problem.None? then Ok(lines)
    else if mode.Strict? then Err(problem.value)
    else if |lines| >= 4 && HeredocStart(lines[0]) && EndsWith(lines[|lines| - 1], "EOF") then
      var inner := lines[1..|lines| - 1];
      var innerProblem := CheckBoundaries(inner);
      if innerProblem.None? then Ok(inner) else Err(innerProblem.value)
    else Err(problem.value)
  }

  function HunksFrom(lines: seq<string>, lineNumber: nat, hunks: seq<Hunk>): Result<seq<Hunk>, ParseError>
    decreases |lines|
  {
    if lines == [] then Ok(hunks)
    else
      var hunk := ParseHunk(lines, lineNumber);
      if hunk.Err? then Err(hunk.error)
      else HunksFrom(lines[hunk.value.count..], lineNumber + hunk.value.count, hunks + [hunk.value.value])
  }

  /** The lines between the two marker lines. */
  function Inside(lines: seq<string>): seq<string>
    requires |lines| >= 2
  {
    lines[1..|lines| - 1]
  }

  /** Hunks of a list of lines that starts and ends with the patch markers. */
  function ParseBetweenMarkers(lines: seq<string>): Result<PatchArgs, ParseError>
    requires |lines| >= 2
  {
    var hunks := HunksFrom(Inside(lines), 2, []);
    if hunks.Err? then Err(hunks.error) else Ok(PatchArgs(hunks.value, Join(lines, "\n")))
  }

  function ParseText(patch: string, mode: Mode): Result<PatchArgs, ParseError> {
    var lines := PatchLines(Lines(Trim(patch)), mode);
    if lines.Err? then Err(lines.error)
    else
      PatchLinesBounded(Lines(Trim(patch)), mode);
      ParseBetweenMarkers(lines.value)
  }

  lemma PatchLinesBounded(lines: seq<string>, mode: Mode)
    ensures var r := PatchLines(lines, mode);
            r.Ok? ==> |r.value| >= 2 && CheckBoundaries(r.value) == None
  {
    var r := PatchLines(lines, mode);
  }

  /** `parse_patch_text`. */
  method ParsePatchText(patch: string, mode: Mode) returns (r: Result<PatchArgs, ParseError>)
    ensures r == ParseText(patch, mode)
  {
    var checked := PatchLines(Lines(Trim(patch)), mode);
    if checked.Err? {
      return Err(checked.error);
    }
    PatchLinesBounded(Lines(Trim(patch)), mode);
    var lines := checked.value;
    var hunks := ParseHunkLines(Inside(lines));
    if hunks.Err? {
      return Err(hunks.error);
    }
    return Ok(PatchArgs(hunks.value, Join(lines, "\n")));
  }

  /** The loop over the hunks, shrinking the remaining lines. */
  method ParseHunkLines(lines: seq<string>) returns (r: Result<seq<Hunk>, ParseError>)
    ensures r == HunksFrom(lines, 2, [])
  {
    hide ParseHunk;
    var hunks: seq<Hunk> := [];
    var remaining := lines;
    var lineNumber: nat := 2;
    ghost var goal := HunksFrom(lines, 2, []);
    while remaining != []
      invariant HunksFrom(remaining, lineNumber, hunks) == goal
      decreases |remaining|
    {
      var hunk := ParseOneHunk(remaining, lineNumber);
      if hunk.Err? {
        return Err(hunk.error);
      }
      var Parsed(value, count) := hunk.value;
      assert HunksFrom(remaining[count..], lineNumber + count, hunks + [value]) == goal;
      hunks, lineNumber, remaining := hunks + [value], lineNumber + count, remaining[count..];
    }
    return Ok(hunks);
  }
}
