/** When the stored patch text loses a carriage return that matters
    (`crates/apply-patch/src/parser.rs`, lines 155 to 435). Splitting the stored text into lines
    takes one more carriage return off the end of each line. */
module CarriageReturns {
  import opened Text
  import opened Patch
  import opened Parser
  import opened Printer
  import opened StoredPatch

  predicate EndsCr(s: string) {
    s != "" && s[|s| - 1] == '\r'
  }

  predicate Quiet(lines: seq<string>) {
    forall i :: 0 <= i < |lines| ==> !EndsCr(lines[i])
  }

  predicate QuietChunk(c: Chunk) {
    Quiet(c.oldLines) && Quiet(c.newLines) && (c.changeContext.Some? ==> !EndsCr(c.changeContext.value))
  }

  /** The chunk read from the start of `lines` stops at a line that is a lone carriage return:
      without it that line is empty, and an empty line belongs to the chunk. */
  predicate EndedByCr(lines: seq<string>, c: Parsed<Chunk>) {
    !c.value.isEndOfFile && c.count < |lines| && lines[c.count] == "\r"
  }

  /** No text of the update's chunks ends in a carriage return and no chunk is ended by one. */
  predicate QuietUpdate(lines: seq<string>, n: nat, first: bool)
    decreases |lines|
  {
    lines == [] ||
    if Trim(lines[0]) == "" then QuietUpdate(lines[1..], n + 1, first)
    else if StartsWith(lines[0], "***") then true
    else
      var c := ParseChunk(lines, n, first);
      c.Ok? ==>
        && QuietChunk(c.value.value) && !EndedByCr(lines, c.value)
        && QuietUpdate(lines[c.value.count..], n + c.value.count, false)
  }

  /** What a hunk takes from its lines does not depend on carriage returns at their ends. The
      header does not matter: it is trimmed. */
  predicate QuietHunk(lines: seq<string>, n: nat)
    requires lines != []
  {
    var first, rest := Trim(lines[0]), lines[1..];
    if StripPrefix(first, ADD_FILE_MARKER).Some? then
      Quiet(rest[..AddBody(rest, "", 1).count - 1])
    else if StripPrefix(first, UPDATE_FILE_MARKER).Some? && StripPrefix(first, DELETE_FILE_MARKER).None? then
      var move := MoveTo(rest);
      var skip := if move.Some? then 1 else 0;
      (move.Some? ==> !EndsCr(move.value)) && QuietUpdate(rest[skip..], n + (skip + 1), true)
    else true
  }

  predicate QuietHunks(lines: seq<string>, n: nat)
    decreases |lines|
  {
    lines == [] ||
    var h := ParseHunk(lines, n);
    h.Ok? ==> QuietHunk(lines, n) && QuietHunks(lines[h.value.count..], n + h.value.count)
  }

  // ---------------------------------------------------------------- one line

  const CR_EOF := EOF_MARKER + "\r"

  lemma StripTail(line: string, k: nat)
    requires k <= |line| && (k < |line| || !EndsCr(line))
    ensures k <= |StripCr(line)| && StripCr(line)[k..] == StripCr(line[k..])
  {
  }

  /** A prefix without a carriage return is there before and after. */
  lemma StripPrefixed(line: string, prefix: string)
    requires '\r' !in prefix
    ensures StartsWith(StripCr(line), prefix) <==> StartsWith(line, prefix)
    ensures var p := StripPrefix(line, prefix);
            StripPrefix(StripCr(line), prefix) == if p.Some? then Some(StripCr(p.value)) else None
  {
    if StartsWith(line, prefix) {
      if |line| == |prefix| {
        assert line == prefix;
        assert EndsCr(line) ==> '\r' in prefix;
      }
      StripTail(line, |prefix|);
      assert forall i :: 0 <= i < |prefix| ==> line[i] == prefix[i];
    }
  }

  lemma StrippedSlice(lines: seq<string>, k: nat)
    requires k <= |lines|
    ensures StripCrs(lines)[k..] == StripCrs(lines[k..])
  {
    hide StripCr;
  }

  function StripBody(c: Chunk): Chunk {
    c.(oldLines := StripCrs(c.oldLines), newLines := StripCrs(c.newLines))
  }

  function StripChunk(c: Chunk): Chunk {
    StripBody(c).(changeContext := if c.changeContext.Some? then Some(StripCr(c.changeContext.value)) else None)
  }

  lemma QuietIsKept(lines: seq<string>)
    ensures StripCrs(lines) == lines <==> Quiet(lines)
  {
    if StripCrs(lines) == lines {
      forall i | 0 <= i < |lines| ensures !EndsCr(lines[i]) {
        assert StripCrs(lines)[i] == lines[i];
      }
    }
  }

  lemma QuietChunkIsKept(c: Chunk)
    ensures StripChunk(c) == c <==> QuietChunk(c)
  {
    hide StripCrs, Quiet;
    QuietIsKept(c.oldLines);
    QuietIsKept(c.newLines);
  }

  // ---------------------------------------------------------------- one chunk

  lemma StripAppend(lines: seq<string>, line: string)
    ensures StripCrs(lines + [line]) == StripCrs(lines) + [StripCr(line)]
  {
    hide StripCr;
  }

  lemma TakeStripped(chunk: Chunk, line: string)
    requires TakeLine(chunk, line).Some?
    ensures StripCr(line) != EOF_MARKER
    ensures TakeLine(StripBody(chunk), StripCr(line)) == Some(StripBody(TakeLine(chunk, line).value))
  {
    hide StripCrs;
    assert EOF_MARKER[0] == '*';
    var text := if line == "" then "" else line[1..];
    StripAppend(chunk.oldLines, text);
    StripAppend(chunk.newLines, text);
    if line != "" {
      StripTail(line, 1);
      assert StripCr(line)[0] == line[0];
    }
  }

  lemma RefuseStripped(chunk: Chunk, line: string)
    requires TakeLine(chunk, line).None? && line != "\r" && line != CR_EOF && line != EOF_MARKER
    ensures TakeLine(StripBody(chunk), StripCr(line)).None? && StripCr(line) != EOF_MARKER
  {
    hide StripCrs;
    if EndsCr(line) {
      assert line == StripCr(line) + "\r";
      assert StripCr(line) != "";
    }
  }

  /** Old lines are only ever added. */
  lemma {:induction false} BodyGrows(lines: seq<string>, ln: nat, chunk: Chunk, parsed: nat)
    ensures var r := ChunkBody(lines, ln, chunk, parsed);
            r.Ok? ==> |r.value.value.oldLines| >= |chunk.oldLines|
    decreases |lines|
  {
    if lines != [] && lines[0] != EOF_MARKER {
      var taken := TakeLine(chunk, lines[0]);
      if taken.Some? { BodyGrows(lines[1..], ln, taken.value, parsed + 1); }
    }
  }

  /** The same change lines, one carriage return less on each, unless the chunk was ended by a
      lone one, which then makes it longer. */
  lemma {:induction false} BodyStripped(lines: seq<string>, ln: nat, chunk: Chunk, parsed: nat)
    requires ChunkBody(lines, ln, chunk, parsed).Ok? && !chunk.isEndOfFile
    requires var c := ChunkBody(lines, ln, chunk, parsed).value;
             c.count - parsed < |lines| ==> lines[c.count - parsed] != CR_EOF
    ensures var c := ChunkBody(lines, ln, chunk, parsed).value;
            var q := ChunkBody(StripCrs(lines), ln, StripBody(chunk), parsed);
            if EndedByCr(lines, Parsed(c.value, c.count - parsed)) then
              q.Ok? ==> |q.value.value.oldLines| > |c.value.oldLines|
            else q == Ok(Parsed(StripBody(c.value), c.count))
    decreases |lines|
  {
    hide TakeLine, StripCr, StripBody;
    if lines != [] {
      StrippedSlice(lines, 1);
      var line, stripped := lines[0], StripCrs(lines);
      assert stripped[0] == StripCr(line);
      var taken := TakeLine(chunk, line);
      if line == EOF_MARKER {
        EofStripped(chunk);
      } else if taken.Some? {
        TakenGoesOn(chunk, line);
        TakeStripped(chunk, line);
        BodyStripped(lines[1..], ln, taken.value, parsed + 1);
        ShiftEnd(lines, ChunkBody(lines, ln, chunk, parsed).value, parsed);
      } else if line == "\r" {
        LoneCr(stripped, ln, chunk, parsed);
      } else {
        RefuseStripped(chunk, line);
      }
    }
  }

  lemma EofStripped(chunk: Chunk)
    ensures StripCr(EOF_MARKER) == EOF_MARKER
    ensures StripBody(chunk).(isEndOfFile := true) == StripBody(chunk.(isEndOfFile := true))
  {
  }

  lemma TakenGoesOn(chunk: Chunk, line: string)
    requires TakeLine(chunk, line).Some?
    ensures TakeLine(chunk, line).value.isEndOfFile == chunk.isEndOfFile
  {
  }

  lemma ShiftEnd(lines: seq<string>, c: Parsed<Chunk>, parsed: nat)
    requires lines != [] && c.count > parsed
    ensures EndedByCr(lines, Parsed(c.value, c.count - parsed))
       <==> EndedByCr(lines[1..], Parsed(c.value, c.count - (parsed + 1)))
  {
  }

  lemma LoneCr(stripped: seq<string>, ln: nat, chunk: Chunk, parsed: nat)
    requires stripped != [] && stripped[0] == StripCr("\r")
    ensures var q := ChunkBody(stripped, ln, StripBody(chunk), parsed);
            q.Ok? ==> |q.value.value.oldLines| > |chunk.oldLines|
  {
    var taken := TakeLine(StripBody(chunk), "").value;
    assert EOF_MARKER != "";
    BodyGrows(stripped[1..], ln, taken, parsed + 1);
  }

  lemma MarkerStripped(line: string)
    requires line != "@@\r"
    ensures var m := ContextMarker(line);
            ContextMarker(StripCr(line))
            == Parsed(if m.value.Some? then Some(StripCr(m.value.value)) else None, m.count)
  {
    StripPrefixed(line, CHANGE_CONTEXT_MARKER);
    if EndsCr(line) { assert line == StripCr(line) + "\r"; }
  }

  /** A marker spoiled by a carriage return is no marker and no change line either. */
  lemma SpoiledMarkerFails(lines: seq<string>, n: nat, allowMissing: bool)
    requires lines != [] && lines[0] == "@@\r"
    ensures ParseChunk(lines, n, allowMissing).Err?
  {
    assert lines[0][2] != ' ' && |lines[0]| == 3;
    assert ContextMarker(lines[0]) == Parsed(None, 0);
    assert lines[0..] == lines;
    assert EOF_MARKER[0] == '*';
  }

  /** One chunk: the same lines with every text stripped, or another chunk if a lone carriage
      return ended it. */
  lemma {:induction false} ChunkStripped(lines: seq<string>, n: nat, allowMissing: bool)
    requires ParseChunk(lines, n, allowMissing).Ok?
    requires var c := ParseChunk(lines, n, allowMissing).value; c.count < |lines| ==> lines[c.count] != CR_EOF
    ensures var c, q := ParseChunk(lines, n, allowMissing).value, ParseChunk(StripCrs(lines), n, allowMissing);
            if EndedByCr(lines, c) then q.Ok? ==> q.value.value != c.value
            else q == Ok(Parsed(StripChunk(c.value), c.count))
  {
    hide ChunkBody, ContextMarker, StripCr;
    if lines[0] == "@@\r" { SpoiledMarkerFails(lines, n, allowMissing); }
    MarkerStripped(lines[0]);
    var marker := ContextMarker(lines[0]);
    var body, start := lines[marker.count..], Chunk(marker.value, [], [], false);
    StrippedSlice(lines, marker.count);
    BodyStripped(body, n, start, 0);
    BodyContext(body, n, start, 0);
    var context := if marker.value.Some? then Some(StripCr(marker.value.value)) else None;
    BodyRelabelled(StripCrs(body), n, StripBody(start), 0, context);
    assert StripBody(start).(changeContext := context) == Chunk(context, [], [], false);
  }

  /** The context is carried along unchanged. */
  lemma {:induction false} BodyContext(lines: seq<string>, ln: nat, chunk: Chunk, parsed: nat)
    ensures var r := ChunkBody(lines, ln, chunk, parsed);
            r.Ok? ==> r.value.value.changeContext == chunk.changeContext
    decreases |lines|
  {
    if lines != [] && lines[0] != EOF_MARKER {
      var taken := TakeLine(chunk, lines[0]);
      if taken.Some? { BodyContext(lines[1..], ln, taken.value, parsed + 1); }
    }
  }

  function Relabel(r: Result<Parsed<Chunk>, ParseError>, context: Option<string>): Result<Parsed<Chunk>, ParseError> {
    if r.Err? then r else Ok(Parsed(r.value.value.(changeContext := context), r.value.count))
  }

  lemma {:induction false} BodyRelabelled(
      lines: seq<string>, ln: nat, chunk: Chunk, parsed: nat, context: Option<string>)
    ensures ChunkBody(lines, ln, chunk.(changeContext := context), parsed)
         == Relabel(ChunkBody(lines, ln, chunk, parsed), context)
    decreases |lines|
  {
    if lines != [] && lines[0] != EOF_MARKER {
      var taken := TakeLine(chunk, lines[0]);
      if taken.Some? { BodyRelabelled(lines[1..], ln, taken.value, parsed + 1, context); }
    }
  }

  // ---------------------------------------------------------------- one hunk

  /** Chunks are only ever added. */
  lemma {:induction false} UpdateGrows(lines: seq<string>, ln: nat, chunks: seq<Chunk>, parsed: nat)
    ensures var r := UpdateBody(lines, ln, chunks, parsed);
            r.Ok? ==> chunks <= r.value.value
    decreases |lines|
  {
    hide Trim, ParseChunk;
    if lines != [] {
      if Trim(lines[0]) == "" {
        UpdateGrows(lines[1..], ln, chunks, parsed + 1);
      } else if !StartsWith(lines[0], "***") {
        var c := ParseChunk(lines, ln + parsed, chunks == []);
        if c.Ok? {
          UpdateGrows(lines[c.value.count..], ln, chunks + [c.value.value], parsed + c.value.count);
        }
      }
    }
  }

  /** A failure, or another value. */
  predicate Differs<T(==)>(q: Result<Parsed<T>, ParseError>, r: Result<Parsed<T>, ParseError>)
    requires r.Ok?
  {
    q.Err? || q.value.value != r.value.value
  }

  lemma OtherChunkDiffers(
      lines: seq<string>, stripped: seq<string>, ln: nat, chunks: seq<Chunk>, c: Chunk, d: Chunk, k: nat, l: nat)
    requires c != d && UpdateBody(lines, ln, chunks + [c], k).Ok?
    ensures Differs(UpdateBody(stripped, ln, chunks + [d], l), UpdateBody(lines, ln, chunks + [c], k))
  {
    hide UpdateBody;
    UpdateGrows(lines, ln, chunks + [c], k);
    UpdateGrows(stripped, ln, chunks + [d], l);
    var r, q := UpdateBody(lines, ln, chunks + [c], k), UpdateBody(stripped, ln, chunks + [d], l);
    if q.Ok? {
      assert r.value.value[|chunks|] == c && q.value.value[|chunks|] == d;
    }
  }

  /** What follows the part that was read is not the marker of a file's end with a carriage return. */
  predicate GoodRest(lines: seq<string>, count: int) {
    0 <= count < |lines| ==> lines[count] != CR_EOF
  }

  lemma SpoiledEofStops(lines: seq<string>, ln: nat, chunks: seq<Chunk>, parsed: nat)
    requires lines != [] && lines[0] == CR_EOF
    ensures UpdateBody(lines, ln, chunks, parsed) == Ok(Parsed(chunks, parsed))
  {
    hide ParseChunk, Trim;
    assert CR_EOF[0] == '*' && StartsWith(CR_EOF, "***");
    assert !IsWhitespace('*');
    TrimVisible(CR_EOF);
  }

  /** The chunks of an update. */
  lemma {:induction false} UpdateStripped(lines: seq<string>, ln: nat, chunks: seq<Chunk>, parsed: nat)
    requires UpdateBody(lines, ln, chunks, parsed).Ok?
    requires GoodRest(lines, UpdateBody(lines, ln, chunks, parsed).value.count - parsed)
    ensures var r, q := UpdateBody(lines, ln, chunks, parsed), UpdateBody(StripCrs(lines), ln, chunks, parsed);
            if QuietUpdate(lines, ln + parsed, chunks == []) then q == r else Differs(q, r)
    decreases |lines|
  {
    hide Trim, StripCr, UpdateBody, QuietUpdate;
    ReadsNoChunk(lines, ln, chunks, parsed);
    ReadsNoChunk(StripCrs(lines), ln, chunks, parsed);
    if lines != [] {
      var line := lines[0];
      assert StripCrs(lines)[0] == StripCr(line);
      StripCrTrim(line);
      StripPrefixed(line, "***");
      if Trim(line) == "" {
        StrippedSlice(lines, 1);
        UpdateStripped(lines[1..], ln, chunks, parsed + 1);
      } else if !StartsWith(line, "***") {
        ChunkOfUpdateStripped(lines, ln, chunks, parsed);
      }
    }
  }

  /** One pass of the loop over chunks that reads none: at the end, at a blank line, at a header. */
  lemma ReadsNoChunk(lines: seq<string>, ln: nat, chunks: seq<Chunk>, parsed: nat)
    ensures lines == [] || (Trim(lines[0]) != "" && StartsWith(lines[0], "***")) ==>
              && UpdateBody(lines, ln, chunks, parsed) == Ok(Parsed(chunks, parsed))
              && QuietUpdate(lines, ln + parsed, chunks == [])
    ensures lines != [] && Trim(lines[0]) == "" ==>
              && UpdateBody(lines, ln, chunks, parsed) == UpdateBody(lines[1..], ln, chunks, parsed + 1)
              && QuietUpdate(lines, ln + parsed, chunks == [])
                 == QuietUpdate(lines[1..], ln + parsed + 1, chunks == [])
  {
    hide ParseChunk, QuietChunk, EndedByCr, Trim;
  }

  lemma {:induction false} ChunkOfUpdateStripped(lines: seq<string>, ln: nat, chunks: seq<Chunk>, parsed: nat)
    requires lines != [] && Trim(lines[0]) != "" && !StartsWith(lines[0], "***")
    requires Trim(StripCrs(lines)[0]) != "" && !StartsWith(StripCrs(lines)[0], "***")
    requires UpdateBody(lines, ln, chunks, parsed).Ok?
    requires GoodRest(lines, UpdateBody(lines, ln, chunks, parsed).value.count - parsed)
    ensures var r, q := UpdateBody(lines, ln, chunks, parsed), UpdateBody(StripCrs(lines), ln, chunks, parsed);
            if QuietUpdate(lines, ln + parsed, chunks == []) then q == r else Differs(q, r)
    decreases |lines|, 0
  {
    hide ParseChunk, StripCr, QuietChunk, StripChunk, EndedByCr, StripCrs, UpdateBody, QuietUpdate;
    var n, first := ln + parsed, chunks == [];
    ReadsChunk(lines, ln, chunks, parsed);
    ReadsChunk(StripCrs(lines), ln, chunks, parsed);
    var c, q := ParseChunk(lines, n, first).value, ParseChunk(StripCrs(lines), n, first);
    var rest := lines[c.count..];
    if c.count < |lines| && lines[c.count] == CR_EOF {
      SpoiledEofStops(rest, ln, chunks + [c.value], parsed + c.count);
    }
    ChunkStripped(lines, n, first);
    QuietChunkIsKept(c.value);
    StrippedSlice(lines, c.count);
    if q.Ok? {
      var d, after := q.value.value, StripCrs(lines)[q.value.count..];
      if d != c.value {
        OtherChunkDiffers(rest, after, ln, chunks, c.value, d, parsed + c.count, parsed + q.value.count);
      } else if !EndedByCr(lines, c) {
        UpdateStripped(rest, ln, chunks + [c.value], parsed + c.count);
      }
    }
  }

  /** One pass of the loop over chunks that reads a chunk. */
  lemma ReadsChunk(lines: seq<string>, ln: nat, chunks: seq<Chunk>, parsed: nat)
    requires lines != [] && Trim(lines[0]) != "" && !StartsWith(lines[0], "***")
    ensures var c := ParseChunk(lines, ln + parsed, chunks == []);
            UpdateBody(lines, ln, chunks, parsed)
            == if c.Err? then Err(c.error)
               else UpdateBody(lines[c.value.count..], ln, chunks + [c.value.value], parsed + c.value.count)
    ensures var c := ParseChunk(lines, ln + parsed, chunks == []);
            QuietUpdate(lines, ln + parsed, chunks == [])
            <==> (c.Ok? ==>
                    && QuietChunk(c.value.value) && !EndedByCr(lines, c.value)
                    && QuietUpdate(lines[c.value.count..], ln + parsed + c.value.count, false))
  {
    hide ParseChunk, QuietChunk, EndedByCr, Trim;
  }

  /** The lines of an added file; every carriage return makes its contents shorter. */
  lemma {:induction false} AddStripped(lines: seq<string>, contents: string, fewer: string, parsed: nat)
    requires |fewer| <= |contents|
    ensures var r, q := AddBody(lines, contents, parsed), AddBody(StripCrs(lines), fewer, parsed);
            && q.count == r.count && |q.value| <= |r.value|
            && (|fewer| < |contents| ==> |q.value| < |r.value|)
            && (if Quiet(lines[..r.count - parsed]) then fewer == contents ==> q == r else |q.value| < |r.value|)
    decreases |lines|
  {
    hide StripCr, Quiet;
    QuietNone();
    if lines != [] {
      var line, rest := lines[0], lines[1..];
      assert StripCrs(lines)[0] == StripCr(line);
      StrippedSlice(lines, 1);
      StripPrefixed(line, "+");
      if StartsWith(line, "+") {
        StripTailLength(line);
        var more, less := contents + line[1..] + "\n", fewer + StripCr(line)[1..] + "\n";
        AddStripped(rest, more, less, parsed + 1);
        var count := AddBody(lines, contents, parsed).count - parsed;
        assert lines[..count] == [line] + rest[..count - 1];
        QuietCons(line, rest[..count - 1]);
      } else {
        assert lines[..0] == [];
      }
    } else {
      assert lines[..0] == [];
    }
  }

  lemma QuietNone()
    ensures Quiet([])
  {
  }

  lemma QuietCons(line: string, rest: seq<string>)
    ensures Quiet([line] + rest) <==> !EndsCr(line) && Quiet(rest)
  {
    if Quiet([line] + rest) {
      forall i | 0 <= i < |rest| ensures !EndsCr(rest[i]) { assert ([line] + rest)[i + 1] == rest[i]; }
      assert ([line] + rest)[0] == line;
    }
  }

  lemma StripTailLength(line: string)
    requires StartsWith(line, "+")
    ensures StripCr(line) != "" && |StripCr(line)[1..]| == |line[1..]| - if EndsCr(line) then 1 else 0
    ensures !EndsCr(line) ==> StripCr(line) == line
  {
  }

  lemma {:induction false} UpdateHunkStripped(path: string, lines: seq<string>, n: nat)
    requires UpdateHunk(path, lines, n).Ok?
    requires GoodRest(lines, UpdateHunk(path, lines, n).value.count - 1)
    ensures var move := MoveTo(lines);
            var skip := if move.Some? then 1 else 0;
            var quiet := (move.Some? ==> !EndsCr(move.value)) && QuietUpdate(lines[skip..], n + (skip + 1), true);
            var r, q := UpdateHunk(path, lines, n), UpdateHunk(path, StripCrs(lines), n);
            if quiet then q == r else Differs(q, r)
  {
    hide UpdateBody, QuietUpdate, StripCr;
    var move := MoveTo(lines);
    var skip := if move.Some? then 1 else 0;
    if lines != [] {
      assert StripCrs(lines)[0] == StripCr(lines[0]);
      StripPrefixed(lines[0], MOVE_TO_MARKER);
    }
    StrippedSlice(lines, skip);
    UpdateStripped(lines[skip..], n, [], skip + 1);
    if move.Some? { StrippedOrNot(move.value); }
  }

  lemma StrippedOrNot(s: string)
    ensures StripCr(s) == s <==> !EndsCr(s)
  {
  }

  lemma {:induction false} HunkStripped(lines: seq<string>, n: nat)
    requires lines != [] && ParseHunk(lines, n).Ok?
    requires GoodRest(lines, ParseHunk(lines, n).value.count)
    ensures var r, q := ParseHunk(lines, n), ParseHunk(StripCrs(lines), n);
            if QuietHunk(lines, n) then q == r else Differs(q, r)
  {
    hide Trim, StripPrefix, UpdateHunk, AddBody, QuietUpdate, Quiet, StripCr, StripCrs;
    assert StripCrs(lines)[0] == StripCr(lines[0]);
    StripCrTrim(lines[0]);
    StrippedSlice(lines, 1);
    var first, rest := Trim(lines[0]), lines[1..];
    if StripPrefix(first, ADD_FILE_MARKER).Some? {
      AddStripped(rest, "", "", 1);
    } else if StripPrefix(first, DELETE_FILE_MARKER).None? && StripPrefix(first, UPDATE_FILE_MARKER).Some? {
      UpdateHunkStripped(StripPrefix(first, UPDATE_FILE_MARKER).value, rest, n);
    }
  }

  // ---------------------------------------------------------------- the whole patch

  lemma {:induction false} HunksGrow(lines: seq<string>, n: nat, hunks: seq<Hunk>)
    ensures var r := HunksFrom(lines, n, hunks);
            r.Ok? ==> hunks <= r.value
    decreases |lines|
  {
    hide ParseHunk;
    if lines != [] {
      var h := ParseHunk(lines, n);
      if h.Ok? { HunksGrow(lines[h.value.count..], n + h.value.count, hunks + [h.value.value]); }
    }
  }

  lemma OtherHunkDiffers(
      lines: seq<string>, stripped: seq<string>, hunks: seq<Hunk>, h: Hunk, g: Hunk, n: nat, m: nat)
    requires h != g && HunksFrom(lines, n, hunks + [h]).Ok?
    ensures HunksFrom(stripped, m, hunks + [g]) != HunksFrom(lines, n, hunks + [h])
  {
    hide HunksFrom;
    HunksGrow(lines, n, hunks + [h]);
    HunksGrow(stripped, m, hunks + [g]);
    var r, q := HunksFrom(lines, n, hunks + [h]), HunksFrom(stripped, m, hunks + [g]);
    if q.Ok? {
      assert r.value[|hunks|] == h && q.value[|hunks|] == g;
    }
  }

  /** The marker of a file's end is no hunk header. */
  lemma SpoiledEofIsNoHeader(lines: seq<string>, n: nat)
    requires lines != [] && lines[0] == CR_EOF
    ensures ParseHunk(lines, n).Err?
  {
    hide Trim;
    NothingIsWhitespace();
    TrimUnique("", EOF_MARKER, "\r");
    assert "" + EOF_MARKER + "\r" == CR_EOF;
    assert EOF_MARKER[4] == 'E' && ADD_FILE_MARKER[4] == 'A' && DELETE_FILE_MARKER[4] == 'D';
    assert UPDATE_FILE_MARKER[4] == 'U';
  }

  lemma {:induction false} HunksStripped(lines: seq<string>, n: nat, hunks: seq<Hunk>)
    requires HunksFrom(lines, n, hunks).Ok?
    ensures HunksFrom(StripCrs(lines), n, hunks) == HunksFrom(lines, n, hunks) <==> QuietHunks(lines, n)
    decreases |lines|
  {
    hide ParseHunk, QuietHunk, StripCr;
    if lines != [] {
      var r, q := ParseHunk(lines, n), ParseHunk(StripCrs(lines), n);
      var count := r.value.count;
      var rest := lines[count..];
      if count < |lines| && lines[count] == CR_EOF { SpoiledEofIsNoHeader(rest, n + count); }
      HunkStripped(lines, n);
      StrippedSlice(lines, count);
      if q.Ok? && q.value.value != r.value.value {
        OtherHunkDiffers(rest, StripCrs(lines)[q.value.count..], hunks, r.value.value, q.value.value,
                         n + count, n + q.value.count);
      } else if QuietHunk(lines, n) {
        HunksStripped(rest, n + count, hunks + [r.value.value]);
      }
    }
  }

  /** The stored text of a successful parse re-parses to the same hunks exactly when no text the
      parse took from a line ends in a carriage return and no chunk was ended by a lone one. */
  lemma {:induction false} StoredPatchFaithfulExactly(patch: string, mode: Mode)
    requires ParseText(patch, mode).Ok?
    ensures |Accepted(patch, mode)| >= 2
    ensures HunksOnly(ParseText(ParseText(patch, mode).value.patch, Strict)) == Ok(ParseText(patch, mode).value.hunks)
       <==> QuietHunks(Inside(Accepted(patch, mode)), 2)
  {
    hide Trim, Lines, Join, HunksFrom, ParseText, PatchLines, CheckBoundaries, QuietHunks, StripCrs;
    AcceptedFacts(patch, mode);
    StoredPatchMeans(patch, mode);
    HunksStripped(Inside(Accepted(patch, mode)), 2, []);
  }
}
