/** The documented grammar of a patch as a printer, and the round trip through the parser
    (`crates/apply-patch/src/parser.rs`, lines 4 to 21 and 155 to 435). */
module Printer {
  import opened Text
  import opened Patch
  import opened Parser

  // ---------------------------------------------------------------- a patch as written

  datatype ChangeLine = Keep(text: string) | Blank | Remove(text: string) | Insert(text: string)

  /** How a chunk is introduced: not at all, by `@@`, or by `@@ text`. */
  datatype Header = Bare | Empty | Context(text: string)

  datatype ChunkDoc = ChunkDoc(header: Header, changes: seq<ChangeLine>, atEof: bool)

  datatype HunkDoc =
    | AddDoc(path: string, lines: seq<string>)
    | DeleteDoc(path: string)
    | UpdateDoc(path: string, movePath: Option<string>, chunks: seq<ChunkDoc>)

  function PrintChange(c: ChangeLine): string {
    match c
    case Keep(t) => " " + t
    case Blank => ""
    case Remove(t) => "-" + t
    case Insert(t) => "+" + t
  }

  function PrintChanges(cs: seq<ChangeLine>): (r: seq<string>)
    ensures |r| == |cs|
  {
    if cs == [] then [] else [PrintChange(cs[0])] + PrintChanges(cs[1..])
  }

  function PrintHeader(h: Header): seq<string> {
    match h
    case Bare => []
    case Empty => [EMPTY_CHANGE_CONTEXT_MARKER]
    case Context(t) => [CHANGE_CONTEXT_MARKER + t]
  }

  function PrintEof(atEof: bool): seq<string> {
    if atEof then [EOF_MARKER] else []
  }

  function PrintChunk(d: ChunkDoc): seq<string> {
    PrintHeader(d.header) + PrintChanges(d.changes) + PrintEof(d.atEof)
  }

  function PrintChunks(ds: seq<ChunkDoc>): seq<string> {
    if ds == [] then [] else PrintChunk(ds[0]) + PrintChunks(ds[1..])
  }

  function PrintAdded(lines: seq<string>): (r: seq<string>)
    ensures |r| == |lines|
  {
    if lines == [] then [] else ["+" + lines[0]] + PrintAdded(lines[1..])
  }

  function PrintMove(movePath: Option<string>): seq<string> {
    if movePath.Some? then [MOVE_TO_MARKER + movePath.value] else []
  }

  function PrintHunk(d: HunkDoc): seq<string> {
    match d
    case AddDoc(path, lines) => [ADD_FILE_MARKER + path] + PrintAdded(lines)
    case DeleteDoc(path) => [DELETE_FILE_MARKER + path]
    case UpdateDoc(path, move, chunks) => [UPDATE_FILE_MARKER + path] + (PrintMove(move) + PrintChunks(chunks))
  }

  function PrintHunks(ds: seq<HunkDoc>): seq<string> {
    if ds == [] then [] else PrintHunk(ds[0]) + PrintHunks(ds[1..])
  }

  function PatchText(ds: seq<HunkDoc>): string {
    Join([BEGIN_PATCH_MARKER] + PrintHunks(ds) + [END_PATCH_MARKER], "\n")
  }

  // ---------------------------------------------------------------- what it stands for

  function OldOf(cs: seq<ChangeLine>): seq<string> {
    if cs == [] then []
    else
      (match cs[0] case Keep(t) => [t] case Blank => [""] case Remove(t) => [t] case Insert(_) => [])
      + OldOf(cs[1..])
  }

  function NewOf(cs: seq<ChangeLine>): seq<string> {
    if cs == [] then []
    else
      (match cs[0] case Keep(t) => [t] case Blank => [""] case Remove(_) => [] case Insert(t) => [t])
      + NewOf(cs[1..])
  }

  function ChunkOf(d: ChunkDoc): Chunk {
    Chunk(if d.header.Context? then Some(d.header.text) else None, OldOf(d.changes), NewOf(d.changes), d.atEof)
  }

  function ChunksOf(ds: seq<ChunkDoc>): seq<Chunk> {
    if ds == [] then [] else [ChunkOf(ds[0])] + ChunksOf(ds[1..])
  }

  /** The contents of a file with these lines. */
  function Unlines(lines: seq<string>): string {
    if lines == [] then "" else lines[0] + "\n" + Unlines(lines[1..])
  }

  function HunkOf(d: HunkDoc): Hunk {
    match d
    case AddDoc(path, lines) => AddFile(path, Unlines(lines))
    case DeleteDoc(path) => DeleteFile(path)
    case UpdateDoc(path, move, chunks) => UpdateFile(path, move, ChunksOf(chunks))
  }

  function HunksOf(ds: seq<HunkDoc>): seq<Hunk> {
    if ds == [] then [] else [HunkOf(ds[0])] + HunksOf(ds[1..])
  }

  // ---------------------------------------------------------------- well-formed

  /** A path the header line can carry: not empty, since the line is trimmed, and not ending in white space. */
  predicate GoodPath(path: string) {
    path != "" && !IsWhitespace(path[|path| - 1]) && '\n' !in path
  }

  predicate GoodChange(c: ChangeLine) {
    c.Blank? || PlainLine(c.text)
  }

  predicate GoodChunk(d: ChunkDoc) {
    && d.changes != []
    && (forall i :: 0 <= i < |d.changes| ==> GoodChange(d.changes[i]))
    && (d.header.Context? ==> PlainLine(d.header.text))
    // A chunk without a marker must not start with a line that looks like a separator.
    && (d.header.Bare? ==> Trim(PrintChange(d.changes[0])) != "")
  }

  /** Only the first chunk of an update may go without a marker. */
  predicate GoodChunks(ds: seq<ChunkDoc>) {
    forall i :: 0 <= i < |ds| ==> GoodChunk(ds[i]) && (i > 0 ==> !ds[i].header.Bare?)
  }

  predicate GoodHunk(d: HunkDoc) {
    && GoodPath(d.path)
    && match d
       case AddDoc(_, lines) => forall i :: 0 <= i < |lines| ==> PlainLine(lines[i])
       case DeleteDoc(_) => true
       case UpdateDoc(_, move, chunks) =>
         chunks != [] && GoodChunks(chunks) && (move.Some? ==> PlainLine(move.value))
  }

  predicate GoodPatch(ds: seq<HunkDoc>) {
    forall i :: 0 <= i < |ds| ==> GoodHunk(ds[i])
  }

  // ---------------------------------------------------------------- chunks

  function Extend(chunk: Chunk, cs: seq<ChangeLine>): Chunk {
    chunk.(oldLines := chunk.oldLines + OldOf(cs), newLines := chunk.newLines + NewOf(cs))
  }

  lemma PrintedChangeIsTaken(chunk: Chunk, c: ChangeLine)
    ensures PrintChange(c) != EOF_MARKER
    ensures TakeLine(chunk, PrintChange(c)) == Some(Extend(chunk, [c]))
  {
    assert EOF_MARKER[0] == '*';
    assert OldOf([c]) == (match c case Keep(t) => [t] case Blank => [""] case Remove(t) => [t] case Insert(_) => []);
    assert NewOf([c]) == (match c case Keep(t) => [t] case Blank => [""] case Remove(_) => [] case Insert(t) => [t]);
    assert chunk.oldLines + [] == chunk.oldLines && chunk.newLines + [] == chunk.newLines;
    var line := PrintChange(c);
    if !c.Blank? {
      assert line[1..] == c.text;
    }
  }

  lemma ExtendStep(chunk: Chunk, cs: seq<ChangeLine>)
    requires cs != []
    ensures Extend(Extend(chunk, [cs[0]]), cs[1..]) == Extend(chunk, cs)
  {
    assert [cs[0]][1..] == [];
    assert OldOf(cs) == OldOf([cs[0]]) + OldOf(cs[1..]);
    assert NewOf(cs) == NewOf([cs[0]]) + NewOf(cs[1..]);
    assert chunk.oldLines + OldOf([cs[0]]) + OldOf(cs[1..]) == chunk.oldLines + OldOf(cs);
    assert chunk.newLines + NewOf([cs[0]]) + NewOf(cs[1..]) == chunk.newLines + NewOf(cs);
  }

  /** Printed change lines are all taken into the chunk, whatever follows. */
  lemma {:induction false} ChangesAreTaken(cs: seq<ChangeLine>, tail: seq<string>, ln: nat, chunk: Chunk, parsed: nat)
    ensures ChunkBody(PrintChanges(cs) + tail, ln, chunk, parsed)
         == ChunkBody(tail, ln, Extend(chunk, cs), parsed + |cs|)
    decreases |cs|
  {
    if cs == [] {
      assert PrintChanges(cs) + tail == tail;
      assert chunk.oldLines + [] == chunk.oldLines && chunk.newLines + [] == chunk.newLines;
    } else {
      hide TakeLine, PrintChange, Extend;
      var lines := PrintChanges(cs) + tail;
      assert lines[0] == PrintChange(cs[0]);
      assert lines[1..] == PrintChanges(cs[1..]) + tail;
      PrintedChangeIsTaken(chunk, cs[0]);
      ChangesAreTaken(cs[1..], tail, ln, Extend(chunk, [cs[0]]), parsed + 1);
      ExtendStep(chunk, cs);
    }
  }

  /** A line at which a chunk that has lines ends: the next marker or the next hunk. */
  predicate StopLine(line: string) {
    line != EOF_MARKER && line != "" && (line[0] == '@' || line[0] == '*')
  }

  lemma BodyEnds(atEof: bool, rest: seq<string>, ln: nat, chunk: Chunk, parsed: nat)
    requires parsed > 0 && !chunk.isEndOfFile
    requires rest != [] ==> StopLine(rest[0])
    ensures ChunkBody(PrintEof(atEof) + rest, ln, chunk, parsed)
         == Ok(Parsed(chunk.(isEndOfFile := atEof), parsed + |PrintEof(atEof)|))
  {
    if !atEof {
      assert PrintEof(atEof) + rest == rest;
    } else {
      assert (PrintEof(atEof) + rest)[0] == EOF_MARKER;
    }
  }

  lemma BodyPrinted(d: ChunkDoc, rest: seq<string>, ln: nat, context: Option<string>)
    requires d.changes != []
    requires rest != [] ==> StopLine(rest[0])
    ensures ChunkBody(PrintChanges(d.changes) + (PrintEof(d.atEof) + rest), ln, Chunk(context, [], [], false), 0)
         == Ok(Parsed(Chunk(context, OldOf(d.changes), NewOf(d.changes), d.atEof), |d.changes| + |PrintEof(d.atEof)|))
  {
    hide ChunkBody, StopLine, OldOf, NewOf;
    var start := Chunk(context, [], [], false);
    ChangesAreTaken(d.changes, PrintEof(d.atEof) + rest, ln, start, 0);
    BodyEnds(d.atEof, rest, ln, Extend(start, d.changes), |d.changes|);
    assert [] + OldOf(d.changes) == OldOf(d.changes) && [] + NewOf(d.changes) == NewOf(d.changes);
  }

  lemma MarkerOfHeader(t: string)
    ensures ContextMarker(EMPTY_CHANGE_CONTEXT_MARKER) == Parsed(None, 1)
    ensures ContextMarker(CHANGE_CONTEXT_MARKER + t) == Parsed(Some(t), 1)
  {
    var line := CHANGE_CONTEXT_MARKER + t;
    assert |line| >= 3;
    assert line[3..] == t;
  }

  lemma NoMarkerInChange(c: ChangeLine)
    requires !c.Blank?
    ensures ContextMarker(PrintChange(c)) == Parsed(None, 0)
  {
    assert PrintChange(c)[0] != '@';
    assert EMPTY_CHANGE_CONTEXT_MARKER[0] == '@' && CHANGE_CONTEXT_MARKER[0] == '@';
  }

  lemma HeaderParsed(d: ChunkDoc, rest: seq<string>)
    requires GoodChunk(d)
    ensures var lines := PrintChunk(d) + rest;
            && lines != []
            && ContextMarker(lines[0]) == Parsed(ChunkOf(d).changeContext, |PrintHeader(d.header)|)
            && lines[|PrintHeader(d.header)|..] == PrintChanges(d.changes) + (PrintEof(d.atEof) + rest)
  {
    hide ContextMarker, Trim;
    var lines := PrintChunk(d) + rest;
    var body := PrintChanges(d.changes) + (PrintEof(d.atEof) + rest);
    assert lines == PrintHeader(d.header) + body;
    match d.header {
      case Bare =>
        assert lines[0] == PrintChange(d.changes[0]);
        if d.changes[0].Blank? { TrimIdentity(""); }
        NoMarkerInChange(d.changes[0]);
      case Empty =>
        MarkerOfHeader("");
      case Context(t) =>
        MarkerOfHeader(t);
    }
  }

  lemma ChunkPrinted(d: ChunkDoc, rest: seq<string>, ln: nat, allowMissing: bool)
    requires GoodChunk(d) && (d.header.Bare? ==> allowMissing)
    requires rest != [] ==> StopLine(rest[0])
    ensures ParseChunk(PrintChunk(d) + rest, ln, allowMissing) == Ok(Parsed(ChunkOf(d), |PrintChunk(d)|))
  {
    hide ContextMarker, ChunkBody, OldOf, NewOf, GoodChunk, StopLine;
    HeaderParsed(d, rest);
    assert d.changes != [] by { ChunkHasLines(d); }
    BodyPrinted(d, rest, ln, ChunkOf(d).changeContext);
    assert |PrintChunk(d)| == |PrintHeader(d.header)| + |d.changes| + |PrintEof(d.atEof)|;
  }

  lemma ChunkHasLines(d: ChunkDoc)
    requires GoodChunk(d)
    ensures d.changes != []
  {
  }

  // ---------------------------------------------------------------- hunks

  lemma {:induction false} TrimVisible(s: string)
    requires s != "" && !IsWhitespace(s[0])
    ensures Trim(s) != ""
  {
    hide IsWhitespace;
    var pre, post := TrimParts(s);
    WhitespaceConcat(pre, "");
    WhitespaceConcat(pre + "", post);
    assert !AllWhitespace(s);
  }

  /** The first line of a printed chunk is neither a separator nor a hunk header, and it
      ends the chunk before. */
  lemma FirstChunkLine(d: ChunkDoc)
    requires GoodChunk(d)
    ensures var lines := PrintChunk(d);
            && lines != [] && Trim(lines[0]) != "" && !StartsWith(lines[0], "***")
            && !StartsWith(lines[0], MOVE_TO_MARKER)
            && (!d.header.Bare? ==> StopLine(lines[0]))
  {
    hide Trim;
    HeaderParsed(d, []);
    var line := PrintChunk(d)[0];
    match d.header {
      case Bare =>
        assert line == PrintChange(d.changes[0]);
        if d.changes[0].Blank? { TrimIdentity(""); }
        assert line[0] != '*';
      case Empty =>
        TrimVisible(line);
      case Context(_) =>
        assert line[0] == '@';
        TrimVisible(line);
    }
    assert EOF_MARKER[0] == '*' && MOVE_TO_MARKER[0] == '*';
  }

  /** A line that starts the next hunk. */
  predicate HunkStart(line: string) {
    StartsWith(line, "***") && line != EOF_MARKER
  }

  lemma HunkStartStops(line: string)
    requires HunkStart(line)
    ensures StopLine(line) && Trim(line) != ""
  {
    hide Trim;
    assert line[0] == '*';
    TrimVisible(line);
  }

  lemma GoodChunksTail(ds: seq<ChunkDoc>)
    requires ds != [] && GoodChunks(ds)
    ensures GoodChunk(ds[0]) && GoodChunks(ds[1..])
    ensures |ds| > 1 ==> GoodChunk(ds[1..][0]) && !ds[1..][0].header.Bare?
  {
    hide GoodChunk;
    forall i | 0 <= i < |ds[1..]| ensures GoodChunk(ds[1..][i]) && !ds[1..][i].header.Bare? {
      assert ds[1..][i] == ds[i + 1];
    }
  }

  lemma NextLineStops(ds: seq<ChunkDoc>, rest: seq<string>)
    requires ds != [] ==> GoodChunk(ds[0]) && !ds[0].header.Bare?
    requires rest != [] ==> HunkStart(rest[0])
    ensures var lines := PrintChunks(ds) + rest; lines != [] ==> StopLine(lines[0])
  {
    hide GoodChunk, StopLine, HunkStart, PrintChunk;
    if ds != [] {
      FirstChunkLine(ds[0]);
      assert (PrintChunks(ds) + rest)[0] == PrintChunk(ds[0])[0];
    } else if rest != [] {
      HunkStartStops(rest[0]);
    }
  }

  lemma {:induction false} ChunksPrinted(ds: seq<ChunkDoc>, rest: seq<string>, ln: nat, chunks: seq<Chunk>, parsed: nat)
    requires GoodChunks(ds)
    requires ds != [] && ds[0].header.Bare? ==> chunks == []
    requires rest != [] ==> HunkStart(rest[0])
    ensures UpdateBody(PrintChunks(ds) + rest, ln, chunks, parsed)
         == Ok(Parsed(chunks + ChunksOf(ds), parsed + |PrintChunks(ds)|))
    decreases |ds|
  {
    hide GoodChunks, GoodChunk, StopLine, PrintChunk, ChunkOf, UpdateBody, HunkStart;
    if ds == [] {
      NoChunksPrinted(rest, ln, chunks, parsed);
    } else {
      var d, tail := ds[0], PrintChunks(ds[1..]) + rest;
      GoodChunksTail(ds);
      NextLineStops(ds[1..], rest);
      Reassociate(PrintChunk(d), PrintChunks(ds[1..]), rest);
      OneChunkTaken(d, tail, ln, chunks, parsed);
      ChunksPrinted(ds[1..], rest, ln, chunks + [ChunkOf(d)], parsed + |PrintChunk(d)|);
      Reassociate(chunks, [ChunkOf(d)], ChunksOf(ds[1..]));
    }
  }

  lemma NoChunksPrinted(rest: seq<string>, ln: nat, chunks: seq<Chunk>, parsed: nat)
    requires rest != [] ==> HunkStart(rest[0])
    ensures UpdateBody(PrintChunks([]) + rest, ln, chunks, parsed)
         == Ok(Parsed(chunks + ChunksOf([]), parsed + |PrintChunks([])|))
  {
    hide ParseChunk, Trim, StopLine;
    assert PrintChunks([]) + rest == rest;
    assert chunks + [] == chunks;
    if rest != [] { HunkStartStops(rest[0]); }
  }

  lemma OneChunkTaken(d: ChunkDoc, tail: seq<string>, ln: nat, chunks: seq<Chunk>, parsed: nat)
    requires GoodChunk(d) && (d.header.Bare? ==> chunks == [])
    requires tail != [] ==> StopLine(tail[0])
    ensures UpdateBody(PrintChunk(d) + tail, ln, chunks, parsed)
         == UpdateBody(tail, ln, chunks + [ChunkOf(d)], parsed + |PrintChunk(d)|)
  {
    hide GoodChunk, ParseChunk, Trim, StopLine, PrintChunk, ChunkOf;
    var lines := PrintChunk(d) + tail;
    FirstChunkLine(d);
    ChunkPrinted(d, tail, ln + parsed, chunks == []);
    assert lines[0] == PrintChunk(d)[0];
    assert lines[|PrintChunk(d)|..] == tail;
  }

  lemma {:induction false} AddedPrinted(lines: seq<string>, rest: seq<string>, contents: string, parsed: nat)
    requires rest != [] ==> HunkStart(rest[0])
    ensures AddBody(PrintAdded(lines) + rest, contents, parsed) == Parsed(contents + Unlines(lines), parsed + |lines|)
    decreases |lines|
  {
    var all := PrintAdded(lines) + rest;
    if lines == [] {
      assert all == rest;
      assert contents + "" == contents;
      if rest != [] { assert rest[0][0] == '*'; }
    } else {
      assert all[0] == "+" + lines[0];
      assert all[0][1..] == lines[0];
      assert all[1..] == PrintAdded(lines[1..]) + rest;
      AddedPrinted(lines[1..], rest, contents + lines[0] + "\n", parsed + 1);
      assert contents + lines[0] + "\n" + Unlines(lines[1..]) == contents + Unlines(lines);
    }
  }

  lemma AddHeader(path: string)
    requires GoodPath(path)
    ensures StripPrefix(Trim(ADD_FILE_MARKER + path), ADD_FILE_MARKER) == Some(path)
    ensures HunkStart(ADD_FILE_MARKER + path)
  {
    StartsHunk(ADD_FILE_MARKER, path);
  }

  lemma DeleteHeader(path: string)
    requires GoodPath(path)
    ensures var first := Trim(DELETE_FILE_MARKER + path);
            && StripPrefix(first, ADD_FILE_MARKER) == None
            && StripPrefix(first, DELETE_FILE_MARKER) == Some(path)
    ensures HunkStart(DELETE_FILE_MARKER + path)
  {
    var s := DELETE_FILE_MARKER + path;
    assert s[4] == 'D' && ADD_FILE_MARKER[4] == 'A';
    StartsHunk(DELETE_FILE_MARKER, path);
  }

  lemma UpdateHeader(path: string)
    requires GoodPath(path)
    ensures var first := Trim(UPDATE_FILE_MARKER + path);
            && StripPrefix(first, ADD_FILE_MARKER) == None
            && StripPrefix(first, DELETE_FILE_MARKER) == None
            && StripPrefix(first, UPDATE_FILE_MARKER) == Some(path)
    ensures HunkStart(UPDATE_FILE_MARKER + path)
  {
    var s := UPDATE_FILE_MARKER + path;
    assert s[4] == 'U' && ADD_FILE_MARKER[4] == 'A' && DELETE_FILE_MARKER[4] == 'D';
    StartsHunk(UPDATE_FILE_MARKER, path);
  }

  lemma StartsHunk(marker: string, path: string)
    requires |marker| > 4 && StartsWith(marker, "***") && marker[4] != 'E'
    ensures HunkStart(marker + path)
  {
    var s := marker + path;
    assert s[4] == marker[4] && EOF_MARKER[4] == 'E';
    assert s[0] == marker[0] && s[1] == marker[1] && s[2] == marker[2];
  }

  lemma UpdatePrinted(d: HunkDoc, rest: seq<string>, ln: nat)
    requires d.UpdateDoc? && GoodHunk(d)
    requires rest != [] ==> HunkStart(rest[0])
    ensures UpdateHunk(d.path, PrintMove(d.movePath) + PrintChunks(d.chunks) + rest, ln)
         == Ok(Parsed(HunkOf(d), |PrintHunk(d)|))
  {
    hide GoodChunks, GoodChunk, UpdateBody, HunkStart, PrintChunk, ChunkOf, StartsWith;
    var body := PrintChunks(d.chunks) + rest;
    var lines := PrintMove(d.movePath) + PrintChunks(d.chunks) + rest;
    assert lines == PrintMove(d.movePath) + body;
    MoveParsed(d, rest);
    var skip := |PrintMove(d.movePath)|;
    assert lines[skip..] == body;
    ChunksPrinted(d.chunks, rest, ln, [], skip + 1);
    assert [] + ChunksOf(d.chunks) == ChunksOf(d.chunks);
  }

  lemma MoveParsed(d: HunkDoc, rest: seq<string>)
    requires d.UpdateDoc? && GoodHunk(d)
    ensures MoveTo(PrintMove(d.movePath) + PrintChunks(d.chunks) + rest) == d.movePath
  {
    hide GoodChunks, GoodChunk, PrintChunk, PlainLine;
    var lines := PrintMove(d.movePath) + PrintChunks(d.chunks) + rest;
    if d.movePath.Some? {
      assert lines[0] == MOVE_TO_MARKER + d.movePath.value;
    } else {
      GoodChunksTail(d.chunks);
      FirstChunkLine(d.chunks[0]);
      assert lines[0] == PrintChunk(d.chunks[0])[0];
    }
  }

  lemma {:induction false} AddPrinted(header: string, path: string, added: seq<string>, rest: seq<string>, ln: nat)
    requires StripPrefix(Trim(header), ADD_FILE_MARKER) == Some(path)
    requires rest != [] ==> HunkStart(rest[0])
    ensures ParseHunk([header] + PrintAdded(added) + rest, ln)
         == Ok(Parsed(AddFile(path, Unlines(added)), 1 + |added|))
  {
    hide Trim, StripPrefix, HunkStart, AddBody, ParseHunk, PrintAdded, Unlines;
    var lines := [header] + PrintAdded(added) + rest;
    assert lines[0] == header && lines[1..] == PrintAdded(added) + rest;
    AddHunkParsed(lines, path, ln);
    AddedPrinted(added, rest, "", 1);
    assert "" + Unlines(added) == Unlines(added);
  }

  lemma {:induction false} AddHunkParsed(lines: seq<string>, path: string, ln: nat)
    requires lines != [] && StripPrefix(Trim(lines[0]), ADD_FILE_MARKER) == Some(path)
    ensures var body := AddBody(lines[1..], "", 1);
            ParseHunk(lines, ln) == Ok(Parsed(AddFile(path, body.value), body.count))
  {
    hide Trim, StripPrefix, AddBody, UpdateHunk;
  }

  lemma DeletePrinted(path: string, rest: seq<string>, ln: nat)
    requires GoodPath(path)
    ensures ParseHunk([DELETE_FILE_MARKER + path] + rest, ln) == Ok(Parsed(DeleteFile(path), 1))
  {
    hide Trim, StripPrefix, GoodPath, AddBody, UpdateHunk;
    DeleteHeader(path);
  }

  lemma UpdateHunkPrinted(d: HunkDoc, rest: seq<string>, ln: nat)
    requires d.UpdateDoc? && GoodHunk(d)
    requires rest != [] ==> HunkStart(rest[0])
    ensures ParseHunk(PrintHunk(d) + rest, ln) == Ok(Parsed(HunkOf(d), |PrintHunk(d)|))
  {
    hide Trim, StripPrefix, HunkStart, GoodPath, GoodChunks, PlainLine,
         AddBody, UpdateHunk, PrintMove, PrintChunks, HunkOf;
    var lines := PrintHunk(d) + rest;
    UpdateHeader(d.path);
    assert lines[1..] == PrintMove(d.movePath) + PrintChunks(d.chunks) + rest;
    UpdatePrinted(d, rest, ln);
  }

  /** One printed hunk is parsed back, whatever hunks follow. */
  lemma HunkPrinted(d: HunkDoc, rest: seq<string>, ln: nat)
    requires GoodHunk(d)
    requires rest != [] ==> HunkStart(rest[0])
    ensures PrintHunk(d) != [] && HunkStart(PrintHunk(d)[0])
    ensures ParseHunk(PrintHunk(d) + rest, ln) == Ok(Parsed(HunkOf(d), |PrintHunk(d)|))
  {
    hide ParseHunk, HunkStart, GoodPath, GoodChunks, PlainLine, PrintMove, PrintChunks, Trim, StripPrefix;
    match d {
      case AddDoc(path, added) =>
        AddHeader(path);
        AddPrinted(ADD_FILE_MARKER + path, path, added, rest, ln);
      case DeleteDoc(path) =>
        DeleteHeader(path);
        DeletePrinted(path, rest, ln);
      case UpdateDoc(path, _, _) =>
        UpdateHeader(path);
        UpdateHunkPrinted(d, rest, ln);
    }
  }

  lemma {:induction false} HunksPrinted(ds: seq<HunkDoc>, ln: nat, hunks: seq<Hunk>)
    requires GoodPatch(ds)
    ensures ds != [] ==> PrintHunks(ds) != [] && HunkStart(PrintHunks(ds)[0])
    ensures HunksFrom(PrintHunks(ds), ln, hunks) == Ok(hunks + HunksOf(ds))
    decreases |ds|
  {
    hide GoodHunk, ParseHunk, HunkStart, PrintHunk, HunkOf;
    if ds == [] {
      assert hunks + [] == hunks;
    } else {
      var d, rest := ds[0], PrintHunks(ds[1..]);
      HunksPrinted(ds[1..], ln + |PrintHunk(d)|, hunks + [HunkOf(d)]);
      HunkPrinted(d, rest, ln);
      assert (PrintHunk(d) + rest)[|PrintHunk(d)|..] == rest;
      assert hunks + [HunkOf(d)] + HunksOf(ds[1..]) == hunks + HunksOf(ds);
    }
  }

  // ---------------------------------------------------------------- the text

  predicate AllPlain(lines: seq<string>) {
    forall i :: 0 <= i < |lines| ==> PlainLine(lines[i])
  }

  lemma AllPlainConcat(a: seq<string>, b: seq<string>)
    requires AllPlain(a) && AllPlain(b)
    ensures AllPlain(a + b)
  {
    hide PlainLine;
  }

  lemma {:induction false} ChangesPlain(cs: seq<ChangeLine>)
    requires forall i :: 0 <= i < |cs| ==> GoodChange(cs[i])
    ensures AllPlain(PrintChanges(cs))
  {
    hide PlainLine;
    if cs != [] {
      ChangesPlain(cs[1..]);
      assert GoodChange(cs[0]);
      ChangePlain(cs[0]);
      AllPlainConcat([PrintChange(cs[0])], PrintChanges(cs[1..]));
    }
  }

  lemma ChangePlain(c: ChangeLine)
    requires GoodChange(c)
    ensures PlainLine(PrintChange(c))
  {
  }

  lemma ChunkPlain(d: ChunkDoc)
    requires GoodChunk(d)
    ensures AllPlain(PrintChunk(d))
  {
    ChangesPlain(d.changes);
    assert AllPlain(PrintHeader(d.header)) by { assert PlainLine(EMPTY_CHANGE_CONTEXT_MARKER); }
    assert AllPlain(PrintEof(d.atEof));
    hide PlainLine;
    AllPlainConcat(PrintHeader(d.header), PrintChanges(d.changes));
    AllPlainConcat(PrintHeader(d.header) + PrintChanges(d.changes), PrintEof(d.atEof));
  }

  lemma {:induction false} ChunksPlain(ds: seq<ChunkDoc>)
    requires GoodChunks(ds)
    ensures AllPlain(PrintChunks(ds))
  {
    hide GoodChunk, PlainLine, PrintChunk;
    if ds != [] {
      GoodChunksTail(ds);
      ChunksPlain(ds[1..]);
      ChunkPlain(ds[0]);
      AllPlainConcat(PrintChunk(ds[0]), PrintChunks(ds[1..]));
    }
  }

  lemma {:induction false} AddedPlain(lines: seq<string>)
    requires AllPlain(lines)
    ensures AllPlain(PrintAdded(lines))
  {
    if lines != [] {
      AddedPlain(lines[1..]);
      hide PlainLine;
      AllPlainConcat(["+" + lines[0]], PrintAdded(lines[1..]));
    }
  }

  lemma HunkPlain(d: HunkDoc)
    requires GoodHunk(d)
    ensures AllPlain(PrintHunk(d))
  {
    assert PlainLine(d.path);
    hide PlainLine, GoodChunks, GoodPath;
    match d {
      case AddDoc(path, lines) =>
        AddedPlain(lines);
        AllPlainConcat([ADD_FILE_MARKER + path], PrintAdded(lines));
      case DeleteDoc(_) =>
      case UpdateDoc(path, move, chunks) =>
        ChunksPlain(chunks);
        AllPlainConcat(PrintMove(move), PrintChunks(chunks));
        AllPlainConcat([UPDATE_FILE_MARKER + path], PrintMove(move) + PrintChunks(chunks));
    }
  }

  lemma {:induction false} HunksPlain(ds: seq<HunkDoc>)
    requires GoodPatch(ds)
    ensures AllPlain(PrintHunks(ds))
  {
    hide GoodHunk, PlainLine, PrintHunk;
    if ds != [] {
      HunksPlain(ds[1..]);
      HunkPlain(ds[0]);
      AllPlainConcat(PrintHunk(ds[0]), PrintHunks(ds[1..]));
    }
  }

  /** A text between the markers starts and ends with visible characters. */
  lemma TextTrimmed(first: string, mid: seq<string>, last: string)
    requires first != "" && !IsWhitespace(first[0])
    requires last != "" && !IsWhitespace(last[|last| - 1])
    ensures Trimmed(Join([first] + mid + [last], "\n"))
    ensures Trim(Join([first] + mid + [last], "\n")) == Join([first] + mid + [last], "\n")
  {
    hide Trim, IsWhitespace;
    var ls := [first] + mid + [last];
    var text := Join(ls, "\n");
    JoinConcat([first] + mid, [last], "\n");
    assert text == Join([first] + mid, "\n") + "\n" + last;
    assert text[|text| - 1] == last[|last| - 1];
    assert ls == [first] + (mid + [last]);
    JoinConcat([first], mid + [last], "\n");
    assert text[0] == first[0];
    TrimIdentity(text);
  }

  lemma MarkerLines()
    ensures PlainLine(BEGIN_PATCH_MARKER) && PlainLine(END_PATCH_MARKER)
    ensures Trim(BEGIN_PATCH_MARKER) == BEGIN_PATCH_MARKER && Trim(END_PATCH_MARKER) == END_PATCH_MARKER
    ensures !IsWhitespace(BEGIN_PATCH_MARKER[0]) && !IsWhitespace(END_PATCH_MARKER[|END_PATCH_MARKER| - 1])
  {
    hide Trim;
    TrimIdentity(BEGIN_PATCH_MARKER);
    TrimIdentity(END_PATCH_MARKER);
  }

  /** Printing any well-formed patch and parsing the text, in either mode, gives back the
      hunks it stands for and keeps the text itself. */
  lemma RoundTrip(ds: seq<HunkDoc>, mode: Mode)
    requires GoodPatch(ds)
    ensures ParseText(PatchText(ds), mode) == Ok(PatchArgs(HunksOf(ds), PatchText(ds)))
  {
    hide Trim, IsWhitespace, Lines, Join, PlainLine, GoodPatch, HunksFrom, PrintHunks;
    var mid := PrintHunks(ds);
    var ls := [BEGIN_PATCH_MARKER] + mid + [END_PATCH_MARKER];
    MarkerLines();
    TextTrimmed(BEGIN_PATCH_MARKER, mid, END_PATCH_MARKER);
    HunksPlain(ds);
    AllPlainConcat([BEGIN_PATCH_MARKER], mid);
    LinesJoin([BEGIN_PATCH_MARKER] + mid, END_PATCH_MARKER);
    assert CheckBoundaries(ls) == None;
    assert Inside(ls) == mid;
    HunksPrinted(ds, 2, []);
    assert [] + HunksOf(ds) == HunksOf(ds);
  }

  // ---------------------------------------------------------------- hunk values

  function RemoveAll(lines: seq<string>): seq<ChangeLine> {
    if lines == [] then [] else [Remove(lines[0])] + RemoveAll(lines[1..])
  }

  function InsertAll(lines: seq<string>): seq<ChangeLine> {
    if lines == [] then [] else [Insert(lines[0])] + InsertAll(lines[1..])
  }

  /** One way of writing a chunk: all old lines out, all new lines in. */
  function ChunkDocOf(c: Chunk): ChunkDoc {
    ChunkDoc(if c.changeContext.Some? then Context(c.changeContext.value) else Empty,
             RemoveAll(c.oldLines) + InsertAll(c.newLines), c.isEndOfFile)
  }

  function ChunkDocsOf(cs: seq<Chunk>): (r: seq<ChunkDoc>)
    ensures |r| == |cs|
    ensures forall i :: 0 <= i < |cs| ==> r[i] == ChunkDocOf(cs[i])
  {
    if cs == [] then [] else [ChunkDocOf(cs[0])] + ChunkDocsOf(cs[1..])
  }

  function HunkDocOf(h: Hunk): HunkDoc {
    match h
    case AddFile(path, contents) =>
      var pieces := Split(contents, '\n');
      AddDoc(path, pieces[..|pieces| - 1])
    case DeleteFile(path) => DeleteDoc(path)
    case UpdateFile(path, move, chunks) => UpdateDoc(path, move, ChunkDocsOf(chunks))
  }

  function HunkDocsOf(hs: seq<Hunk>): (r: seq<HunkDoc>)
    ensures |r| == |hs|
    ensures forall i :: 0 <= i < |hs| ==> r[i] == HunkDocOf(hs[i])
  {
    if hs == [] then [] else [HunkDocOf(hs[0])] + HunkDocsOf(hs[1..])
  }

  predicate PrintableChunk(c: Chunk) {
    && (c.oldLines != [] || c.newLines != [])
    && AllPlain(c.oldLines) && AllPlain(c.newLines)
    && (c.changeContext.Some? ==> PlainLine(c.changeContext.value))
  }

  /** Hunks that can be written down: contents of an added file are whole lines, an update has
      chunks and every chunk has lines. */
  predicate Printable(h: Hunk) {
    && GoodPath(h.path)
    && match h
       case AddFile(_, contents) =>
         && (contents == "" || contents[|contents| - 1] == '\n')
         && AllPlain(Split(contents, '\n'))
       case DeleteFile(_) => true
       case UpdateFile(_, move, chunks) =>
         && chunks != [] && (move.Some? ==> PlainLine(move.value))
         && forall i :: 0 <= i < |chunks| ==> PrintableChunk(chunks[i])
  }

  lemma {:induction false} RemoveAllMeans(lines: seq<string>, cs: seq<ChangeLine>)
    ensures OldOf(RemoveAll(lines) + cs) == lines + OldOf(cs)
    ensures NewOf(RemoveAll(lines) + cs) == NewOf(cs)
  {
    var all := RemoveAll(lines) + cs;
    if lines == [] {
      assert all == cs;
    } else {
      assert all[0] == Remove(lines[0]);
      assert all[1..] == RemoveAll(lines[1..]) + cs;
      RemoveAllMeans(lines[1..], cs);
    }
  }

  lemma {:induction false} InsertAllMeans(lines: seq<string>)
    ensures OldOf(InsertAll(lines)) == [] && NewOf(InsertAll(lines)) == lines
  {
    if lines != [] {
      InsertAllMeans(lines[1..]);
    }
  }

  lemma {:induction false} AllGood(lines: seq<string>)
    requires AllPlain(lines)
    ensures |RemoveAll(lines)| == |InsertAll(lines)| == |lines|
    ensures forall i :: 0 <= i < |lines| ==> GoodChange(RemoveAll(lines)[i]) && GoodChange(InsertAll(lines)[i])
  {
    hide PlainLine;
    if lines != [] {
      AllGood(lines[1..]);
    }
  }

  lemma {:induction false} ChunkDocMeans(c: Chunk)
    requires PrintableChunk(c)
    ensures GoodChunk(ChunkDocOf(c)) && ChunkOf(ChunkDocOf(c)) == c && !ChunkDocOf(c).header.Bare?
  {
    hide PlainLine, Trim;
    RemoveAllMeans(c.oldLines, InsertAll(c.newLines));
    InsertAllMeans(c.newLines);
    AllGood(c.oldLines);
    AllGood(c.newLines);
    assert c.oldLines + [] == c.oldLines;
  }

  lemma {:induction false} ChunkDocsMean(cs: seq<Chunk>)
    requires forall i :: 0 <= i < |cs| ==> PrintableChunk(cs[i])
    ensures GoodChunks(ChunkDocsOf(cs)) && ChunksOf(ChunkDocsOf(cs)) == cs
  {
    hide PrintableChunk, GoodChunk, ChunkDocOf, ChunkOf;
    if cs != [] {
      ChunkDocsMean(cs[1..]);
      ChunkDocMeans(cs[0]);
      forall i | 0 <= i < |cs| ensures GoodChunk(ChunkDocOf(cs[i])) && !ChunkDocOf(cs[i]).header.Bare? {
        ChunkDocMeans(cs[i]);
      }
    }
  }

  lemma {:induction false} UnlinesSplit(contents: string)
    requires contents == "" || contents[|contents| - 1] == '\n'
    ensures var pieces := Split(contents, '\n'); Unlines(pieces[..|pieces| - 1]) == contents
  {
    if contents != "" {
      var head, tail := contents[0], contents[1..];
      assert tail != "" ==> tail[|tail| - 1] == contents[|contents| - 1];
      UnlinesSplit(tail);
      UnlinesStep(head, tail);
      assert [head] + tail == contents;
    }
  }

  lemma UnlinesStep(head: char, tail: string)
    requires var pieces := Split(tail, '\n'); Unlines(pieces[..|pieces| - 1]) == tail
    requires tail == "" ==> head == '\n'
    ensures var pieces := Split([head] + tail, '\n'); Unlines(pieces[..|pieces| - 1]) == [head] + tail
  {
    var rest, pieces := Split(tail, '\n'), Split([head] + tail, '\n');
    assert ([head] + tail)[1..] == tail;
    var init := rest[..|rest| - 1];
    hide Split;
    if head == '\n' {
      assert pieces[..|pieces| - 1] == [""] + init;
      assert ([""] + init)[1..] == init;
      assert "" + "\n" + tail == [head] + tail;
    } else {
      assert init != [];
      var first := [head] + rest[0];
      assert pieces[..|pieces| - 1] == [first] + init[1..];
      UnlinesGrow(head, init);
    }
  }

  lemma UnlinesGrow(head: char, lines: seq<string>)
    requires lines != []
    ensures Unlines([[head] + lines[0]] + lines[1..]) == [head] + Unlines(lines)
  {
    assert ([[head] + lines[0]] + lines[1..])[1..] == lines[1..];
    assert ([head] + lines[0]) + "\n" + Unlines(lines[1..]) == [head] + (lines[0] + "\n" + Unlines(lines[1..]));
  }

  lemma HunkDocMeans(h: Hunk)
    requires Printable(h)
    ensures GoodHunk(HunkDocOf(h)) && HunkOf(HunkDocOf(h)) == h
  {
    hide PlainLine, GoodPath, PrintableChunk, GoodChunks, Split;
    match h {
      case AddFile(_, contents) => UnlinesSplit(contents);
      case DeleteFile(_) =>
      case UpdateFile(_, _, chunks) => ChunkDocsMean(chunks);
    }
  }

  lemma {:induction false} HunkDocsMean(hs: seq<Hunk>)
    requires forall i :: 0 <= i < |hs| ==> Printable(hs[i])
    ensures GoodPatch(HunkDocsOf(hs)) && HunksOf(HunkDocsOf(hs)) == hs
  {
    hide Printable, GoodHunk, HunkDocOf, HunkOf;
    if hs != [] {
      HunkDocsMean(hs[1..]);
      forall i | 0 <= i < |hs| ensures GoodHunk(HunkDocOf(hs[i])) {
        HunkDocMeans(hs[i]);
      }
      HunkDocMeans(hs[0]);
    }
  }

  /** Every list of printable hunks is the parse of its own printed text. */
  lemma HunksRoundTrip(hs: seq<Hunk>, mode: Mode)
    requires forall i :: 0 <= i < |hs| ==> Printable(hs[i])
    ensures ParseText(PatchText(HunkDocsOf(hs)), mode) == Ok(PatchArgs(hs, PatchText(HunkDocsOf(hs))))
  {
    hide Printable, GoodPatch, ParseText, PatchText;
    HunkDocsMean(hs);
    RoundTrip(HunkDocsOf(hs), mode);
  }
}
