/** From chunks to edits to new file contents (`compute_replacements` and
    `derive_new_contents_from_chunks` in `crates/apply-patch/src/lib.rs`). */
module Planner {
  import opened Text
  import opened Patch
  import opened Seek
  import opened Edits

  datatype PlanError = ContextNotFound(context: string) | LinesNotFound(oldLines: seq<string>)

  predicate EndsBlank(lines: seq<string>) {
    lines != [] && lines[|lines| - 1] == ""
  }

  function WithoutLast(lines: seq<string>): seq<string>
    requires lines != []
  {
    lines[..|lines| - 1]
  }

  /** The running index after the chunk's context line, if it has one, has been found. */
  function AfterContext(lines: seq<string>, chunk: Chunk, at: nat): Result<nat, PlanError> {
    if chunk.changeContext.None? then Ok(at)
    else
      var context := chunk.changeContext.value;
      var found := Seek.Seek(lines, [context], at, false);
      if found.Some? then Ok(found.value + 1) else Err(ContextNotFound(context))
  }

  /** Where lines that replace nothing go: the end, but before a final blank line. */
  function InsertionPoint(lines: seq<string>): nat {
    if EndsBlank(lines) then |lines| - 1 else |lines|
  }

  /** The edit for a chunk with old lines: found as they are or, failing that, without a
      final blank line on either side. */
  function Locate(lines: seq<string>, chunk: Chunk, at: nat): Result<Edit, PlanError>
    requires chunk.oldLines != []
  {
    match Seek.Seek(lines, chunk.oldLines, at, chunk.isEndOfFile)
    case Some(k) => Ok(Edit(k, |chunk.oldLines|, chunk.newLines))
    case None =>
      if EndsBlank(chunk.oldLines) then
        var pattern := WithoutLast(chunk.oldLines);
        var news := if EndsBlank(chunk.newLines) then WithoutLast(chunk.newLines) else chunk.newLines;
        match Seek.Seek(lines, pattern, at, chunk.isEndOfFile)
        case Some(k) => Ok(Edit(k, |pattern|, news))
        case None => Err(LinesNotFound(chunk.oldLines))
      else
        Err(LinesNotFound(chunk.oldLines))
  }

  /** One chunk: its edit and the running index after it. */
  function PlanChunk(lines: seq<string>, chunk: Chunk, at: nat): Result<(Edit, nat), PlanError> {
    match AfterContext(lines, chunk, at)
    case Err(e) => Err(e)
    case Ok(from) =>
      if chunk.oldLines == [] then
        Ok((Edit(InsertionPoint(lines), 0, chunk.newLines), from))
      else
        match Locate(lines, chunk, from)
        case Err(e) => Err(e)
        case Ok(edit) => Ok((edit, edit.End()))
  }

  /** All chunks, in patch order. */
  function PlanFrom(lines: seq<string>, chunks: seq<Chunk>, at: nat): Result<seq<Edit>, PlanError> {
    if chunks == [] then Ok([])
    else
      match PlanChunk(lines, chunks[0], at)
      case Err(e) => Err(e)
      case Ok((edit, next)) =>
        match PlanFrom(lines, chunks[1..], next)
        case Err(e) => Err(e)
        case Ok(rest) => Ok([edit] + rest)
  }

  function Plan(lines: seq<string>, chunks: seq<Chunk>): Result<seq<Edit>, PlanError> {
    match PlanFrom(lines, chunks, 0)
    case Err(e) => Err(e)
    case Ok(edits) => Ok(SortByStart(edits))
  }

  function Prepend(done: seq<Edit>, rest: Result<seq<Edit>, PlanError>): Result<seq<Edit>, PlanError> {
    match rest
    case Err(e) => Err(e)
    case Ok(edits) => Ok(done + edits)
  }

  /** `compute_replacements`: the loop over the chunks with its running line index. */
  method ComputeReplacements(lines: seq<string>, chunks: seq<Chunk>) returns (r: Result<seq<Edit>, PlanError>)
    ensures r == Plan(lines, chunks)
    ensures r.Ok? ==> Safe(r.value, |lines|) && InBounds(r.value, |lines|) && |r.value| == |chunks|
  {
    var edits: seq<Edit> := [];
    var lineIndex := 0;
    var i := 0;
    PrependNone(PlanFrom(lines, chunks, 0));
    assert chunks[0..] == chunks;
    while i < |chunks|
      invariant 0 <= i <= |chunks|
      invariant PlanFrom(lines, chunks, 0) == Prepend(edits, PlanFrom(lines, chunks[i..], lineIndex))
    {
      var step := LocateOne(lines, chunks[i], lineIndex);
      PlanStep(lines, chunks, i, lineIndex, edits);
      if step.Err? {
        return Err(step.error);
      }
      edits := edits + [step.value.0];
      lineIndex := step.value.1;
      i := i + 1;
    }
    PlanDone(lines, chunks, lineIndex, edits);
    PlanIsSafe(lines, chunks);
    return Ok(SortByStart(edits));
  }

  lemma PlanStep(lines: seq<string>, chunks: seq<Chunk>, i: nat, at: nat, done: seq<Edit>)
    requires i < |chunks|
    ensures var step := PlanChunk(lines, chunks[i], at);
            Prepend(done, PlanFrom(lines, chunks[i..], at))
            == if step.Err? then Err(step.error)
               else Prepend(done + [step.value.0], PlanFrom(lines, chunks[i + 1..], step.value.1))
  {
    assert chunks[i..][0] == chunks[i] && chunks[i..][1..] == chunks[i + 1..];
    var step := PlanChunk(lines, chunks[i], at);
    if step.Ok? {
      PrependOne(done, step.value.0, PlanFrom(lines, chunks[i + 1..], step.value.1));
    }
  }

  lemma PlanDone(lines: seq<string>, chunks: seq<Chunk>, at: nat, done: seq<Edit>)
    ensures Prepend(done, PlanFrom(lines, chunks[|chunks|..], at)) == Ok(done)
  {
    assert chunks[|chunks|..] == [];
    assert done + [] == done;
  }

  /** The body of that loop. */
  method LocateOne(lines: seq<string>, chunk: Chunk, at: nat) returns (r: Result<(Edit, nat), PlanError>)
    ensures r == PlanChunk(lines, chunk, at)
  {
    var context := SkipContext(lines, chunk, at);
    if context.Err? {
      return Err(context.error);
    }
    if chunk.oldLines == [] {
      return Ok((Edit(InsertionPoint(lines), 0, chunk.newLines), context.value));
    }
    var located := LocateChunk(lines, chunk, context.value);
    if located.Err? {
      return Err(located.error);
    }
    return Ok((located.value, located.value.End()));
  }

  method SkipContext(lines: seq<string>, chunk: Chunk, at: nat) returns (r: Result<nat, PlanError>)
    ensures r == AfterContext(lines, chunk, at)
  {
    if chunk.changeContext.None? {
      return Ok(at);
    }
    var found := SeekSequence(lines, [chunk.changeContext.value], at, false);
    if found.None? {
      return Err(ContextNotFound(chunk.changeContext.value));
    }
    return Ok(found.value + 1);
  }

  lemma PrependNone(rest: Result<seq<Edit>, PlanError>)
    ensures Prepend([], rest) == rest
  {
    if rest.Ok? {
      assert [] + rest.value == rest.value;
    }
  }

  lemma PrependOne(done: seq<Edit>, edit: Edit, rest: Result<seq<Edit>, PlanError>)
    ensures Prepend(done, Prepend([edit], rest)) == Prepend(done + [edit], rest)
  {
    if rest.Ok? {
      assert done + ([edit] + rest.value) == done + [edit] + rest.value;
    }
  }

  method LocateChunk(lines: seq<string>, chunk: Chunk, at: nat) returns (r: Result<Edit, PlanError>)
    requires chunk.oldLines != []
    ensures r == Locate(lines, chunk, at)
  {
    var pattern, news := chunk.oldLines, chunk.newLines;
    var found := SeekSequence(lines, pattern, at, chunk.isEndOfFile);
    if found.None? && EndsBlank(pattern) {
      pattern := WithoutLast(pattern);
      if EndsBlank(news) {
        news := WithoutLast(news);
      }
      found := SeekSequence(lines, pattern, at, chunk.isEndOfFile);
    }
    if found.Some? {
      return Ok(Edit(found.value, |pattern|, news));
    }
    return Err(LinesNotFound(chunk.oldLines));
  }

  // ---------------------------------------------------------------- safety, for every input

  lemma PlanChunkInBounds(lines: seq<string>, chunk: Chunk, at: nat)
    requires at <= |lines|
    ensures var r := PlanChunk(lines, chunk, at);
            r.Ok? ==> r.value.0.End() <= |lines| && r.value.1 <= |lines|
  {
    if chunk.changeContext.Some? {
      SeekInBounds(lines, [chunk.changeContext.value], at, false);
    }
    var r := AfterContext(lines, chunk, at);
    if r.Ok? && chunk.oldLines != [] {
      SeekInBounds(lines, chunk.oldLines, r.value, chunk.isEndOfFile);
      SeekInBounds(lines, WithoutLast(chunk.oldLines), r.value, chunk.isEndOfFile);
    }
  }

  lemma {:induction false} PlanFromInBounds(lines: seq<string>, chunks: seq<Chunk>, at: nat)
    requires at <= |lines|
    ensures var r := PlanFrom(lines, chunks, at);
            r.Ok? ==> InBounds(r.value, |lines|) && |r.value| == |chunks|
  {
    if chunks != [] {
      PlanChunkInBounds(lines, chunks[0], at);
      var first := PlanChunk(lines, chunks[0], at);
      if first.Ok? {
        PlanFromInBounds(lines, chunks[1..], first.value.1);
      }
    }
  }

  /** For all files and all chunks, overlapping or not: the planned edits lie inside the file
      and are sorted, which is all the editor needs to stay in bounds. */
  lemma PlanIsSafe(lines: seq<string>, chunks: seq<Chunk>)
    ensures var r := Plan(lines, chunks);
            r.Ok? ==> Safe(r.value, |lines|) && InBounds(r.value, |lines|) && |r.value| == |chunks|
  {
    PlanFromInBounds(lines, chunks, 0);
    var r := PlanFrom(lines, chunks, 0);
    if r.Ok? {
      SortSorts(r.value);
      SortKeepsBounds(r.value, |lines|);
    }
  }

  // ---------------------------------------------------------------- when the plan does not overlap

  /** Every chunk that has old lines is located at or after the running index. */
  predicate Forward(lines: seq<string>, chunks: seq<Chunk>, at: nat) {
    chunks == [] ||
    match AfterContext(lines, chunks[0], at)
    case Err(_) => true
    case Ok(from) =>
      match PlanChunk(lines, chunks[0], at)
      case Err(_) => true
      case Ok((edit, next)) =>
        (chunks[0].oldLines != [] ==> from <= edit.start) && Forward(lines, chunks[1..], next)
  }

  predicate HasPureAddition(chunks: seq<Chunk>) {
    exists i :: 0 <= i < |chunks| && chunks[i].oldLines == []
  }

  /** Only a file-ending chunk can be located behind the running index. */
  lemma {:induction false} ForwardWithoutEof(lines: seq<string>, chunks: seq<Chunk>, at: nat)
    requires at <= |lines|
    requires forall i :: 0 <= i < |chunks| ==> !chunks[i].isEndOfFile
    ensures Forward(lines, chunks, at)
  {
    if chunks != [] {
      var c := chunks[0];
      PlanChunkInBounds(lines, c, at);
      var from, first := AfterContext(lines, c, at), PlanChunk(lines, c, at);
      if first.Ok? {
        AfterContextMoves(lines, c, at);
        if c.oldLines != [] {
          SeekInBounds(lines, c.oldLines, from.value, false);
          SeekInBounds(lines, WithoutLast(c.oldLines), from.value, false);
        }
        ForwardWithoutEof(lines, chunks[1..], first.value.1);
      }
    }
  }

  lemma AfterContextMoves(lines: seq<string>, chunk: Chunk, at: nat)
    requires at <= |lines|
    ensures var r := AfterContext(lines, chunk, at);
            r.Ok? ==> at <= r.value <= |lines|
  {
    if chunk.changeContext.Some? {
      SeekInBounds(lines, [chunk.changeContext.value], at, false);
    }
  }

  /** Later edits stay at or after `at`, except additions, which go to the very end. */
  lemma {:induction false} LaterEdits(lines: seq<string>, chunks: seq<Chunk>, at: nat)
    requires at <= |lines|
    requires Forward(lines, chunks, at)
    requires !EndsBlank(lines) || !HasPureAddition(chunks)
    requires PlanFrom(lines, chunks, at).Ok?
    ensures var edits := PlanFrom(lines, chunks, at).value;
            forall i :: 0 <= i < |edits| ==> at <= edits[i].start
  {
    if chunks != [] {
      var c := chunks[0];
      AfterContextMoves(lines, c, at);
      PlanChunkInBounds(lines, c, at);
      var first := PlanChunk(lines, c, at).value;
      LaterEdits(lines, chunks[1..], first.1);
      assert at <= first.0.start;
      assert at <= first.1;
    }
  }

  /** The plan is free of overlaps when every located chunk is at or after the running index
      and additions cannot land in front of a final blank line. */
  lemma {:induction false} ForwardPlanIsCompatible(lines: seq<string>, chunks: seq<Chunk>, at: nat)
    requires at <= |lines|
    requires Forward(lines, chunks, at)
    requires !EndsBlank(lines) || !HasPureAddition(chunks)
    ensures var r := PlanFrom(lines, chunks, at);
            r.Ok? ==> AllCompatible(r.value)
  {
    var r := PlanFrom(lines, chunks, at);
    if chunks != [] && r.Ok? {
      PlanChunkInBounds(lines, chunks[0], at);
      var first := PlanChunk(lines, chunks[0], at).value;
      var rest := PlanFrom(lines, chunks[1..], first.1).value;
      ForwardPlanIsCompatible(lines, chunks[1..], first.1);
      LaterEdits(lines, chunks[1..], first.1);
      PlanFromInBounds(lines, chunks[1..], first.1);
      assert r.value[1..] == rest;
      AllCompatibleCons(r.value);
    }
  }

  /** The refinement: sorted, applied in reverse and in place, the plan is one left-to-right
      splice of the original file. */
  lemma PlannedEditsSplice(lines: seq<string>, chunks: seq<Chunk>)
    requires Plan(lines, chunks).Ok?
    requires Forward(lines, chunks, 0)
    requires !EndsBlank(lines) || !HasPureAddition(chunks)
    ensures var edits := Plan(lines, chunks).value;
            && Safe(edits, |lines|) && InBounds(edits, |lines|)
            && ApplyReversed(lines, edits) == Splice(lines, edits, 0)
  {
    PlanIsSafe(lines, chunks);
    ForwardPlanIsCompatible(lines, chunks, 0);
    SortedDisjointIffCompatible(PlanFrom(lines, chunks, 0).value);
    ReverseOrderIsSplice(lines, Plan(lines, chunks).value);
  }

  /** Exactly when: for a given plan, the splice is obtained whatever text the chunks put in
      if and only if the planned ranges are pairwise compatible. */
  lemma PlannedEditsSpliceExactly(lines: seq<string>, chunks: seq<Chunk>)
    requires Plan(lines, chunks).Ok?
    ensures AllCompatible(PlanFrom(lines, chunks, 0).value) <==> AlwaysSplices(lines, Plan(lines, chunks).value)
  {
    PlanIsSafe(lines, chunks);
    SortedDisjointIffCompatible(PlanFrom(lines, chunks, 0).value);
    SpliceExactlyWhenDisjoint(lines, Plan(lines, chunks).value);
  }

  // ---------------------------------------------------------------- the two ways to overlap

  lemma SeekSecondLine()
    ensures Seek.Seek(["a", "b"], ["b"], 0, false) == Some(1)
    ensures Seek.Seek(["a", "b"], ["a", "b"], 2, true) == Some(0)
    ensures Seek.Seek(["a", ""], ["a", ""], 0, false) == Some(0)
  {
    hide NormaliseChars, TrimEnd, TrimStart;
    var ab, blank := ["a", "b"], ["a", ""];
    assert "a"[0] != "b"[0];
    assert !LineMatches(Exact, ab[0 + 0], ["b"][0]);
    assert !MatchAt(Exact, ab, ["b"], 0);
    assert MatchAt(Exact, ab, ["b"], 1);
    assert FirstMatch(Exact, ab, ["b"], 1, 2) == Some(1);
    assert MatchAt(Exact, ab, ab, 0);
    assert MatchAt(Exact, blank, blank, 0);
  }

  /** A file-ending chunk ignores the running index, so it can cover lines an earlier chunk has
      replaced; the earlier chunk's text is then lost. */
  lemma {:induction false} EofChunkCanOverlap(c: string, x: string)
    ensures var lines := ["a", "b"];
            var chunks := [Chunk(None, ["b"], [c], false), Chunk(None, ["a", "b"], [x], true)];
            var edits := [Edit(0, 2, [x]), Edit(1, 1, [c])];
            && Plan(lines, chunks) == Ok(edits)
            && Safe(edits, 2) && InBounds(edits, 2)
            && ApplyReversed(lines, edits) == [x]
            && Splice(lines, edits, 0) == [x, c]
  {
    hide Seek.Seek;
    SeekSecondLine();
    var lines := ["a", "b"];
    var first, second := Chunk(None, ["b"], [c], false), Chunk(None, ["a", "b"], [x], true);
    PlanTwo(lines, first, second, Edit(1, 1, [c]), 2, Edit(0, 2, [x]), 2);
    var edits := [Edit(0, 2, [x]), Edit(1, 1, [c])];
    assert edits[1..] == [Edit(1, 1, [c])] && edits[1..][1..] == [];
    assert ApplyReversed(lines, edits[1..]) == ["a", c];
    assert Splice(lines, edits[1..][1..], 2) == [];
    assert Splice(lines, edits[1..], 2) == [c];
  }

  /** Added lines go in front of a final blank line, which another chunk may replace. */
  lemma {:induction false} AdditionCanOverlap(b: string, n: string)
    ensures var lines := ["a", ""];
            var chunks := [Chunk(None, ["a", ""], [b], false), Chunk(None, [], [n], false)];
            var edits := [Edit(0, 2, [b]), Edit(1, 0, [n])];
            && Plan(lines, chunks) == Ok(edits)
            && Safe(edits, 2) && InBounds(edits, 2)
            && ApplyReversed(lines, edits) == [b, ""]
            && Splice(lines, edits, 0) == [b, n]
  {
    hide Seek.Seek;
    SeekSecondLine();
    var lines := ["a", ""];
    var first, second := Chunk(None, ["a", ""], [b], false), Chunk(None, [], [n], false);
    PlanTwo(lines, first, second, Edit(0, 2, [b]), 2, Edit(1, 0, [n]), 2);
    var edits := [Edit(0, 2, [b]), Edit(1, 0, [n])];
    assert edits[1..] == [Edit(1, 0, [n])] && edits[1..][1..] == [];
    assert ApplyReversed(lines, edits[1..]) == ["a", n, ""];
    assert Splice(lines, edits[1..][1..], 2) == [];
    assert Splice(lines, edits[1..], 2) == [n];
  }

  lemma {:induction false} PlanTwo(
      lines: seq<string>, first: Chunk, second: Chunk, a: Edit, afterA: nat, b: Edit, afterB: nat)
    requires PlanChunk(lines, first, 0) == Ok((a, afterA))
    requires PlanChunk(lines, second, afterA) == Ok((b, afterB))
    ensures PlanFrom(lines, [first, second], 0) == Ok([a, b])
    ensures Plan(lines, [first, second]) == Ok(if a.start <= b.start then [a, b] else [b, a])
  {
    hide PlanChunk;
    var chunks := [first, second];
    assert chunks[1..] == [second] && chunks[1..][1..] == [];
    assert PlanFrom(lines, chunks[1..][1..], afterB) == Ok([]);
    assert PlanFrom(lines, chunks[1..], afterA) == Ok([b] + []);
    assert [b] + [] == [b] && [a] + [b] == [a, b];
    assert [a, b][1..] == [b] && [b][1..] == [];
    assert SortByStart([b]) == [b];
    assert Insert(a, [b]) == if a.start <= b.start then [a, b] else [b, a];
  }

  // ---------------------------------------------------------------- new contents

  /** The lines of a file; the empty piece after a final newline is not one. */
  function FileLines(contents: string): seq<string> {
    var lines := Split(contents, '\n');
    if EndsBlank(lines) then WithoutLast(lines) else lines
  }

  /** The text of a list of lines, with a final newline. */
  function FileText(lines: seq<string>): string {
    Join(if EndsBlank(lines) then lines else lines + [""], "\n")
  }

  function NewContents(contents: string, chunks: seq<Chunk>): Result<string, PlanError> {
    var lines := FileLines(contents);
    match Plan(lines, chunks)
    case Err(e) => Err(e)
    case Ok(edits) =>
      PlanIsSafe(lines, chunks);
      Ok(FileText(ApplyReversed(lines, edits)))
  }

  /** `derive_new_contents_from_chunks`, from the contents read. */
  method DeriveNewContents(contents: string, chunks: seq<Chunk>) returns (r: Result<string, PlanError>)
    ensures r == NewContents(contents, chunks)
    ensures r.Ok? ==> r.value == "" || EndsWith(r.value, "\n")
  {
    var lines := Split(contents, '\n');
    if EndsBlank(lines) {
      lines := WithoutLast(lines);
    }
    var plan := ComputeReplacements(lines, chunks);
    if plan.Err? {
      return Err(plan.error);
    }
    var newLines := ApplyReplacements(lines, plan.value);
    TextEndsWithNewline(newLines);
    if !EndsBlank(newLines) {
      newLines := newLines + [""];
    }
    return Ok(Join(newLines, "\n"));
  }

  /** A file written by an update is empty or ends in a newline. */
  lemma TextEndsWithNewline(lines: seq<string>)
    ensures FileText(lines) == "" || EndsWith(FileText(lines), "\n")
  {
    var ls := if EndsBlank(lines) then lines else lines + [""];
    if |ls| > 1 {
      var init := WithoutLast(ls);
      assert ls == init + [""];
      JoinConcat(init, [""], "\n");
      var text := Join(init, "\n") + "\n" + Join([""], "\n");
      assert text == Join(init, "\n") + "\n";
      assert text[|text| - 1..] == "\n";
    }
  }

  predicate OneFinalNewline(contents: string) {
    contents == "" ||
    (EndsWith(contents, "\n") && contents != "\n" && !EndsWith(contents, "\n\n"))
  }

  /** Edits that put back what they take out leave the file as it was exactly when it was
      empty or ended in one newline that follows something else. */
  lemma NoOpKeepsFileExactly(contents: string, chunks: seq<Chunk>)
    requires var lines := FileLines(contents);
             && Plan(lines, chunks).Ok?
             && forall i :: 0 <= i < |Plan(lines, chunks).value| ==> Identity(lines, Plan(lines, chunks).value[i])
    ensures NewContents(contents, chunks) == Ok(contents) <==> OneFinalNewline(contents)
  {
    var lines := FileLines(contents);
    PlanIsSafe(lines, chunks);
    IdentityEdits(lines, Plan(lines, chunks).value);
    TextOfLines(contents);
  }

  /** The chunk that replaces one line. */
  function OneLine(line: string, news: seq<string>): Chunk {
    Chunk(None, [line], news, false)
  }

  lemma {:induction false} PlanFirstLine(lines: seq<string>, line: string, news: seq<string>)
    requires lines != [] && lines[0] == line
    ensures Plan(lines, [OneLine(line, news)]) == Ok([Edit(0, 1, news)])
  {
    var chunk, edit := OneLine(line, news), Edit(0, 1, news);
    assert MatchAt(Exact, lines, [line], 0);
    assert FirstMatch(Exact, lines, [line], 0, |lines|) == Some(0);
    assert Seek.Seek(lines, [line], 0, false) == Some(0);
    hide Seek.Seek;
    assert PlanChunk(lines, chunk, 0) == Ok((edit, 1));
    assert [chunk][1..] == [] && PlanFrom(lines, [chunk][1..], 1) == Ok([]);
    assert PlanFrom(lines, [chunk], 0) == Ok([edit] + []);
    assert [edit] + [] == [edit] && [edit][1..] == [];
    assert SortByStart([edit]) == [edit];
  }

  lemma {:induction false} ReplaceFirstLine(lines: seq<string>, news: seq<string>)
    requires lines != []
    ensures ApplyReversed(lines, [Edit(0, 1, news)]) == news + lines[1..]
  {
    var edits := [Edit(0, 1, news)];
    assert edits[1..] == [];
    assert ApplyReversed(lines, edits[1..]) == lines;
    assert lines[..0] + news + lines[1..] == news + lines[1..];
  }

  /** A file of one line, replaced by another. */
  lemma {:induction false} OneLineUpdate(line: string, other: string)
    requires '\n' !in line && other != ""
    ensures NewContents(line + "\n", [OneLine(line, [other])]) == Ok(other + "\n")
  {
    hide Split, Plan, ApplyReversed;
    SplitHead(line, "", '\n');
    SplitWhole("", '\n');
    assert line + ['\n'] + "" == line + "\n";
    assert Split(line + "\n", '\n') == [line, ""];
    var lines := [line];
    assert FileLines(line + "\n") == lines;
    PlanFirstLine(lines, line, [other]);
    ReplaceFirstLine(lines, [other]);
    assert lines[1..] == [] && [other] + [] == [other];
    assert [other] + [""] == [other, ""] && [other, ""][1..] == [""] && Join([""], "\n") == "";
    assert FileText([other]) == other + "\n" + "" == other + "\n";
  }

  /** A file that ends in a blank line loses that line to a chunk that replaces another line by
      itself. */
  lemma {:induction false} NoOpLosesBlankLine(line: string)
    requires '\n' !in line
    ensures NewContents(line + "\n\n", [OneLine(line, [line])]) == Ok(line + "\n")
    ensures line + "\n" != line + "\n\n"
  {
    hide Split, Plan, ApplyReversed;
    SplitHead(line, "\n", '\n');
    SplitHead("", "", '\n');
    SplitWhole("", '\n');
    assert line + ['\n'] + "\n" == line + "\n\n" && "" + ['\n'] + "" == "\n";
    var lines := [line, ""];
    assert Split(line + "\n\n", '\n') == [line, "", ""];
    assert FileLines(line + "\n\n") == lines;
    PlanFirstLine(lines, line, [line]);
    ReplaceFirstLine(lines, [line]);
    assert lines[1..] == [""] && [line] + [""] == lines && Join([""], "\n") == "";
    assert Join(lines, "\n") == line + "\n" + "" == line + "\n";
    assert EndsBlank(lines) && FileText(lines) == Join(lines, "\n");
    assert |line + "\n"| != |line + "\n\n"|;
  }

  lemma LastPiece(s: string)
    ensures var parts := Split(s, '\n'); |parts| == 1 ==> s == parts[0]
    ensures var parts := Split(s, '\n');
            |parts| > 1 ==> s == Join(WithoutLast(parts), "\n") + "\n" + parts[|parts| - 1]
  {
    var parts := Split(s, '\n');
    JoinSplit(s, '\n');
    if |parts| > 1 {
      var last := parts[|parts| - 1];
      assert parts == WithoutLast(parts) + [last];
      JoinConcat(WithoutLast(parts), [last], "\n");
    }
  }

  lemma TextOfLines(contents: string)
    ensures FileText(FileLines(contents)) == contents <==> OneFinalNewline(contents)
  {
    var parts := Split(contents, '\n');
    var last := parts[|parts| - 1];
    LastPiece(contents);
    JoinSplit(contents, '\n');
    SplitPieces(contents, '\n', |parts| - 1);
    if last != "" {
      MissingNewline(contents, parts);
    } else if |parts| > 1 {
      FinalNewline(contents, parts);
    } else {
      assert FileLines(contents) == [];
      assert [] + [""] == [""];
    }
  }

  lemma MissingNewline(contents: string, parts: seq<string>)
    requires parts != [] && parts[|parts| - 1] != "" && '\n' !in parts[|parts| - 1]
    requires contents == Join(parts, "\n")
    ensures FileText(parts) == contents + "\n"
    ensures contents != "" && !EndsWith(contents, "\n")
  {
    assert FileText(parts) == contents + "\n" by {
      JoinConcat(parts, [""], "\n");
      assert Join(parts, "\n") + "\n" + "" == contents + "\n";
    }
    var front := JoinEndsWithLast(parts);
    NoNewlineAtEnd(front, parts[|parts| - 1]);
  }

  lemma NoNewlineAtEnd(front: string, last: string)
    requires last != "" && '\n' !in last
    ensures front + last != "" && !EndsWith(front + last, "\n")
  {
    var s := front + last;
    assert s[|s| - 1] == last[|last| - 1];
    assert s[|s| - 1..][0] == s[|s| - 1];
  }

  lemma JoinEndsWithLast(parts: seq<string>) returns (front: string)
    requires parts != []
    ensures Join(parts, "\n") == front + parts[|parts| - 1]
  {
    if |parts| == 1 {
      front := "";
    } else {
      var init, last := WithoutLast(parts), parts[|parts| - 1];
      assert parts == init + [last];
      JoinConcat(init, [last], "\n");
      front := Join(init, "\n") + "\n";
    }
  }

  lemma FinalNewline(contents: string, parts: seq<string>)
    requires parts == Split(contents, '\n') && |parts| > 1 && parts[|parts| - 1] == ""
    requires contents == Join(WithoutLast(parts), "\n") + "\n" + ""
    ensures FileText(WithoutLast(parts)) == contents <==> OneFinalNewline(contents)
  {
    hide Join;
    JoinOne("");
    var init := WithoutLast(parts);
    var body := Join(init, "\n");
    assert contents == body + "\n";
    var last := init[|init| - 1];
    SplitPieces(contents, '\n', |parts| - 2);
    if last == "" {
      assert FileText(init) == body;
      if |init| > 1 {
        assert init == WithoutLast(init) + [""];
        JoinConcat(WithoutLast(init), [""], "\n");
        assert body == Join(WithoutLast(init), "\n") + "\n";
        assert contents[|contents| - 2..] == "\n\n";
      }
    } else {
      JoinConcat(init, [""], "\n");
      assert FileText(init) == contents;
      MissingNewline(body, init);
      assert contents[|contents| - 1..] == "\n";
      assert body != "" && body[|body| - 1..] != "\n";
      assert contents[|contents| - 2] == body[|body| - 1];
      assert body[|body| - 1..] == [body[|body| - 1]];
    }
  }
}
