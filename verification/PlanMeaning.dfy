/** What a planned edit means, without the order in which the planner searches
    (`compute_replacements` in `crates/apply-patch/src/lib.rs`, lines 394 to 482). */
module PlanMeaning {
  import opened Text
  import opened Patch
  import opened Seek
  import opened Edits
  import opened Planner

  // ---------------------------------------------------------------- the locator is determined

  lemma BestMatchesAgree(
      lines: seq<string>, pattern: seq<string>, start: nat, eof: bool, s: Tier, t: Tier, j: nat, k: nat)
    requires BestMatch(lines, pattern, start, eof, s, j) && BestMatch(lines, pattern, start, eof, t, k)
    ensures j == k
  {
    hide MatchAt, InRange;
    assert HasMatch(s, lines, pattern, start, eof) && HasMatch(t, lines, pattern, start, eof);
    assert s.Rank() == t.Rank();
    assert s == t;
  }

  lemma BestIsLoose(lines: seq<string>, pattern: seq<string>, start: nat, eof: bool, tier: Tier, k: nat)
    requires BestMatch(lines, pattern, start, eof, tier, k)
    ensures MatchAt(Normalised, lines, pattern, k) && HasMatch(Normalised, lines, pattern, start, eof)
  {
    hide LineMatches;
    TiersNested(tier, Normalised, lines, pattern, k);
  }

  /** The contract leaves the locator no choice. */
  lemma LocatedExactly(lines: seq<string>, pattern: seq<string>, start: nat, eof: bool, r: Option<nat>)
    requires pattern != []
    ensures Located(lines, pattern, start, eof, r) <==> r == Seek.Seek(lines, pattern, start, eof)
  {
    hide Seek.Seek, MatchAt, InRange, BestMatch, HasMatch;
    var found := Seek.Seek(lines, pattern, start, eof);
    SeekIsLocated(lines, pattern, start, eof);
    if Located(lines, pattern, start, eof, r) {
      if r.Some? {
        var s :| BestMatch(lines, pattern, start, eof, s, r.value);
        BestIsLoose(lines, pattern, start, eof, s, r.value);
        var t :| BestMatch(lines, pattern, start, eof, t, found.value);
        BestMatchesAgree(lines, pattern, start, eof, s, t, r.value, found.value);
      }
    }
  }

  // ---------------------------------------------------------------- one chunk

  /** The search goes on after the best match of the context line, if there is one. */
  ghost predicate ContextFound(lines: seq<string>, chunk: Chunk, at: nat, from: nat) {
    match chunk.changeContext
    case None => from == at
    case Some(context) => from > 0 && Located(lines, [context], at, false, Some(from - 1))
  }

  /** Old lines found as written. */
  ghost predicate FoundWhole(lines: seq<string>, chunk: Chunk, from: nat, edit: Edit) {
    && Located(lines, chunk.oldLines, from, chunk.isEndOfFile, Some(edit.start))
    && edit == Edit(edit.start, |chunk.oldLines|, chunk.newLines)
  }

  function WithoutFinalBlank(lines: seq<string>): seq<string> {
    if EndsBlank(lines) then WithoutLast(lines) else lines
  }

  /** Old lines that occur nowhere as written, found without their final blank line. */
  ghost predicate FoundShortened(lines: seq<string>, chunk: Chunk, from: nat, edit: Edit)
    requires chunk.oldLines != []
  {
    && EndsBlank(chunk.oldLines)
    && !HasMatch(Normalised, lines, chunk.oldLines, from, chunk.isEndOfFile)
    && edit == Edit(edit.start, |chunk.oldLines| - 1, WithoutFinalBlank(chunk.newLines))
    && if |chunk.oldLines| == 1 then edit.start == from
       else Located(lines, WithoutLast(chunk.oldLines), from, chunk.isEndOfFile, Some(edit.start))
  }

  /** The edit and the next running index that a chunk stands for. */
  ghost predicate Planned(lines: seq<string>, chunk: Chunk, at: nat, edit: Edit, next: nat) {
    if chunk.oldLines == [] then
      ContextFound(lines, chunk, at, next) && edit == Edit(InsertionPoint(lines), 0, chunk.newLines)
    else
      && next == edit.End()
      && exists from: nat ::
           ContextFound(lines, chunk, at, from)
           && (FoundWhole(lines, chunk, from, edit) || FoundShortened(lines, chunk, from, edit))
  }

  lemma ContextExactly(lines: seq<string>, chunk: Chunk, at: nat, from: nat)
    ensures ContextFound(lines, chunk, at, from) <==> AfterContext(lines, chunk, at) == Ok(from)
  {
    hide Seek.Seek, Located;
    if chunk.changeContext.Some? && from > 0 {
      LocatedExactly(lines, [chunk.changeContext.value], at, false, Some(from - 1));
    }
  }

  lemma LocateExactly(lines: seq<string>, chunk: Chunk, from: nat, edit: Edit)
    requires chunk.oldLines != []
    ensures (FoundWhole(lines, chunk, from, edit) || FoundShortened(lines, chunk, from, edit))
       <==> Locate(lines, chunk, from) == Ok(edit)
  {
    hide Seek.Seek, Located, HasMatch;
    var pattern, eof := chunk.oldLines, chunk.isEndOfFile;
    LocatedExactly(lines, pattern, from, eof, Some(edit.start));
    SeekIsLocated(lines, pattern, from, eof);
    if EndsBlank(pattern) {
      SeekIsLocated(lines, WithoutLast(pattern), from, eof);
      if |pattern| > 1 {
        LocatedExactly(lines, WithoutLast(pattern), from, eof, Some(edit.start));
      }
    }
  }

  /** The planner makes an edit out of a chunk exactly when the chunk stands for that edit. */
  lemma PlanChunkExactly(lines: seq<string>, chunk: Chunk, at: nat, edit: Edit, next: nat)
    ensures PlanChunk(lines, chunk, at) == Ok((edit, next)) <==> Planned(lines, chunk, at, edit, next)
  {
    hide AfterContext, Locate, ContextFound, FoundWhole, FoundShortened, InsertionPoint;
    ContextExactly(lines, chunk, at, next);
    var context := AfterContext(lines, chunk, at);
    if chunk.oldLines != [] {
      if context.Ok? {
        ContextExactly(lines, chunk, at, context.value);
        LocateExactly(lines, chunk, context.value, edit);
      }
      if Planned(lines, chunk, at, edit, next) {
        var from: nat :| ContextFound(lines, chunk, at, from)
          && (FoundWhole(lines, chunk, from, edit) || FoundShortened(lines, chunk, from, edit));
        ContextExactly(lines, chunk, at, from);
        LocateExactly(lines, chunk, from, edit);
      }
    }
  }

  /** And it gives up exactly when the context line, or the old lines in both their forms, have
      no match even when compared most permissively. */
  lemma PlanChunkFailsExactly(lines: seq<string>, chunk: Chunk, at: nat)
    ensures var r := PlanChunk(lines, chunk, at);
            r.Err? && r.error.ContextNotFound? <==>
            chunk.changeContext.Some? && !HasMatch(Normalised, lines, [chunk.changeContext.value], at, false)
    ensures var r := PlanChunk(lines, chunk, at);
            r.Err? && r.error.LinesNotFound? <==>
            exists from: nat :: ContextFound(lines, chunk, at, from)
              && chunk.oldLines != []
              && !HasMatch(Normalised, lines, chunk.oldLines, from, chunk.isEndOfFile)
              && (EndsBlank(chunk.oldLines) ==>
                    |chunk.oldLines| > 1
                    && !HasMatch(Normalised, lines, WithoutLast(chunk.oldLines), from, chunk.isEndOfFile))
  {
    hide Seek.Seek, HasMatch, ContextFound;
    if chunk.changeContext.Some? {
      SeekIsLocated(lines, [chunk.changeContext.value], at, false);
    }
    forall from: nat | ContextFound(lines, chunk, at, from) ensures AfterContext(lines, chunk, at) == Ok(from) {
      ContextExactly(lines, chunk, at, from);
    }
    var context := AfterContext(lines, chunk, at);
    if context.Ok? {
      ContextExactly(lines, chunk, at, context.value);
      if chunk.oldLines != [] {
        SeekIsLocated(lines, chunk.oldLines, context.value, chunk.isEndOfFile);
        if EndsBlank(chunk.oldLines) {
          SeekIsLocated(lines, WithoutLast(chunk.oldLines), context.value, chunk.isEndOfFile);
        }
      }
    }
  }

  /** The error tells the line or lines that were sought. */
  lemma PlanErrorTells(lines: seq<string>, chunk: Chunk, at: nat)
    ensures var r := PlanChunk(lines, chunk, at);
            r.Err? ==>
              || (chunk.changeContext.Some? && r.error == ContextNotFound(chunk.changeContext.value))
              || r.error == LinesNotFound(chunk.oldLines)
  {
    hide Seek.Seek;
  }

  // ---------------------------------------------------------------- the whole plan

  /** Chunk after chunk, each starting where the one before left off. */
  ghost predicate PlannedAll(lines: seq<string>, chunks: seq<Chunk>, at: nat, edits: seq<Edit>) {
    if chunks == [] then edits == []
    else edits != [] && exists next: nat ::
      Planned(lines, chunks[0], at, edits[0], next) && PlannedAll(lines, chunks[1..], next, edits[1..])
  }

  lemma {:induction false} PlanFromExactly(lines: seq<string>, chunks: seq<Chunk>, at: nat, edits: seq<Edit>)
    ensures PlanFrom(lines, chunks, at) == Ok(edits) <==> PlannedAll(lines, chunks, at, edits)
    decreases |chunks|
  {
    hide PlanChunk, Planned;
    if chunks != [] {
      var first := PlanChunk(lines, chunks[0], at);
      if PlanFrom(lines, chunks, at) == Ok(edits) {
        var next := first.value.1;
        assert edits[1..] == PlanFrom(lines, chunks[1..], next).value;
        PlanChunkExactly(lines, chunks[0], at, edits[0], next);
        PlanFromExactly(lines, chunks[1..], next, edits[1..]);
      }
      if PlannedAll(lines, chunks, at, edits) {
        var next: nat :|
          Planned(lines, chunks[0], at, edits[0], next) && PlannedAll(lines, chunks[1..], next, edits[1..]);
        PlanChunkExactly(lines, chunks[0], at, edits[0], next);
        PlanFromExactly(lines, chunks[1..], next, edits[1..]);
        assert edits == [edits[0]] + edits[1..];
      }
    }
  }

  /** The lines an edit takes out are the chunk's old lines, up to typography and surrounding
      white space and perhaps without a final blank line. */
  predicate Replaces(lines: seq<string>, chunk: Chunk, edit: Edit) {
    || (edit.oldLen == |chunk.oldLines| && MatchAt(Normalised, lines, chunk.oldLines, edit.start)
        && edit.newLines == chunk.newLines)
    || (EndsBlank(chunk.oldLines) && edit.oldLen == |chunk.oldLines| - 1
        && MatchAt(Normalised, lines, WithoutLast(chunk.oldLines), edit.start)
        && edit.newLines == WithoutFinalBlank(chunk.newLines))
  }

  lemma LocatedIsLoose(lines: seq<string>, pattern: seq<string>, start: nat, eof: bool, k: nat)
    requires Located(lines, pattern, start, eof, Some(k))
    ensures MatchAt(Normalised, lines, pattern, k)
  {
    hide BestMatch, MatchAt;
    var tier :| BestMatch(lines, pattern, start, eof, tier, k);
    BestIsLoose(lines, pattern, start, eof, tier, k);
  }

  lemma PlannedReplaces(lines: seq<string>, chunk: Chunk, at: nat, edit: Edit, next: nat)
    requires at <= |lines|
    requires PlanChunk(lines, chunk, at) == Ok((edit, next))
    ensures Replaces(lines, chunk, edit)
  {
    hide Located, PlanChunk, ContextFound, LineMatches, HasMatch;
    PlanChunkExactly(lines, chunk, at, edit, next);
    PlanChunkInBounds(lines, chunk, at);
    if chunk.oldLines != [] {
      var from: nat :| ContextFound(lines, chunk, at, from)
        && (FoundWhole(lines, chunk, from, edit) || FoundShortened(lines, chunk, from, edit));
      if FoundWhole(lines, chunk, from, edit) {
        LocatedIsLoose(lines, chunk.oldLines, from, chunk.isEndOfFile, edit.start);
      } else if |chunk.oldLines| > 1 {
        LocatedIsLoose(lines, WithoutLast(chunk.oldLines), from, chunk.isEndOfFile, edit.start);
      }
    }
  }

  /** Every planned range holds lines its chunk showed. */
  lemma {:induction false} EditsReplaceShownLines(lines: seq<string>, chunks: seq<Chunk>, at: nat, i: nat)
    requires at <= |lines|
    requires PlanFrom(lines, chunks, at).Ok? && i < |chunks|
    ensures var edits := PlanFrom(lines, chunks, at).value;
            |edits| == |chunks| && Replaces(lines, chunks[i], edits[i])
    decreases i
  {
    hide PlanChunk, Replaces;
    PlanFromInBounds(lines, chunks, at);
    PlanChunkInBounds(lines, chunks[0], at);
    var first := PlanChunk(lines, chunks[0], at).value;
    if i == 0 {
      PlannedReplaces(lines, chunks[0], at, first.0, first.1);
    } else {
      EditsReplaceShownLines(lines, chunks[1..], first.1, i - 1);
    }
  }
}
