/** The whole way: a difference between two files, written as a patch, parsed and committed,
    turns the first file into the second (`crates/apply-patch/src/parser.rs` and
    `crates/apply-patch/src/lib.rs` together). */
module EndToEnd {
  import opened Text
  import opened Patch
  import opened Seek
  import opened Edits
  import opened Planner
  import opened Parser
  import opened Printer
  import opened Disk

  /** Lines kept, then lines `was` that turn into `becomes`. */
  datatype Segment = Segment(keep: seq<string>, was: seq<string>, becomes: seq<string>)

  function Before(segs: seq<Segment>, tail: seq<string>): seq<string> {
    if segs == [] then tail else segs[0].keep + (segs[0].was + Before(segs[1..], tail))
  }

  function After(segs: seq<Segment>, tail: seq<string>): seq<string> {
    if segs == [] then tail else segs[0].keep + segs[0].becomes + After(segs[1..], tail)
  }

  function ChunksFor(segs: seq<Segment>): (r: seq<Chunk>)
    ensures |r| == |segs|
    ensures forall i :: 0 <= i < |segs| ==> r[i] == Chunk(None, segs[i].was, segs[i].becomes, false)
  {
    if segs == [] then [] else [Chunk(None, segs[0].was, segs[0].becomes, false)] + ChunksFor(segs[1..])
  }

  function EditsFor(segs: seq<Segment>, pos: nat): (r: seq<Edit>)
    ensures r != [] ==> pos <= r[0].start
  {
    if segs == [] then []
    else
      var at := pos + |segs[0].keep|;
      [Edit(at, |segs[0].was|, segs[0].becomes)] + EditsFor(segs[1..], at + |segs[0].was|)
  }

  /** Each change has old lines, and from the previous change on they occur first where they
      are meant: no line-for-line equal block comes earlier. */
  predicate Unambiguous(file: seq<string>, segs: seq<Segment>, pos: nat) {
    segs != [] ==>
      && segs[0].was != []
      && (forall j :: pos <= j < pos + |segs[0].keep| ==> !MatchAt(Exact, file, segs[0].was, j))
      && Unambiguous(file, segs[1..], pos + |segs[0].keep| + |segs[0].was|)
  }

  lemma {:induction false} SeekExact(file: seq<string>, pattern: seq<string>, start: nat, at: nat)
    requires pattern != [] && start <= at && at + |pattern| <= |file|
    requires file[at..at + |pattern|] == pattern
    requires forall j :: start <= j < at ==> !MatchAt(Exact, file, pattern, j)
    ensures Seek.Seek(file, pattern, start, false) == Some(at)
  {
    hide MatchAt, FirstMatch;
    SliceEquality(file, pattern, at);
    FirstMatchIsLeast(Exact, file, pattern, start, |file| - |pattern| + 1);
  }

  lemma {:induction false} PlanOne(file: seq<string>, seg: Segment, rest: seq<string>, pos: nat)
    requires pos <= |file| && file[pos..] == seg.keep + (seg.was + rest) && seg.was != []
    requires forall j :: pos <= j < pos + |seg.keep| ==> !MatchAt(Exact, file, seg.was, j)
    ensures var at := pos + |seg.keep|;
            && at + |seg.was| <= |file| && file[at + |seg.was|..] == rest
            && PlanChunk(file, Chunk(None, seg.was, seg.becomes, false), pos)
               == Ok((Edit(at, |seg.was|, seg.becomes), at + |seg.was|))
  {
    hide MatchAt, Seek.Seek;
    SeekExact(file, seg.was, pos, pos + |seg.keep|);
  }

  /** The planner finds every change where it is meant to be. */
  lemma {:induction false} PlanFindsChanges(file: seq<string>, segs: seq<Segment>, tail: seq<string>, pos: nat)
    requires pos <= |file| && file[pos..] == Before(segs, tail) && Unambiguous(file, segs, pos)
    ensures PlanFrom(file, ChunksFor(segs), pos) == Ok(EditsFor(segs, pos))
    decreases |segs|
  {
    hide MatchAt, PlanChunk;
    if segs != [] {
      var seg, rest := segs[0], Before(segs[1..], tail);
      PlanOne(file, seg, rest, pos);
      var end := pos + |seg.keep| + |seg.was|;
      PlanFindsChanges(file, segs[1..], tail, end);
      assert ChunksFor(segs)[1..] == ChunksFor(segs[1..]);
    }
  }

  lemma {:induction false} EditsInOrder(segs: seq<Segment>, pos: nat)
    ensures SortByStart(EditsFor(segs, pos)) == EditsFor(segs, pos)
    decreases |segs|
  {
    if segs != [] {
      var at := pos + |segs[0].keep|;
      EditsInOrder(segs[1..], at + |segs[0].was|);
      assert EditsFor(segs, pos)[1..] == EditsFor(segs[1..], at + |segs[0].was|);
    }
  }

  /** The splice of those edits is the second file. */
  lemma {:induction false} SpliceIsAfter(file: seq<string>, segs: seq<Segment>, tail: seq<string>, pos: nat)
    requires pos <= |file| && file[pos..] == Before(segs, tail)
    requires InBounds(EditsFor(segs, pos), |file|)
    ensures Splice(file, EditsFor(segs, pos), pos) == After(segs, tail)
    decreases |segs|
  {
    hide InBounds, Splice, Before, After, EditsFor;
    if segs == [] {
      NoSegments(file, tail, pos);
    } else {
      FirstSegment(segs, tail, pos);
      var seg, rest := segs[0], Before(segs[1..], tail);
      var at, end := pos + |seg.keep|, pos + |seg.keep| + |seg.was|;
      SpliceOne(file, Edit(at, |seg.was|, seg.becomes), EditsFor(segs[1..], end), pos);
      SpliceIsAfter(file, segs[1..], tail, end);
    }
  }

  lemma NoSegments(file: seq<string>, tail: seq<string>, pos: nat)
    requires pos <= |file| && file[pos..] == Before([], tail)
    ensures InBounds(EditsFor([], pos), |file|) && Splice(file, EditsFor([], pos), pos) == After([], tail)
  {
  }

  lemma FirstSegment(segs: seq<Segment>, tail: seq<string>, pos: nat)
    requires segs != []
    ensures var seg, at := segs[0], pos + |segs[0].keep|;
            && Before(segs, tail) == seg.keep + (seg.was + Before(segs[1..], tail))
            && After(segs, tail) == seg.keep + seg.becomes + After(segs[1..], tail)
            && EditsFor(segs, pos) == [Edit(at, |seg.was|, seg.becomes)] + EditsFor(segs[1..], at + |seg.was|)
  {
  }

  lemma SpliceOne(file: seq<string>, e: Edit, rest: seq<Edit>, pos: nat)
    requires pos <= e.start && InBounds([e] + rest, |file|)
    ensures e.End() <= |file| && InBounds(rest, |file|)
    ensures Splice(file, [e] + rest, pos) == file[pos..e.start] + e.newLines + Splice(file, rest, e.End())
  {
    var edits := [e] + rest;
    assert edits[0] == e && edits[1..] == rest;
    assert edits[0].End() <= |file|;
    assert InBounds(edits[1..], |file|);
  }

  /** Chunks made from a difference turn the lines of the first file into those of the second. */
  lemma {:induction false} ChunksTurnLines(segs: seq<Segment>, tail: seq<string>)
    requires Unambiguous(Before(segs, tail), segs, 0)
    ensures var file := Before(segs, tail);
            var plan := Plan(file, ChunksFor(segs));
            && plan.Ok? && Safe(plan.value, |file|)
            && ApplyReversed(file, plan.value) == After(segs, tail)
  {
    hide MatchAt, PlanFrom, SortByStart, Before, After, EditsFor, Safe, InBounds, ApplyReversed, Splice;
    var file, chunks := Before(segs, tail), ChunksFor(segs);
    assert file[0..] == file;
    PlanFindsChanges(file, segs, tail, 0);
    EditsInOrder(segs, 0);
    ForwardWithoutEof(file, chunks, 0);
    NoAdditions(file, segs, 0);
    PlannedEditsSplice(file, chunks);
    SpliceIsAfter(file, segs, tail, 0);
  }

  lemma {:induction false} NoAdditions(file: seq<string>, segs: seq<Segment>, pos: nat)
    requires Unambiguous(file, segs, pos)
    ensures !HasPureAddition(ChunksFor(segs))
    decreases |segs|
  {
    hide MatchAt;
    if segs != [] {
      NoAdditions(file, segs[1..], pos + |segs[0].keep| + |segs[0].was|);
      var c := ChunksFor(segs);
      forall i | 0 <= i < |c| ensures c[i].oldLines != [] {
        if i > 0 {
          assert ChunksFor(segs[1..])[i - 1].oldLines != [];
          assert segs[1..][i - 1] == segs[i];
        }
      }
    }
  }

  predicate NoNewlines(lines: seq<string>) {
    forall i :: 0 <= i < |lines| ==> '\n' !in lines[i]
  }

  /** Reading back the lines of a written file. */
  lemma FileLinesOfText(lines: seq<string>)
    requires NoNewlines(lines) && !EndsBlank(lines)
    ensures FileLines(FileText(lines)) == lines
  {
    hide Split, Join;
    SplitJoin(lines + [""], '\n');
    assert (lines + [""])[..|lines|] == lines;
  }

  lemma {:induction false} ContentsTurned(segs: seq<Segment>, tail: seq<string>)
    requires Unambiguous(Before(segs, tail), segs, 0)
    requires NoNewlines(Before(segs, tail)) && !EndsBlank(Before(segs, tail))
    ensures NewContents(FileText(Before(segs, tail)), ChunksFor(segs)) == Ok(FileText(After(segs, tail)))
  {
    hide Unambiguous, Before, After, FileText, FileLines, Plan, ApplyReversed, NoNewlines, Safe;
    ChunksTurnLines(segs, tail);
    FileLinesOfText(Before(segs, tail));
  }

  /** The update hunk for the difference. */
  function DiffHunk(path: string, segs: seq<Segment>): Hunk {
    UpdateFile(path, None, ChunksFor(segs))
  }

  lemma {:induction false} DiffPrintable(path: string, segs: seq<Segment>)
    requires GoodPath(path) && segs != []
    requires forall i :: 0 <= i < |segs| ==> segs[i].was != [] && AllPlain(segs[i].was) && AllPlain(segs[i].becomes)
    ensures Printable(DiffHunk(path, segs))
  {
    hide GoodPath, AllPlain;
  }

  lemma {:induction false} UnambiguousHasOld(file: seq<string>, segs: seq<Segment>, pos: nat, i: nat)
    requires Unambiguous(file, segs, pos) && i < |segs|
    ensures segs[i].was != []
    decreases i
  {
    hide MatchAt;
    if i > 0 {
      UnambiguousHasOld(file, segs[1..], pos + |segs[0].keep| + |segs[0].was|, i - 1);
    }
  }

  /** Write the difference down as a patch, parse the text in either mode, commit the hunks in
      the directory: the commit succeeds and the file's contents are those of the second file. */
  lemma {:induction false} DiffPatchTurnsFile(
      files: Files, cwd: string, path: string, segs: seq<Segment>, tail: seq<string>, mode: Mode)
    requires GoodPath(path) && segs != []
    requires Resolve(cwd, path) in files && files[Resolve(cwd, path)] == FileText(Before(segs, tail))
    requires Unambiguous(Before(segs, tail), segs, 0)
    requires NoNewlines(Before(segs, tail)) && !EndsBlank(Before(segs, tail))
    requires forall i :: 0 <= i < |segs| ==> AllPlain(segs[i].was) && AllPlain(segs[i].becomes)
    ensures var parsed := ParseText(PatchText(HunkDocsOf([DiffHunk(path, segs)])), mode);
            && parsed.Ok?
            && Commit(files, cwd, parsed.value.hunks)
               == Committed(files[Resolve(cwd, path) := FileText(After(segs, tail))], Ok(Affected([], [path], [])))
  {
    hide ParseText, PatchText, HunkDocsOf, Printable, NewContents, FileText, Before,
         After, AllPlain, NoNewlines, Unambiguous, Resolve, GoodPath;
    var hunk := DiffHunk(path, segs);
    forall i | 0 <= i < |segs| ensures segs[i].was != [] {
      UnambiguousHasOld(Before(segs, tail), segs, 0, i);
    }
    DiffPrintable(path, segs);
    HunksRoundTrip([hunk], mode);
    ContentsTurned(segs, tail);
    OneUpdate(files, cwd, hunk, FileText(After(segs, tail)));
  }

  lemma {:induction false} OneUpdate(files: Files, cwd: string, hunk: Hunk, contents: string)
    requires hunk.UpdateFile? && hunk.movePath == None
    requires Updated(files, Source(cwd, hunk), hunk.chunks) == Ok(contents)
    ensures Commit(files, cwd, [hunk])
         == Committed(files[Source(cwd, hunk) := contents], Ok(Affected([], [hunk.path], [])))
  {
    hide Updated, Resolve;
    assert [hunk][1..] == [];
    var after := files[Source(cwd, hunk) := contents];
    assert CommitHunk(files, cwd, hunk) == Ok(after);
    assert Record(NOTHING, hunk) == Affected([], [hunk.path], []);
    assert CommitFrom(after, cwd, [], Affected([], [hunk.path], []))
        == Committed(after, Ok(Affected([], [hunk.path], [])));
  }
}
