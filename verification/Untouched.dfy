/** Lines that no chunk is about survive every plan, overlapping or not
    (`crates/apply-patch/src/lib.rs`, lines 394 to 510). */
module Untouched {
  import opened Text
  import opened Patch
  import opened Seek
  import opened Edits
  import opened Planner

  predicate Covers(e: Edit, k: nat) {
    e.start <= k < e.End()
  }

  predicate Covered(edits: seq<Edit>, k: nat) {
    exists i :: 0 <= i < |edits| && Covers(edits[i], k)
  }

  /** The lines from `pos` on that are in no edit's range. */
  function Outside(lines: seq<string>, edits: seq<Edit>, pos: nat): seq<string>
    decreases |lines| - pos
  {
    if pos >= |lines| then []
    else (if Covered(edits, pos) then [] else [lines[pos]]) + Outside(lines, edits, pos + 1)
  }

  /** `a` is `b` with elements left out. */
  predicate Subsequence(a: seq<string>, b: seq<string>) {
    || a == []
    || (b != [] && ((a[0] == b[0] && Subsequence(a[1..], b[1..])) || Subsequence(a, b[1..])))
  }

  // ---------------------------------------------------------------- subsequences

  lemma {:induction false} SubsequenceAfter(prefix: seq<string>, a: seq<string>, b: seq<string>)
    requires Subsequence(a, b)
    ensures Subsequence(prefix + a, prefix + b)
    decreases |prefix|
  {
    if prefix == [] {
      assert prefix + a == a && prefix + b == b;
    } else {
      SubsequenceAfter(prefix[1..], a, b);
      assert (prefix + a)[1..] == prefix[1..] + a && (prefix + b)[1..] == prefix[1..] + b;
    }
  }

  lemma {:induction false} SubsequenceSkips(news: seq<string>, a: seq<string>, b: seq<string>)
    requires Subsequence(a, b)
    ensures Subsequence(a, news + b)
    decreases |news|
  {
    if news == [] {
      assert news + b == b;
    } else {
      SubsequenceSkips(news[1..], a, b);
      assert (news + b)[1..] == news[1..] + b;
    }
  }

  lemma SubsequencePrefix(a: seq<string>, b: seq<string>)
    ensures Subsequence(a, a + b)
  {
    SubsequenceAfter(a, [], b);
    assert a + [] == a;
  }

  // ---------------------------------------------------------------- which lines are outside

  lemma OneOutside(lines: seq<string>, edits: seq<Edit>, pos: nat)
    requires pos < |lines| && !Covered(edits, pos)
    ensures Outside(lines, edits, pos) == [lines[pos]] + Outside(lines, edits, pos + 1)
  {
    hide Covered;
  }

  lemma {:induction false} AllOutside(lines: seq<string>, edits: seq<Edit>, pos: nat, end: nat)
    requires pos <= end <= |lines|
    requires forall k :: pos <= k < end ==> !Covered(edits, k)
    ensures Outside(lines, edits, pos) == lines[pos..end] + Outside(lines, edits, end)
    decreases end - pos
  {
    hide Covered, Outside;
    if pos < end {
      OneOutside(lines, edits, pos);
      AllOutside(lines, edits, pos + 1, end);
      Reassociate([lines[pos]], lines[pos + 1..end], Outside(lines, edits, end));
      assert lines[pos..end] == [lines[pos]] + lines[pos + 1..end];
    }
  }

  lemma {:induction false} NoneOutside(lines: seq<string>, edits: seq<Edit>, pos: nat, end: nat)
    requires pos <= end <= |lines|
    requires forall k :: pos <= k < end ==> Covered(edits, k)
    ensures Outside(lines, edits, pos) == Outside(lines, edits, end)
    decreases end - pos
  {
    hide Covered;
    if pos < end { NoneOutside(lines, edits, pos + 1, end); }
  }

  lemma {:induction false} SameOutside(lines: seq<string>, a: seq<Edit>, b: seq<Edit>, pos: nat)
    requires forall k :: pos <= k < |lines| ==> (Covered(a, k) <==> Covered(b, k))
    ensures Outside(lines, a, pos) == Outside(lines, b, pos)
    decreases |lines| - pos
  {
    hide Covered;
    if pos < |lines| { SameOutside(lines, a, b, pos + 1); }
  }

  // ---------------------------------------------------------------- edits that overlap only at the end

  /** Of two edits in sorted order: apart, or one of them reaches the end of the file. */
  predicate Good(x: Edit, y: Edit, n: nat) {
    x.End() <= y.start || x.End() == n || y.End() == n
  }

  predicate AllGood(edits: seq<Edit>, n: nat) {
    forall i, j :: 0 <= i < j < |edits| ==> Good(edits[i], edits[j], n)
  }

  lemma UncoveredBefore(edits: seq<Edit>, k: nat)
    requires Sorted(edits) && (edits != [] ==> k < edits[0].start)
    ensures !Covered(edits, k)
  {
  }

  lemma CoveredTail(edits: seq<Edit>, k: nat)
    requires edits != [] && !Covers(edits[0], k)
    ensures Covered(edits, k) <==> Covered(edits[1..], k)
  {
    if Covered(edits, k) {
      var i :| 0 <= i < |edits| && Covers(edits[i], k);
      assert edits[1..][i - 1] == edits[i];
    }
    if Covered(edits[1..], k) {
      var i :| 0 <= i < |edits[1..]| && Covers(edits[1..][i], k);
      assert edits[i + 1] == edits[1..][i];
    }
  }

  /** What the first edit leaves alone, when the others come after it. */
  lemma OutsideApart(lines: seq<string>, edits: seq<Edit>, pos: nat)
    requires edits != [] && Sorted(edits) && pos <= edits[0].start && edits[0].End() <= |lines|
    ensures Outside(lines, edits, pos)
         == lines[pos..edits[0].start] + Outside(lines, edits[1..], edits[0].End())
  {
    hide Outside;
    var e := edits[0];
    forall k: nat | pos <= k < e.start ensures !Covered(edits, k) { UncoveredBefore(edits, k); }
    AllOutside(lines, edits, pos, e.start);
    forall k: nat | e.start <= k < e.End() ensures Covered(edits, k) { assert Covers(edits[0], k); }
    NoneOutside(lines, edits, e.start, e.End());
    forall k: nat | e.End() <= k < |lines| ensures Covered(edits, k) <==> Covered(edits[1..], k) {
      CoveredTail(edits, k);
    }
    SameOutside(lines, edits, edits[1..], e.End());
  }

  /** When the first two overlap, everything from the first one's start on is in a range. */
  lemma OutsideOverlapping(lines: seq<string>, edits: seq<Edit>, pos: nat)
    requires |edits| > 1 && Sorted(edits) && pos <= edits[0].start <= |lines|
    requires Good(edits[0], edits[1], |lines|) && edits[1].start < edits[0].End()
    ensures Outside(lines, edits, pos) == lines[pos..edits[0].start]
  {
    hide Outside;
    var e, n := edits[0], |lines|;
    forall k: nat | pos <= k < e.start ensures !Covered(edits, k) { UncoveredBefore(edits, k); }
    AllOutside(lines, edits, pos, e.start);
    forall k: nat | e.start <= k < n ensures Covered(edits, k) {
      assert Covers(edits[0], k) || Covers(edits[1], k);
    }
    NoneOutside(lines, edits, e.start, n);
    NothingOutside(lines, edits);
  }

  lemma NothingOutside(lines: seq<string>, edits: seq<Edit>)
    ensures Outside(lines, edits, |lines|) == []
  {
  }

  lemma NoEdits(lines: seq<string>, pos: nat)
    requires pos <= |lines|
    ensures ApplyReversed(lines, []) == lines && Subsequence(Outside(lines, [], pos), lines[pos..])
  {
    hide Subsequence;
    AllOutside(lines, [], pos, |lines|);
    NothingOutside(lines, []);
    var tail := lines[pos..];
    assert Outside(lines, [], pos) == tail by {
      assert tail == lines[pos..|lines|] && tail + [] == tail;
    }
    SubsequencePrefix(tail, []);
    assert tail + [] == tail;
  }

  /** The last step of the editor is the first edit. */
  lemma FirstEdit(lines: seq<string>, edits: seq<Edit>)
    requires edits != [] && Safe(edits, |lines|) && InBounds(edits, |lines|)
    ensures Sorted(edits) && Safe(edits[1..], |lines|) && InBounds(edits[1..], |lines|) && edits[0].End() <= |lines|
    ensures var later := ApplyReversed(lines, edits[1..]);
            edits[0].start <= |later| && ApplyReversed(lines, edits) == ApplyOne(later, edits[0])
    ensures |edits| > 1 ==> edits[0].start <= edits[1].start
  {
  }

  /** Lines before the first edit stay where they are, and the lines outside all ranges are all
      still there, in order. */
  lemma {:induction false} EditorKeepsOutside(lines: seq<string>, edits: seq<Edit>, pos: nat)
    requires Safe(edits, |lines|) && InBounds(edits, |lines|) && AllGood(edits, |lines|)
    requires pos <= |lines| && (edits != [] ==> pos <= edits[0].start)
    ensures var r := ApplyReversed(lines, edits);
            |r| >= pos && r[..pos] == lines[..pos] && Subsequence(Outside(lines, edits, pos), r[pos..])
    decreases |edits|
  {
    hide Outside, Covered, Subsequence, AllGood, Good, ApplyReversed, ApplyOne, Safe, InBounds;
    if edits == [] {
      NoEdits(lines, pos);
    } else {
      FirstEdit(lines, edits);
      GoodTail(edits, |lines|);
      var e, rest := edits[0], edits[1..];
      var later := ApplyReversed(lines, rest);
      if rest == [] || e.End() <= rest[0].start {
        EditorKeepsOutside(lines, rest, e.End());
        OutsideApart(lines, edits, pos);
        ApartStep(lines, later, e, pos, Outside(lines, rest, e.End()));
      } else {
        EditorKeepsOutside(lines, rest, e.start);
        assert Good(edits[0], edits[1], |lines|) by { FirstTwo(edits, |lines|); }
        OutsideOverlapping(lines, edits, pos);
        OverlapStep(lines, later, e, pos);
      }
    }
  }

  lemma GoodTail(edits: seq<Edit>, n: nat)
    requires edits != [] && AllGood(edits, n) && Sorted(edits)
    ensures AllGood(edits[1..], n) && Sorted(edits[1..])
  {
    hide Good;
  }

  lemma FirstTwo(edits: seq<Edit>, n: nat)
    requires |edits| > 1 && AllGood(edits, n)
    ensures Good(edits[0], edits[1], n)
  {
  }

  lemma ApartStep(lines: seq<string>, later: seq<string>, e: Edit, pos: nat, kept: seq<string>)
    requires pos <= e.start && e.End() <= |lines| && |later| >= e.End() && later[..e.End()] == lines[..e.End()]
    requires Subsequence(kept, later[e.End()..])
    ensures var r := ApplyOne(later, e);
            |r| >= pos && r[..pos] == lines[..pos] && Subsequence(lines[pos..e.start] + kept, r[pos..])
  {
    hide Subsequence;
    var r, tail := ApplyOne(later, e), later[e.End()..];
    assert later[..e.start] == lines[..e.start] by {
      assert later[..e.End()][..e.start] == lines[..e.End()][..e.start];
    }
    assert r[pos..] == lines[pos..e.start] + (e.newLines + tail);
    SubsequenceSkips(e.newLines, kept, tail);
    SubsequenceAfter(lines[pos..e.start], kept, e.newLines + tail);
  }

  lemma OverlapStep(lines: seq<string>, later: seq<string>, e: Edit, pos: nat)
    requires pos <= e.start <= |lines| && |later| >= e.start && later[..e.start] == lines[..e.start]
    ensures var r := ApplyOne(later, e);
            |r| >= pos && r[..pos] == lines[..pos] && Subsequence(lines[pos..e.start], r[pos..])
  {
    hide Subsequence;
    var r := ApplyOne(later, e);
    assert r[pos..] == lines[pos..e.start] + r[e.start..];
    SubsequencePrefix(lines[pos..e.start], r[e.start..]);
  }

  // ---------------------------------------------------------------- plans overlap only at the end

  /** For an edit and one planned after it, in whichever order they come to stand. */
  predicate Pair(a: Edit, b: Edit, n: nat) {
    if a.start <= b.start then Good(a, b, n) else Good(b, a, n)
  }

  predicate PairsWith(a: Edit, edits: seq<Edit>, n: nat) {
    forall j :: 0 <= j < |edits| ==> Pair(a, edits[j], n)
  }

  predicate AllPairs(edits: seq<Edit>, n: nat) {
    edits != [] ==> PairsWith(edits[0], edits[1..], n) && AllPairs(edits[1..], n)
  }

  /** Where an edit planned when the running index is `at` can be. */
  predicate Later(x: Edit, at: nat, n: nat) {
    at <= x.start || x.End() == n || (x.oldLen == 0 && x.start + 1 == n)
  }

  lemma PlannedLater(lines: seq<string>, chunk: Chunk, at: nat)
    requires at <= |lines|
    ensures var r := PlanChunk(lines, chunk, at);
            r.Ok? ==> Later(r.value.0, at, |lines|) && at <= r.value.1 <= |lines|
    ensures var r := PlanChunk(lines, chunk, at);
            r.Ok? && chunk.oldLines != [] ==> r.value.1 == r.value.0.End()
    ensures var r := PlanChunk(lines, chunk, at);
            r.Ok? && chunk.oldLines == [] ==> r.value.0 == Edit(InsertionPoint(lines), 0, chunk.newLines)
  {
    hide Seek.Seek;
    AfterContextMoves(lines, chunk, at);
    PlanChunkInBounds(lines, chunk, at);
    var from := AfterContext(lines, chunk, at);
    if from.Ok? && chunk.oldLines != [] {
      LocatedLater(lines, chunk.oldLines, from.value, chunk.isEndOfFile);
      LocatedLater(lines, WithoutLast(chunk.oldLines), from.value, chunk.isEndOfFile);
    }
  }

  lemma LocatedLater(lines: seq<string>, pattern: seq<string>, start: nat, eof: bool)
    requires start <= |lines|
    ensures var r := Seek.Seek(lines, pattern, start, eof);
            r.Some? ==> start <= r.value || r.value + |pattern| == |lines|
  {
    hide MatchAt, FirstMatch;
    if 0 < |pattern| <= |lines| {
      var tier := AnsweringTier(lines, pattern, start, eof);
      FirstMatchIsLeast(tier, lines, pattern, SearchStart(lines, pattern, start, eof), |lines| - |pattern| + 1);
    }
  }

  lemma {:induction false} AllPlannedLater(lines: seq<string>, chunks: seq<Chunk>, at: nat, low: nat)
    requires low <= at <= |lines| && PlanFrom(lines, chunks, at).Ok?
    ensures var edits := PlanFrom(lines, chunks, at).value;
            forall j :: 0 <= j < |edits| ==> Later(edits[j], low, |lines|)
    decreases |chunks|
  {
    hide PlanChunk;
    if chunks != [] {
      PlannedLater(lines, chunks[0], at);
      AllPlannedLater(lines, chunks[1..], PlanChunk(lines, chunks[0], at).value.1, low);
    }
  }

  lemma FirstPairs(lines: seq<string>, chunk: Chunk, at: nat, rest: seq<Edit>)
    requires at <= |lines| && PlanChunk(lines, chunk, at).Ok? && InBounds(rest, |lines|)
    requires forall j :: 0 <= j < |rest| ==> Later(rest[j], PlanChunk(lines, chunk, at).value.1, |lines|)
    ensures PairsWith(PlanChunk(lines, chunk, at).value.0, rest, |lines|)
  {
    hide PlanChunk;
    PlannedLater(lines, chunk, at);
    PlanChunkInBounds(lines, chunk, at);
    var e, n := PlanChunk(lines, chunk, at).value.0, |lines|;
    forall j | 0 <= j < |rest| ensures Pair(e, rest[j], n) {
      assert rest[j].End() <= n;
    }
  }

  lemma {:induction false} PlanPairs(lines: seq<string>, chunks: seq<Chunk>, at: nat)
    requires at <= |lines| && PlanFrom(lines, chunks, at).Ok?
    ensures AllPairs(PlanFrom(lines, chunks, at).value, |lines|)
    decreases |chunks|
  {
    hide PlanChunk, PairsWith, Later;
    if chunks != [] {
      var first := PlanChunk(lines, chunks[0], at).value;
      var rest := PlanFrom(lines, chunks[1..], first.1).value;
      PlannedLater(lines, chunks[0], at);
      PlanPairs(lines, chunks[1..], first.1);
      AllPlannedLater(lines, chunks[1..], first.1, first.1);
      PlanFromInBounds(lines, chunks[1..], first.1);
      FirstPairs(lines, chunks[0], at, rest);
      assert PlanFrom(lines, chunks, at).value[1..] == rest;
    }
  }

  lemma {:induction false} InsertGood(e: Edit, edits: seq<Edit>, n: nat)
    requires Sorted(edits) && AllGood(edits, n) && PairsWith(e, edits, n)
    ensures AllGood(Insert(e, edits), n)
    decreases |edits|
  {
    hide Good;
    var r := Insert(e, edits);
    if edits == [] || e.start <= edits[0].start {
      forall j | 0 <= j < |edits| ensures Good(e, edits[j], n) {
        assert edits[0].start <= edits[j].start;
        assert Pair(e, edits[j], n);
      }
    } else {
      var x, rest := edits[0], edits[1..];
      GoodTail(edits, n);
      InsertGood(e, rest, n);
      InsertSame(e, rest);
      var inner := Insert(e, rest);
      forall j | 0 <= j < |inner| ensures Good(x, inner[j], n) {
        assert inner[j] in multiset(inner);
        if inner[j] == e {
          assert Pair(e, edits[0], n);
        } else {
          assert inner[j] in rest;
          var i :| 0 <= i < |rest| && rest[i] == inner[j];
          assert Good(edits[0], edits[i + 1], n);
        }
      }
    }
  }

  lemma {:induction false} SortGood(edits: seq<Edit>, n: nat)
    requires AllPairs(edits, n)
    ensures AllGood(SortByStart(edits), n)
    decreases |edits|
  {
    hide PairsWith, AllGood;
    if edits == [] {
      assert AllGood([], n) by { NoneGood(n); }
    } else {
      SortGood(edits[1..], n);
      SortSorts(edits[1..]);
      PairsReordered(edits[0], edits[1..], SortByStart(edits[1..]), n);
      InsertGood(edits[0], SortByStart(edits[1..]), n);
    }
  }

  lemma NoneGood(n: nat)
    ensures AllGood([], n)
  {
  }

  lemma PairsReordered(a: Edit, edits: seq<Edit>, other: seq<Edit>, n: nat)
    requires PairsWith(a, edits, n) && multiset(edits) == multiset(other)
    ensures PairsWith(a, other, n)
  {
    hide Pair;
    forall j | 0 <= j < |other| ensures Pair(a, other[j], n) {
      assert other[j] in multiset(edits);
      var i :| 0 <= i < |edits| && edits[i] == other[j];
    }
  }

  /** For all files and all chunks, whether or not the plan overlaps: every line of the file that
      is in no planned range is still there afterwards, in order. */
  lemma {:induction false} PlanKeepsOutsideLines(lines: seq<string>, chunks: seq<Chunk>)
    requires Plan(lines, chunks).Ok?
    ensures var plan := Plan(lines, chunks).value;
            && Safe(plan, |lines|)
            && Subsequence(Outside(lines, plan, 0), ApplyReversed(lines, plan))
  {
    hide PlanFrom, SortByStart, AllGood, AllPairs, Subsequence, Outside, ApplyReversed, InBounds;
    PlanIsSafe(lines, chunks);
    PlanPairs(lines, chunks, 0);
    var plan := Plan(lines, chunks).value;
    SortGood(PlanFrom(lines, chunks, 0).value, |lines|);
    EditorKeepsOutside(lines, plan, 0);
    assert ApplyReversed(lines, plan)[0..] == ApplyReversed(lines, plan);
  }

  /** Of edits that are merely sorted and in bounds this is not true. */
  lemma {:induction false} SortedEditsCanLoseLine(a: string, b: string, c: string)
    ensures var lines, edits := [a, b, c], [Edit(0, 2, []), Edit(1, 1, [])];
            && Safe(edits, 3) && InBounds(edits, 3)
            && ApplyReversed(lines, edits) == [] && Outside(lines, edits, 2) == [c]
  {
    var lines, edits := [a, b, c], [Edit(0, 2, []), Edit(1, 1, [])];
    assert edits[1..] == [Edit(1, 1, [])] && edits[1..][1..] == [];
    assert ApplyReversed(lines, edits[1..]) == [a, c];
    assert !Covered(edits, 2);
    assert Outside(lines, edits, 3) == [];
  }
}
