/** Replacing line ranges of a file (`apply_replacements` in `crates/apply-patch/src/lib.rs`):
    the in-place editor works from the last edit to the first; the meaning it should have is
    one left-to-right splice. */
module Edits {

  /** `(start_index, old_len, new_lines)`. */
  datatype Edit = Edit(start: nat, oldLen: nat, newLines: seq<string>) {
    function End(): nat { start + oldLen }
  }

  predicate Sorted(edits: seq<Edit>) {
    forall i, j :: 0 <= i < j < |edits| ==> edits[i].start <= edits[j].start
  }

  predicate InBounds(edits: seq<Edit>, n: nat) {
    forall i :: 0 <= i < |edits| ==> edits[i].End() <= n
  }

  function Min(a: nat, b: nat): nat { if a <= b then a else b }

  function Max(a: nat, b: nat): nat { if a <= b then b else a }

  // ---------------------------------------------------------------- stable sort

  /** Places `e`, which came earlier, in front of the edits that start no earlier. */
  function Insert(e: Edit, edits: seq<Edit>): seq<Edit> {
    if edits == [] || e.start <= edits[0].start then [e] + edits
    else [edits[0]] + Insert(e, edits[1..])
  }

  /** `sort_by_key` on the start index. */
  function SortByStart(edits: seq<Edit>): seq<Edit> {
    if edits == [] then [] else Insert(edits[0], SortByStart(edits[1..]))
  }

  function StartingAt(edits: seq<Edit>, k: nat): seq<Edit> {
    if edits == [] then []
    else (if edits[0].start == k then [edits[0]] else []) + StartingAt(edits[1..], k)
  }

  /** These are all the edits that start there. */
  lemma {:induction false} StartingAtExactly(edits: seq<Edit>, k: nat, e: Edit)
    ensures multiset(StartingAt(edits, k))[e] == if e.start == k then multiset(edits)[e] else 0
  {
    if edits != [] {
      StartingAtExactly(edits[1..], k, e);
      assert edits == [edits[0]] + edits[1..];
      var first := if edits[0].start == k then [edits[0]] else [];
      assert multiset(first + StartingAt(edits[1..], k)) == multiset(first) + multiset(StartingAt(edits[1..], k));
    }
  }

  lemma SortedCons(e: Edit, edits: seq<Edit>)
    requires Sorted(edits)
    requires forall j :: 0 <= j < |edits| ==> e.start <= edits[j].start
    ensures Sorted([e] + edits)
  {
  }

  lemma {:induction false} InsertSame(e: Edit, edits: seq<Edit>)
    ensures multiset(Insert(e, edits)) == multiset(edits) + multiset{e}
  {
    if edits == [] || e.start <= edits[0].start {
    } else {
      InsertSame(e, edits[1..]);
      assert edits == [edits[0]] + edits[1..];
    }
  }

  lemma {:induction false} InsertSorted(e: Edit, edits: seq<Edit>)
    requires Sorted(edits)
    ensures Sorted(Insert(e, edits))
    ensures multiset(Insert(e, edits)) == multiset(edits) + multiset{e}
  {
    InsertSame(e, edits);
    if edits == [] || e.start <= edits[0].start {
      SortedCons(e, edits);
    } else {
      var rest := edits[1..];
      var t := Insert(e, rest);
      InsertSorted(e, rest);
      forall j | 0 <= j < |t| ensures edits[0].start <= t[j].start {
        assert t[j] in multiset(t);
        assert t[j] == e || t[j] in rest;
      }
      SortedCons(edits[0], t);
    }
  }

  lemma {:induction false} InsertStable(e: Edit, edits: seq<Edit>, k: nat)
    requires Sorted(edits)
    ensures StartingAt(Insert(e, edits), k) == StartingAt([e] + edits, k)
  {
    if edits == [] || e.start <= edits[0].start {
    } else {
      InsertStable(e, edits[1..], k);
      assert ([edits[0]] + Insert(e, edits[1..]))[1..] == Insert(e, edits[1..]);
      assert ([e] + edits)[1..] == edits;
      assert ([e] + edits[1..])[1..] == edits[1..];
    }
  }

  lemma {:induction false} SortSorts(edits: seq<Edit>)
    ensures Sorted(SortByStart(edits))
    ensures multiset(SortByStart(edits)) == multiset(edits)
  {
    if edits != [] {
      SortSorts(edits[1..]);
      InsertSorted(edits[0], SortByStart(edits[1..]));
      assert edits == [edits[0]] + edits[1..];
    }
  }

  lemma {:induction false} SortStable(edits: seq<Edit>, k: nat)
    ensures StartingAt(SortByStart(edits), k) == StartingAt(edits, k)
  {
    if edits != [] {
      var t := SortByStart(edits[1..]);
      SortStable(edits[1..], k);
      SortSorts(edits[1..]);
      InsertStable(edits[0], t, k);
      assert ([edits[0]] + t)[1..] == t;
    }
  }

  /** Sorting is a sort (ordered, same edits) and it is stable: edits with one start index
      keep their order. These three facts determine the result. */
  lemma SortIsStableSort(edits: seq<Edit>)
    ensures Sorted(SortByStart(edits))
    ensures multiset(SortByStart(edits)) == multiset(edits)
    ensures forall k: nat :: StartingAt(SortByStart(edits), k) == StartingAt(edits, k)
  {
    SortSorts(edits);
    forall k: nat ensures StartingAt(SortByStart(edits), k) == StartingAt(edits, k) {
      SortStable(edits, k);
    }
  }

  lemma SortKeepsBounds(edits: seq<Edit>, n: nat)
    requires InBounds(edits, n)
    ensures InBounds(SortByStart(edits), n)
    ensures |SortByStart(edits)| == |edits|
  {
    SortSorts(edits);
    var t := SortByStart(edits);
    assert |multiset(t)| == |multiset(edits)|;
    forall i | 0 <= i < |t| ensures t[i].End() <= n {
      assert t[i] in multiset(edits);
    }
  }

  // ---------------------------------------------------------------- the in-place editor

  function ApplyOne(lines: seq<string>, e: Edit): (r: seq<string>)
    requires e.start <= |lines|
    ensures |r| >= e.start
  {
    lines[..e.start] + e.newLines + lines[Min(e.End(), |lines|)..]
  }

  /** Every edit starts inside the file it was planned on. */
  predicate Safe(edits: seq<Edit>, n: nat) {
    Sorted(edits) && forall i :: 0 <= i < |edits| ==> edits[i].start <= n
  }

  /** The editor's result: the later edits are done before the earlier ones. */
  function ApplyReversed(lines: seq<string>, edits: seq<Edit>): (r: seq<string>)
    requires Safe(edits, |lines|)
    ensures edits == [] ==> r == lines
    ensures edits != [] ==> |r| >= edits[0].start
  {
    if edits == [] then lines else ApplyOne(ApplyReversed(lines, edits[1..]), edits[0])
  }

  /** `apply_replacements`. Every `remove` and `insert` is within the current length: the
      slices below are only defined there. */
  method ApplyReplacements(original: seq<string>, edits: seq<Edit>) returns (lines: seq<string>)
    requires Safe(edits, |original|)
    ensures lines == ApplyReversed(original, edits)
  {
    lines := original;
    var i := |edits|;
    assert edits[i..] == [];
    while i > 0
      invariant 0 <= i <= |edits|
      invariant lines == ApplyReversed(original, edits[i..])
    {
      i := i - 1;
      ghost var before := lines;
      assert edits[i..][1..] == edits[i + 1..];
      var e := edits[i];
      assert e.start <= |lines|;
      lines := RemoveLines(lines, e.start, e.oldLen);
      lines := InsertLines(lines, e.start, e.newLines);
      assert lines == ApplyOne(before, e);
    }
    assert edits[0..] == edits;
  }

  /** The removal loop: at most `count` times, remove the line at `at` if there is one. */
  method RemoveLines(before: seq<string>, at: nat, count: nat) returns (lines: seq<string>)
    requires at <= |before|
    ensures lines == before[..at] + before[Min(at + count, |before|)..]
  {
    lines := before;
    for k := 0 to count
      invariant lines == before[..at] + before[Min(at + k, |before|)..]
    {
      if at < |lines| {
        assert at + k < |before|;
        lines := lines[..at] + lines[at + 1..];
      }
    }
  }

  /** The insertion loop: `insert` at `at`, `at + 1`, and so on. */
  method InsertLines(before: seq<string>, at: nat, news: seq<string>) returns (lines: seq<string>)
    requires at <= |before|
    ensures lines == before[..at] + news + before[at..]
  {
    lines := before;
    assert before == before[..at] + news[..0] + before[at..];
    for k := 0 to |news|
      invariant lines == before[..at] + news[..k] + before[at..]
    {
      ghost var done := before[..at] + news[..k];
      assert |done| == at + k;
      assert lines[..at + k] == done && lines[at + k..] == before[at..];
      lines := lines[..at + k] + [news[k]] + lines[at + k..];
      assert news[..k + 1] == news[..k] + [news[k]];
    }
    assert news[..|news|] == news;
  }

  // ---------------------------------------------------------------- the meaning: one splice

  /** One pass from line `pos` on: copy up to the next edit, emit its new lines, skip what it
      replaces. Total on overlapping edits too: nothing is skipped twice and no new line is lost. */
  function Splice(lines: seq<string>, edits: seq<Edit>, pos: nat): seq<string>
    requires pos <= |lines| && InBounds(edits, |lines|)
  {
    if edits == [] then lines[pos..]
    else
      var e := edits[0];
      lines[pos..Max(pos, e.start)] + e.newLines + Splice(lines, edits[1..], Max(pos, e.End()))
  }

  /** Each edit ends before any later one starts. */
  predicate Disjoint(edits: seq<Edit>) {
    forall i, j :: 0 <= i < j < |edits| ==> edits[i].End() <= edits[j].start
  }

  lemma {:induction false} SpliceFrom(lines: seq<string>, edits: seq<Edit>, pos: nat)
    requires Safe(edits, |lines|) && InBounds(edits, |lines|) && Disjoint(edits)
    requires pos <= |lines| && (edits != [] ==> pos <= edits[0].start)
    ensures ApplyReversed(lines, edits) == lines[..pos] + Splice(lines, edits, pos)
  {
    if edits != [] {
      var e, rest := edits[0], edits[1..];
      SpliceFrom(lines, rest, e.End());
      ReplaceAfterPrefix(lines, e, pos, Splice(lines, rest, e.End()));
    }
  }

  lemma ReplaceAfterPrefix(lines: seq<string>, e: Edit, pos: nat, tail: seq<string>)
    requires pos <= e.start && e.End() <= |lines|
    ensures ApplyOne(lines[..e.End()] + tail, e) == lines[..pos] + (lines[pos..e.start] + e.newLines + tail)
  {
    var later := lines[..e.End()] + tail;
    assert later[..e.start] == lines[..pos] + lines[pos..e.start];
    assert later[Min(e.End(), |later|)..] == tail;
  }

  /** Edits that do not overlap: reverse order in place is the one splice. */
  lemma {:induction false} ReverseOrderIsSplice(lines: seq<string>, edits: seq<Edit>)
    requires Safe(edits, |lines|) && InBounds(edits, |lines|) && Disjoint(edits)
    ensures ApplyReversed(lines, edits) == Splice(lines, edits, 0)
  {
    SpliceFrom(lines, edits, 0);
    assert lines[..0] + Splice(lines, edits, 0) == Splice(lines, edits, 0);
  }

  // ---------------------------------------------------------------- and only those

  /** The same ranges with other new lines. */
  function WithLines(edits: seq<Edit>, news: seq<seq<string>>): (r: seq<Edit>)
    requires |news| == |edits|
    ensures |r| == |edits|
    ensures forall i :: 0 <= i < |r| ==> r[i] == Edit(edits[i].start, edits[i].oldLen, news[i])
  {
    if edits == [] then []
    else [Edit(edits[0].start, edits[0].oldLen, news[0])] + WithLines(edits[1..], news[1..])
  }

  lemma WithLinesKeepsShape(edits: seq<Edit>, news: seq<seq<string>>, n: nat)
    requires |news| == |edits|
    requires Safe(edits, n) && InBounds(edits, n)
    ensures Safe(WithLines(edits, news), n) && InBounds(WithLines(edits, news), n)
    ensures Disjoint(edits) ==> Disjoint(WithLines(edits, news))
  {
  }

  function Count(z: string, lines: seq<string>): nat {
    multiset(lines)[z]
  }

  lemma CountConcat(z: string, a: seq<string>, b: seq<string>)
    ensures Count(z, a + b) == Count(z, a) + Count(z, b)
  {
    assert multiset(a + b) == multiset(a) + multiset(b);
  }

  function CountNew(z: string, edits: seq<Edit>): nat {
    if edits == [] then 0 else Count(z, edits[0].newLines) + CountNew(z, edits[1..])
  }

  lemma CountAbsent(z: string, lines: seq<string>)
    requires z !in lines
    ensures Count(z, lines) == 0
  {
    assert z !in multiset(lines);
  }

  /** The splice keeps every new line. */
  lemma {:induction false} SpliceKeepsNewLines(z: string, lines: seq<string>, edits: seq<Edit>, pos: nat)
    requires pos <= |lines| && InBounds(edits, |lines|)
    requires z !in lines
    ensures Count(z, Splice(lines, edits, pos)) == CountNew(z, edits)
  {
    if edits == [] {
      CountAbsent(z, lines[pos..]);
    } else {
      var e := edits[0];
      var kept, tail := lines[pos..Max(pos, e.start)], Splice(lines, edits[1..], Max(pos, e.End()));
      CountAbsent(z, kept);
      SpliceKeepsNewLines(z, lines, edits[1..], Max(pos, e.End()));
      CountConcat(z, kept + e.newLines, tail);
      CountConcat(z, kept, e.newLines);
    }
  }

  /** An edit that only removes lines cannot bring a line in. */
  lemma RemovalOnlyLoses(z: string, lines: seq<string>, e: Edit)
    requires e.start <= |lines| && e.newLines == []
    ensures Count(z, ApplyOne(lines, e)) <= Count(z, lines)
    ensures e.start < |lines| && e.oldLen > 0 ==>
      Count(z, lines) == Count(z, ApplyOne(lines, e)) + Count(z, lines[e.start..Min(e.End(), |lines|)])
  {
    var m := Min(e.End(), |lines|);
    assert lines == lines[..e.start] + lines[e.start..m] + lines[m..];
    CountConcat(z, lines[..e.start] + lines[e.start..m], lines[m..]);
    CountConcat(z, lines[..e.start], lines[e.start..m]);
    assert ApplyOne(lines, e) == lines[..e.start] + lines[m..];
    CountConcat(z, lines[..e.start], lines[m..]);
  }

  function NoLines(n: nat): (r: seq<seq<string>>)
    ensures |r| == n && forall i :: 0 <= i < n ==> r[i] == []
  {
    if n == 0 then [] else [[]] + NoLines(n - 1)
  }

  lemma {:induction false} CountNewNone(z: string, edits: seq<Edit>)
    requires forall i :: 0 <= i < |edits| ==> edits[i].newLines == []
    ensures CountNew(z, edits) == 0
  {
    if edits != [] {
      CountNewNone(z, edits[1..]);
    }
  }

  lemma {:induction false} CountNewAt(z: string, edits: seq<Edit>, i: nat)
    requires i < |edits|
    ensures CountNew(z, edits) >= Count(z, edits[i].newLines)
  {
    if i > 0 { CountNewAt(z, edits[1..], i - 1); }
  }

  lemma DisjointCons(edits: seq<Edit>)
    requires |edits| >= 2 && Disjoint(edits[1..]) && edits[0].End() <= edits[1].start
    ensures Disjoint(edits)
  {
    forall i, j | 0 <= i < j < |edits| ensures edits[i].End() <= edits[j].start {
      assert edits[j] == edits[1..][j - 1];
      if i > 0 { assert edits[i] == edits[1..][i - 1]; }
    }
  }

  /** Shape of the file after the edits from the second on, when only the second adds a line. */
  lemma AfterLaterEdits(z: string, lines: seq<string>, rest: seq<Edit>)
    requires rest != []
    requires Safe(rest, |lines|) && InBounds(rest, |lines|) && Disjoint(rest)
    requires z !in lines
    requires rest[0].newLines == [z]
    requires forall i :: 1 <= i < |rest| ==> rest[i].newLines == []
    ensures var later := ApplyReversed(lines, rest);
            |later| > rest[0].start && later[rest[0].start] == z && Count(z, later) == 1
  {
    hide Disjoint, Sorted, Count, CountNew;
    var at := rest[0].start;
    SpliceFrom(lines, rest, at);
    var tail := Splice(lines, rest[1..], rest[0].End());
    assert Splice(lines, rest, at) == [z] + tail;
    assert Count(z, tail) == 0 by {
      SpliceKeepsNewLines(z, lines, rest[1..], rest[0].End());
      CountNewNone(z, rest[1..]);
    }
    OneCopy(z, lines[..at], tail);
  }

  lemma OneCopy(z: string, before: seq<string>, after: seq<string>)
    requires z !in before && Count(z, after) == 0
    ensures Count(z, before + ([z] + after)) == 1
  {
    CountConcat(z, before, [z] + after);
    CountConcat(z, [z], after);
    CountAbsent(z, before);
  }

  /** A line inserted by the second edit is swallowed by the first when their ranges overlap. */
  lemma FirstSwallowsSecond(z: string, lines: seq<string>, edits: seq<Edit>)
    requires |edits| >= 2
    requires Safe(edits, |lines|) && InBounds(edits, |lines|) && Disjoint(edits[1..])
    requires edits[0].End() > edits[1].start
    requires z !in lines
    requires edits[0].newLines == [] && edits[1].newLines == [z]
    requires forall i :: 2 <= i < |edits| ==> edits[i].newLines == []
    ensures Count(z, ApplyReversed(lines, edits)) == 0
  {
    var e, rest := edits[0], edits[1..];
    AfterLaterEdits(z, lines, rest);
    Swallow(z, ApplyReversed(lines, rest), e, edits[1].start);
  }

  lemma Swallow(z: string, later: seq<string>, e: Edit, at: nat)
    requires e.start <= at < |later| && at < e.End() && e.newLines == []
    requires later[at] == z && Count(z, later) == 1
    ensures Count(z, ApplyOne(later, e)) == 0
  {
    var m := Min(e.End(), |later|);
    RemovalOnlyLoses(z, later, e);
    assert later[e.start..m][at - e.start] == z;
    assert z in multiset(later[e.start..m]);
  }

  /** Whenever ranges overlap, some choice of new lines makes the editor lose one of them. */
  lemma {:induction false} OverlapLosesLines(z: string, lines: seq<string>, edits: seq<Edit>)
    returns (news: seq<seq<string>>)
    requires Safe(edits, |lines|) && InBounds(edits, |lines|) && !Disjoint(edits)
    requires z !in lines
    ensures |news| == |edits|
    ensures Safe(WithLines(edits, news), |lines|) && InBounds(WithLines(edits, news), |lines|)
    ensures Count(z, ApplyReversed(lines, WithLines(edits, news))) < CountNew(z, WithLines(edits, news))
  {
    hide Count, CountNew, Splice;
    if !Disjoint(edits[1..]) {
      var inner := OverlapLosesLines(z, lines, edits[1..]);
      news := [[]] + inner;
      WithLinesKeepsShape(edits, news, |lines|);
      LossCarriesOver(z, lines, edits, inner);
    } else {
      assert |edits| >= 2 && edits[0].End() > edits[1].start by {
        if |edits| >= 2 && edits[0].End() <= edits[1].start { DisjointCons(edits); }
      }
      news := [[], [z]] + NoLines(|edits| - 2);
      WithLinesKeepsShape(edits, news, |lines|);
      LossAtHead(z, lines, edits);
    }
  }

  lemma LossCarriesOver(z: string, lines: seq<string>, edits: seq<Edit>, inner: seq<seq<string>>)
    requires edits != [] && |inner| == |edits| - 1
    requires Safe(edits, |lines|) && InBounds(edits, |lines|)
    requires Safe(WithLines(edits[1..], inner), |lines|)
    requires Safe(WithLines(edits, [[]] + inner), |lines|)
    requires Count(z, ApplyReversed(lines, WithLines(edits[1..], inner))) < CountNew(z, WithLines(edits[1..], inner))
    ensures Count(z, ApplyReversed(lines, WithLines(edits, [[]] + inner))) < CountNew(z, WithLines(edits, [[]] + inner))
  {
    var r := WithLines(edits, [[]] + inner);
    assert ([[]] + inner)[1..] == inner;
    assert r[1..] == WithLines(edits[1..], inner);
    RemovalOnlyLoses(z, ApplyReversed(lines, r[1..]), r[0]);
  }

  lemma LossAtHead(z: string, lines: seq<string>, edits: seq<Edit>)
    requires |edits| >= 2
    requires Safe(edits, |lines|) && InBounds(edits, |lines|) && Disjoint(edits[1..])
    requires edits[0].End() > edits[1].start
    requires z !in lines
    requires Safe(WithLines(edits, [[], [z]] + NoLines(|edits| - 2)), |lines|)
    requires InBounds(WithLines(edits, [[], [z]] + NoLines(|edits| - 2)), |lines|)
    ensures var r := WithLines(edits, [[], [z]] + NoLines(|edits| - 2));
            Count(z, ApplyReversed(lines, r)) < CountNew(z, r)
  {
    var news := [[], [z]] + NoLines(|edits| - 2);
    var r := WithLines(edits, news);
    var rest := edits[1..];
    assert Disjoint(r[1..]) by {
      assert r[1..] == WithLines(rest, news[1..]);
      WithLinesKeepsShape(rest, news[1..], |lines|);
    }
    FirstSwallowsSecond(z, lines, r);
    CountNewAt(z, r, 1);
    assert Count(z, [z]) == 1;
  }

  /** A line that is not in `lines`: longer than all of them. */
  function Fresh(lines: seq<string>): (z: string)
    ensures forall l :: l in lines ==> |l| < |z|
  {
    if lines == [] then "z" else lines[0] + Fresh(lines[1..])
  }

  /** With these ranges, whatever text is put in, the editor yields the one splice. */
  ghost predicate AlwaysSplices(lines: seq<string>, edits: seq<Edit>) {
    forall news: seq<seq<string>> | |news| == |edits| ::
      var r := WithLines(edits, news);
      && Safe(r, |lines|) && InBounds(r, |lines|)
      && ApplyReversed(lines, r) == Splice(lines, r, 0)
  }

  /** The editor is the one splice for every text of the new lines exactly when no edit
      reaches into the next. */
  lemma {:induction false} SpliceExactlyWhenDisjoint(lines: seq<string>, edits: seq<Edit>)
    requires Safe(edits, |lines|) && InBounds(edits, |lines|)
    ensures Disjoint(edits) <==> AlwaysSplices(lines, edits)
  {
    if Disjoint(edits) {
      forall news: seq<seq<string>> | |news| == |edits|
        ensures var r := WithLines(edits, news);
                && Safe(r, |lines|) && InBounds(r, |lines|)
                && ApplyReversed(lines, r) == Splice(lines, r, 0)
      {
        WithLinesKeepsShape(edits, news, |lines|);
        ReverseOrderIsSplice(lines, WithLines(edits, news));
      }
    } else {
      var z := Fresh(lines);
      var news := OverlapLosesLines(z, lines, edits);
      SpliceKeepsNewLines(z, lines, WithLines(edits, news), 0);
    }
  }

  // ---------------------------------------------------------------- edits in planning order

  /** `a` was planned before `b`; after the stable sort neither reaches into the other. */
  predicate Compatible(a: Edit, b: Edit) {
    if a.start <= b.start then a.End() <= b.start else b.End() <= a.start
  }

  predicate AllCompatible(edits: seq<Edit>) {
    forall i, j :: 0 <= i < j < |edits| ==> Compatible(edits[i], edits[j])
  }

  predicate CompatibleWith(e: Edit, edits: seq<Edit>) {
    forall j :: 0 <= j < |edits| ==> Compatible(e, edits[j])
  }

  lemma CompatibleWithCons(e: Edit, edits: seq<Edit>)
    requires edits != []
    ensures CompatibleWith(e, edits) <==> Compatible(e, edits[0]) && CompatibleWith(e, edits[1..])
  {
    if Compatible(e, edits[0]) && CompatibleWith(e, edits[1..]) {
      forall j | 0 <= j < |edits| ensures Compatible(e, edits[j]) {
        if j > 0 { assert edits[j] == edits[1..][j - 1]; }
      }
    }
  }

  lemma DisjointTail(edits: seq<Edit>)
    requires edits != [] && Disjoint(edits)
    ensures Disjoint(edits[1..])
  {
  }

  /** Inserting an edit keeps the edits disjoint exactly when it fits every one already there. */
  lemma {:induction false} InsertDisjoint(e: Edit, edits: seq<Edit>)
    requires Sorted(edits)
    ensures Disjoint(Insert(e, edits)) <==> Disjoint(edits) && CompatibleWith(e, edits)
  {
    if edits == [] {
    } else if e.start <= edits[0].start {
      InsertDisjointFront(e, edits);
    } else {
      InsertDisjoint(e, edits[1..]);
      CompatibleWithCons(e, edits);
      if Disjoint(Insert(e, edits)) {
        DisjointAroundHead(e, edits);
      } else if Disjoint(edits) && CompatibleWith(e, edits) {
        DisjointTail(edits);
        HeadBeforeInserted(e, edits);
      }
    }
  }

  lemma InsertDisjointFront(e: Edit, edits: seq<Edit>)
    requires Sorted(edits) && edits != [] && e.start <= edits[0].start
    ensures Disjoint(Insert(e, edits)) <==> Disjoint(edits) && CompatibleWith(e, edits)
  {
    var r := Insert(e, edits);
    assert r == [e] + edits && r[1..] == edits;
    if Disjoint(r) {
      DisjointTail(r);
      forall j | 0 <= j < |edits| ensures Compatible(e, edits[j]) {
        assert r[0].End() <= r[j + 1].start;
      }
    } else if Disjoint(edits) && CompatibleWith(e, edits) {
      assert Compatible(e, edits[0]);
      DisjointCons(r);
    }
  }

  lemma DisjointAroundHead(e: Edit, edits: seq<Edit>)
    requires Sorted(edits) && edits != [] && e.start > edits[0].start
    requires Disjoint(Insert(e, edits))
    requires Disjoint(Insert(e, edits[1..])) ==> Disjoint(edits[1..])
    ensures Disjoint(Insert(e, edits[1..])) && Disjoint(edits) && Compatible(e, edits[0])
  {
    var r, t := Insert(e, edits), Insert(e, edits[1..]);
    assert r[1..] == t;
    DisjointTail(r);
    var at := InsertedAt(e, edits[1..], e);
    assert r[0].End() <= r[at + 1].start;
    if |edits| > 1 {
      var k := InsertedAt(e, edits[1..], edits[1]);
      assert r[0].End() <= r[k + 1].start;
      DisjointCons(edits);
    }
  }

  lemma InsertedAt(e: Edit, edits: seq<Edit>, x: Edit) returns (k: nat)
    requires x == e || (edits != [] && x == edits[0])
    ensures k < |Insert(e, edits)| && Insert(e, edits)[k] == x
  {
    InsertSame(e, edits);
    var t := Insert(e, edits);
    assert x in multiset(t) by {
      if x != e { assert edits[0] in multiset(edits); }
    }
    assert x in t;
    k :| 0 <= k < |t| && t[k] == x;
  }

  lemma HeadBeforeInserted(e: Edit, edits: seq<Edit>)
    requires Sorted(edits) && edits != [] && e.start > edits[0].start
    requires Disjoint(edits) && Compatible(e, edits[0])
    requires Disjoint(Insert(e, edits[1..]))
    ensures Disjoint(Insert(e, edits))
  {
    var r, t := Insert(e, edits), Insert(e, edits[1..]);
    assert r == [edits[0]] + t && r[1..] == t;
    assert t[0] == e || (|edits| > 1 && t[0] == edits[1]);
    DisjointCons(r);
  }

  lemma CompatibleWithSame(e: Edit, a: seq<Edit>, b: seq<Edit>)
    requires multiset(a) == multiset(b)
    requires CompatibleWith(e, a)
    ensures CompatibleWith(e, b)
  {
    forall j | 0 <= j < |b| ensures Compatible(e, b[j]) {
      assert b[j] in multiset(a);
      assert b[j] in a;
    }
  }

  lemma AllCompatibleCons(edits: seq<Edit>)
    requires edits != []
    ensures AllCompatible(edits) <==> AllCompatible(edits[1..]) && CompatibleWith(edits[0], edits[1..])
  {
    var rest := edits[1..];
    if AllCompatible(edits) {
      forall i, j | 0 <= i < j < |rest| ensures Compatible(rest[i], rest[j]) {
        assert Compatible(edits[i + 1], edits[j + 1]);
      }
    }
    if AllCompatible(rest) && CompatibleWith(edits[0], rest) {
      forall i, j | 0 <= i < j < |edits| ensures Compatible(edits[i], edits[j]) {
        assert edits[j] == rest[j - 1];
        if i > 0 { assert Compatible(rest[i - 1], rest[j - 1]); }
      }
    }
  }

  /** The sorted edits are disjoint exactly when the planned ones are pairwise compatible. */
  lemma {:induction false} SortedDisjointIffCompatible(edits: seq<Edit>)
    ensures Disjoint(SortByStart(edits)) <==> AllCompatible(edits)
  {
    if edits != [] {
      var e, rest := edits[0], edits[1..];
      var t := SortByStart(rest);
      SortedDisjointIffCompatible(rest);
      assert Sorted(t) && multiset(t) == multiset(rest) by { SortSorts(rest); }
      InsertDisjoint(e, t);
      if CompatibleWith(e, rest) { CompatibleWithSame(e, rest, t); }
      if CompatibleWith(e, t) { CompatibleWithSame(e, t, rest); }
      AllCompatibleCons(edits);
    }
  }

  // ---------------------------------------------------------------- edits that change nothing

  /** The edit puts back the very lines it takes out. */
  predicate Identity(lines: seq<string>, e: Edit) {
    e.End() <= |lines| && e.newLines == lines[e.start..e.End()]
  }

  lemma {:induction false} IdentityEdits(lines: seq<string>, edits: seq<Edit>)
    requires Safe(edits, |lines|)
    requires forall i :: 0 <= i < |edits| ==> Identity(lines, edits[i])
    ensures ApplyReversed(lines, edits) == lines
  {
    if edits != [] {
      IdentityEdits(lines, edits[1..]);
      var e := edits[0];
      assert Identity(lines, e);
      assert lines[..e.start] + lines[e.start..e.End()] + lines[e.End()..] == lines;
    }
  }
}
