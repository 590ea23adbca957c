/** The conditions of `Agreement` are exact: they look at paths only, and where they fail there are
    files and contents for which preview and commit part. */
module AgreementExact {
  import opened Text
  import opened Patch
  import opened Seek
  import opened Planner
  import opened Disk
  import opened Agreement

  // ---------------------------------------------------------------- hunks that differ in contents only

  predicate SameShape(a: Hunk, b: Hunk) {
    && (a.AddFile? <==> b.AddFile?) && (a.DeleteFile? <==> b.DeleteFile?) && a.path == b.path
    && (a.UpdateFile? ==> a.movePath == b.movePath)
  }

  predicate SameShapes(a: seq<Hunk>, b: seq<Hunk>) {
    |a| == |b| && forall i :: 0 <= i < |a| ==> SameShape(a[i], b[i])
  }

  lemma ShapePaths(cwd: string, a: Hunk, b: Hunk, t: Track)
    requires SameShape(a, b)
    ensures Source(cwd, a) == Source(cwd, b) && Destination(cwd, a) == Destination(cwd, b)
    ensures Touched(cwd, a) == Touched(cwd, b)
    ensures Tracked(t, cwd, a) == Tracked(t, cwd, b) && (Decided(t, cwd, a) <==> Decided(t, cwd, b))
  {
  }

  lemma ShapesTail(a: seq<Hunk>, b: seq<Hunk>)
    requires SameShapes(a, b) && a != []
    ensures b != [] && SameShape(a[0], b[0]) && SameShapes(a[1..], b[1..])
  {
    hide SameShape;
  }

  lemma {:induction false} ShapesAgree(cwd: string, a: seq<Hunk>, b: seq<Hunk>, t: Track)
    requires SameShapes(a, b)
    ensures PathsAgree(cwd, a, t) <==> PathsAgree(cwd, b, t)
    decreases |a|
  {
    hide SameShape, SameShapes, Tracked, Decided;
    if a == [] {
      assert b == [] by { EmptyShapes(b); }
    } else {
      ShapesTail(a, b);
      ShapePaths(cwd, a[0], b[0], t);
      ShapesAgree(cwd, a[1..], b[1..], Tracked(t, cwd, a[0]));
    }
  }

  lemma EmptyShapes(b: seq<Hunk>)
    requires SameShapes([], b)
    ensures b == []
  {
  }

  lemma ShapesSources(cwd: string, a: seq<Hunk>, b: seq<Hunk>, p: string)
    requires SameShapes(a, b)
    ensures HasSource(cwd, a, p) <==> HasSource(cwd, b, p)
  {
    hide Resolve;
    if HasSource(cwd, a, p) {
      var i :| 0 <= i < |a| && Source(cwd, a[i]) == p;
      assert SameShape(a[i], b[i]) && Source(cwd, b[i]) == p;
    }
    if HasSource(cwd, b, p) {
      var i :| 0 <= i < |b| && Source(cwd, b[i]) == p;
      assert SameShape(a[i], b[i]) && Source(cwd, a[i]) == p;
    }
  }

  lemma {:induction false} ShapesLast(cwd: string, a: seq<Hunk>, b: seq<Hunk>)
    requires SameShapes(a, b)
    ensures TouchedByAll(cwd, a) == TouchedByAll(cwd, b) && Described(cwd, a) == Described(cwd, b)
    ensures LastingResults(cwd, a) <==> LastingResults(cwd, b)
    decreases |a|
  {
    hide SameShape, SameShapes, Touched, HasSource, Source, Destination;
    if a == [] {
      EmptyShapes(b);
    } else {
      ShapesTail(a, b);
      ShapePaths(cwd, a[0], b[0], map[]);
      ShapesSources(cwd, a[1..], b[1..], Source(cwd, a[0]));
      ShapesLast(cwd, a[1..], b[1..]);
    }
  }

  // ---------------------------------------------------------------- contents that tell hunks apart

  function Label(n: nat): string {
    if n == 0 then "a" else "a" + Label(n - 1)
  }

  function LabelText(n: nat): string {
    Label(n) + "\n"
  }

  const STOCK := "x\n"

  lemma {:induction false} LabelShape(n: nat)
    ensures |Label(n)| == n + 1 && forall i :: 0 <= i <= n ==> Label(n)[i] == 'a'
  {
    if n > 0 { LabelShape(n - 1); }
  }

  lemma LabelsDiffer(m: nat, n: nat)
    ensures LabelText(m) == LabelText(n) ==> m == n
    ensures LabelText(n) != STOCK && '\n' !in Label(n) && Label(n) != ""
  {
    LabelShape(m);
    LabelShape(n);
    assert LabelText(n)[0] == 'a' && STOCK[0] == 'x';
  }

  /** The hunk with contents of its own: an addition writes them, an update puts them in the
      place of the line `x`. */
  function Labelled(hunk: Hunk, n: nat): Hunk {
    match hunk
    case AddFile(path, _) => AddFile(path, LabelText(n))
    case DeleteFile(path) => DeleteFile(path)
    case UpdateFile(path, move, _) => UpdateFile(path, move, [OneLine("x", [Label(n)])])
  }

  function LabelledAll(hunks: seq<Hunk>, n: nat): (r: seq<Hunk>)
    ensures |r| == |hunks|
  {
    if hunks == [] then [] else [Labelled(hunks[0], n)] + LabelledAll(hunks[1..], n + 1)
  }

  lemma {:induction false} LabelledShapes(hunks: seq<Hunk>, n: nat)
    ensures SameShapes(hunks, LabelledAll(hunks, n))
    decreases |hunks|
  {
    if hunks != [] {
      var labelled := LabelledAll(hunks, n);
      LabelledShapes(hunks[1..], n + 1);
      forall i | 0 <= i < |hunks| ensures SameShape(hunks[i], labelled[i]) {
        if i > 0 { assert SameShape(hunks[1..][i - 1], LabelledAll(hunks[1..], n + 1)[i - 1]); }
      }
    }
  }

  lemma UpdateStock(n: nat)
    ensures NewContents(STOCK, [OneLine("x", [Label(n)])]) == Ok(LabelText(n))
  {
    hide NewContents;
    LabelsDiffer(n, n);
    OneLineUpdate("x", Label(n));
    assert "x" + "\n" == STOCK;
  }

  /** A label has no line `x`, however leniently lines are compared. */
  lemma {:induction false} UpdateLabelFails(k: nat, n: nat)
    ensures NewContents(LabelText(k), [OneLine("x", [Label(n)])]).Err?
  {
    hide Split, Seek.Seek, Trim;
    LabelShape(k);
    LabelsDiffer(k, k);
    SplitHead(Label(k), "", '\n');
    SplitWhole("", '\n');
    assert Label(k) + ['\n'] + "" == LabelText(k);
    var lines := [Label(k)];
    assert Split(LabelText(k), '\n') == [Label(k), ""];
    assert FileLines(LabelText(k)) == lines;
    NoLineX(k);
    SeekIsLocated(lines, ["x"], 0, false);
    assert PlanChunk(lines, OneLine("x", [Label(n)]), 0).Err?;
  }

  lemma NoLineX(k: nat)
    ensures !HasMatch(Normalised, [Label(k)], ["x"], 0, false)
  {
    hide Trim;
    LabelShape(k);
    var line := Label(k);
    TrimIdentity(line);
    TrimIdentity("x");
    assert NormaliseChars(line)[0] == 'a' && NormaliseChars("x")[0] == 'x';
    assert !LineMatches(Normalised, [line][0 + 0], ["x"][0]);
  }

  // ---------------------------------------------------------------- who succeeds

  function Reads(cwd: string, hunks: seq<Hunk>): set<string> {
    if hunks == [] then {}
    else (if hunks[0].AddFile? then {} else {Source(cwd, hunks[0])}) + Reads(cwd, hunks[1..])
  }

  /** The paths that are read before anything touches them. */
  function FirstReads(cwd: string, hunks: seq<Hunk>, t: Track): set<string> {
    if hunks == [] then {}
    else
      (if hunks[0].AddFile? || Source(cwd, hunks[0]) in t then {} else {Source(cwd, hunks[0])})
      + FirstReads(cwd, hunks[1..], Tracked(t, cwd, hunks[0]))
  }

  /** The files now decide that the hunk can be made: a deletion needs the file, an update the
      line `x`, which no touched path has. */
  predicate Makeable(t: Track, cwd: string, hunk: Hunk) {
    var src := Source(cwd, hunk);
    match hunk
    case AddFile(_, _) => true
    case DeleteFile(_) => src !in t || !t[src].Gone?
    case UpdateFile(_, _, _) => src !in t
  }

  predicate AllMakeable(cwd: string, hunks: seq<Hunk>, t: Track) {
    hunks != [] ==> Makeable(t, cwd, hunks[0]) && AllMakeable(cwd, hunks[1..], Tracked(t, cwd, hunks[0]))
  }

  lemma {:induction false} FirstReadsAreReads(cwd: string, hunks: seq<Hunk>, t: Track)
    ensures FirstReads(cwd, hunks, t) <= Reads(cwd, hunks) && FirstReads(cwd, hunks, t) !! t.Keys
    decreases |hunks|
  {
    hide Resolve;
    if hunks != [] {
      FirstReadsAreReads(cwd, hunks[1..], Tracked(t, cwd, hunks[0]));
      assert t.Keys <= Tracked(t, cwd, hunks[0]).Keys;
    }
  }

  ghost predicate IsLabel(text: string) {
    exists k: nat :: text == LabelText(k)
  }

  /** Touched paths hold labels or are gone. */
  ghost predicate Ready(files: Files, t: Track) {
    forall p :: p in t ==> if t[p].Gone? then p !in files else p in files && IsLabel(files[p])
  }

  lemma LabelledStep(files: Files, cwd: string, hunk: Hunk, n: nat, t: Track)
    requires Ready(files, t)
    requires !hunk.AddFile? && Source(cwd, hunk) !in t ==> Lookup(files, Source(cwd, hunk)) == Some(STOCK)
    ensures CommitHunk(files, cwd, Labelled(hunk, n)).Ok? <==> Makeable(t, cwd, hunk)
    ensures var r := CommitHunk(files, cwd, Labelled(hunk, n)); r.Ok? ==> Ready(r.value, Tracked(t, cwd, hunk))
  {
    hide Resolve, NewContents, LabelText;
    var src := Source(cwd, hunk);
    assert Source(cwd, Labelled(hunk, n)) == src && Destination(cwd, Labelled(hunk, n)) == Destination(cwd, hunk);
    UpdateStock(n);
    if hunk.UpdateFile? && src in t && src in files {
      var k: nat :| files[src] == LabelText(k);
      UpdateLabelFails(k, n);
    }
    assert IsLabel(LabelText(n));
  }

  lemma {:induction false} CommitLabelled(
      files: Files, cwd: string, hunks: seq<Hunk>, n: nat, t: Track, affected: Affected)
    requires Ready(files, t)
    requires forall p :: p in FirstReads(cwd, hunks, t) ==> Lookup(files, p) == Some(STOCK)
    ensures CommitFrom(files, cwd, LabelledAll(hunks, n), affected).outcome.Ok? <==> AllMakeable(cwd, hunks, t)
    decreases |hunks|
  {
    hide Ready, CommitHunk, Labelled, Tracked, Makeable, Lookup, Touched;
    if hunks != [] {
      var hunk, rest, labelled := hunks[0], hunks[1..], Labelled(hunks[0], n);
      LabelledStep(files, cwd, hunk, n, t);
      var step := CommitHunk(files, cwd, labelled);
      assert LabelledAll(hunks, n)[1..] == LabelledAll(rest, n + 1);
      if step.Ok? {
        var t' := Tracked(t, cwd, hunk);
        forall p | p in FirstReads(cwd, rest, t') ensures Lookup(step.value, p) == Some(STOCK) {
          FirstReadsAreReads(cwd, rest, t');
          TrackedTouched(t, cwd, hunk, n);
          CommitHunkFrame(files, cwd, labelled, p);
        }
        CommitLabelled(step.value, cwd, rest, n + 1, t', Record(affected, labelled));
      }
    }
  }

  lemma TrackedTouched(t: Track, cwd: string, hunk: Hunk, n: nat)
    ensures Touched(cwd, Labelled(hunk, n)) == Touched(cwd, hunk) <= Tracked(t, cwd, hunk).Keys
  {
  }

  function Stock(paths: set<string>): Files {
    map p | p in paths :: STOCK
  }

  lemma {:induction false} PreviewLabelled(paths: set<string>, cwd: string, hunks: seq<Hunk>, n: nat)
    ensures Preview(Stock(paths), cwd, LabelledAll(hunks, n)).Ok? <==> Reads(cwd, hunks) <= paths
    decreases |hunks|
  {
    hide PreviewHunk, Labelled, Stock;
    if hunks != [] {
      var labelled := LabelledAll(hunks, n);
      assert labelled[0] == Labelled(hunks[0], n) && labelled[1..] == LabelledAll(hunks[1..], n + 1);
      PreviewLabelled(paths, cwd, hunks[1..], n + 1);
      OnePreviewLabelled(paths, cwd, hunks[0], n);
      if PreviewHunk(Stock(paths), cwd, labelled[0]).Ok? {
        PreviewSplit(Stock(paths), cwd, labelled);
      }
    }
  }

  lemma OnePreviewLabelled(paths: set<string>, cwd: string, hunk: Hunk, n: nat)
    ensures PreviewHunk(Stock(paths), cwd, Labelled(hunk, n)).Ok? <==> hunk.AddFile? || Source(cwd, hunk) in paths
  {
    hide Resolve, NewContents;
    UpdateStock(n);
    assert Source(cwd, Labelled(hunk, n)) == Source(cwd, hunk);
  }

  /** If the files now decide every hunk but the initial ones do not, some path is first written
      and then deleted. */
  lemma {:induction false} WrittenThenRead(cwd: string, hunks: seq<Hunk>, t: Track) returns (p: string)
    requires AllMakeable(cwd, hunks, t) && !PathsAgree(cwd, hunks, t)
    ensures p in Reads(cwd, hunks) && p !in FirstReads(cwd, hunks, t) && (p in t ==> t[p].Made?)
    decreases |hunks|
  {
    hide Resolve;
    var hunk, rest := hunks[0], hunks[1..];
    if Decided(t, cwd, hunk) {
      p := WrittenThenRead(cwd, rest, Tracked(t, cwd, hunk));
    } else {
      p := Source(cwd, hunk);
      FirstReadsAreReads(cwd, rest, Tracked(t, cwd, hunk));
    }
  }

  lemma {:induction false} AgreeingIsMakeable(cwd: string, hunks: seq<Hunk>, t: Track)
    requires PathsAgree(cwd, hunks, t)
    ensures AllMakeable(cwd, hunks, t)
    decreases |hunks|
  {
    hide Resolve;
    if hunks != [] { AgreeingIsMakeable(cwd, hunks[1..], Tracked(t, cwd, hunks[0])); }
  }

  /** For these files and hunks preview and commit both succeed or both fail. */
  predicate SuccessAgrees(files: Files, cwd: string, hunks: seq<Hunk>) {
    Commit(files, cwd, hunks).outcome.Ok? <==> Preview(files, cwd, hunks).Ok?
  }

  ghost predicate AlwaysSuccessAgrees(cwd: string, hunks: seq<Hunk>) {
    forall files, others :: SameShapes(hunks, others) ==> SuccessAgrees(files, cwd, others)
  }

  lemma {:induction false} DisagreeingFiles(cwd: string, hunks: seq<Hunk>) returns (files: Files)
    requires hunks != [] && !PathsAgree(cwd, hunks, map[])
    ensures !SuccessAgrees(files, cwd, LabelledAll(hunks, 0))
  {
    hide Ready, CommitFrom, Preview, LabelledAll, Stock, AllMakeable, PathsAgree, Lookup;
    assert forall q: Files :: Ready(q, map[]) by { NothingTouched(); }
    var first, all := FirstReads(cwd, hunks, map[]), Reads(cwd, hunks);
    FirstReadsAreReads(cwd, hunks, map[]);
    if AllMakeable(cwd, hunks, map[]) {
      var p := WrittenThenRead(cwd, hunks, map[]);
      files := Stock(first);
      Stocked(first, first);
      PreviewLabelled(first, cwd, hunks, 0);
    } else {
      files := Stock(all);
      Stocked(all, first);
      PreviewLabelled(all, cwd, hunks, 0);
    }
    CommitLabelled(files, cwd, hunks, 0, map[], NOTHING);
  }

  lemma NothingTouched()
    ensures forall files: Files :: Ready(files, map[])
  {
  }

  lemma Stocked(paths: set<string>, some: set<string>)
    requires some <= paths
    ensures forall p :: p in some ==> Lookup(Stock(paths), p) == Some(STOCK)
  {
  }

  /** Preview and commit succeed alike for all files and all contents exactly when the initial
      files decide every hunk. */
  lemma {:induction false} SuccessAgreesExactly(cwd: string, hunks: seq<Hunk>)
    requires hunks != []
    ensures AlwaysSuccessAgrees(cwd, hunks) <==> PathsAgree(cwd, hunks, map[])
  {
    hide SuccessAgrees, PathsAgree, SameShapes, LabelledAll;
    if PathsAgree(cwd, hunks, map[]) {
      forall files, others | SameShapes(hunks, others) ensures SuccessAgrees(files, cwd, others) {
        AgreesForShape(files, cwd, hunks, others);
      }
    } else {
      var files := DisagreeingFiles(cwd, hunks);
      LabelledShapes(hunks, 0);
    }
  }

  lemma AgreesForShape(files: Files, cwd: string, hunks: seq<Hunk>, others: seq<Hunk>)
    requires hunks != [] && PathsAgree(cwd, hunks, map[]) && SameShapes(hunks, others)
    ensures SuccessAgrees(files, cwd, others)
    ensures Preview(files, cwd, others).Ok? && LastingResults(cwd, hunks) ==>
      Describes(files, Preview(files, cwd, others).value, Commit(files, cwd, others).files)
  {
    hide PathsAgree, LastingResults, Describes, Commit, Preview;
    ShapesAgree(cwd, hunks, others, map[]);
    ShapesLast(cwd, hunks, others);
    assert others != [];
    OrderlyAgreement(files, cwd, others);
  }

  // ---------------------------------------------------------------- what is described

  /** No label from `n` on is in use. */
  ghost predicate FreshFrom(files: Files, n: nat) {
    forall p, k: nat :: p in files && n <= k ==> files[p] != LabelText(k)
  }

  ghost predicate AllStock(files: Files) {
    forall p :: p in files ==> files[p] == STOCK
  }

  /** A point of the commit of labelled hunks. */
  ghost predicate Point(initial: Files, files: Files, cwd: string, hunks: seq<Hunk>, n: nat, t: Track) {
    && AllStock(initial) && Related(initial, files, t)
    && PathsAgree(cwd, LabelledAll(hunks, n), t) && Preview(initial, cwd, LabelledAll(hunks, n)).Ok?
  }

  /** What one labelled hunk does. */
  predicate Wrote(before: Files, after: Files, cwd: string, hunk: Hunk, n: nat) {
    var src, dest := Source(cwd, hunk), Destination(cwd, hunk);
    match hunk
    case AddFile(_, _) => Lookup(after, src) == Some(LabelText(n))
    case DeleteFile(_) => Lookup(after, src) == None
    case UpdateFile(_, _, _) =>
      if dest.None? then Lookup(after, src) == Some(LabelText(n))
      else Lookup(after, src) == None && (dest.value != src ==> Lookup(after, dest.value) == Some(LabelText(n)))
  }

  /** What the preview says of it. */
  predicate Says(cwd: string, hunk: Hunk, n: nat, change: Change) {
    match hunk
    case AddFile(_, _) => change == Add(LabelText(n))
    case DeleteFile(_) => change.Delete?
    case UpdateFile(_, _, _) => change == Update(Destination(cwd, hunk), LabelText(n))
  }

  lemma {:induction false} PointStep(initial: Files, files: Files, cwd: string, hunks: seq<Hunk>, n: nat, t: Track)
    requires hunks != [] && Point(initial, files, cwd, hunks, n, t)
    ensures LabelledAll(hunks, n)[1..] == LabelledAll(hunks[1..], n + 1)
    ensures var labelled := Labelled(hunks[0], n);
            var step, change := CommitHunk(files, cwd, labelled), PreviewHunk(initial, cwd, labelled);
            && step.Ok? && Wrote(files, step.value, cwd, hunks[0], n)
            && change.Ok? && Says(cwd, hunks[0], n, change.value)
            && Point(initial, step.value, cwd, hunks[1..], n + 1, Tracked(t, cwd, hunks[0]))
  {
    hide CommitHunk, PreviewHunk, Tracked, Decided, Labelled, RelatedAt, Wrote, Says;
    var labelled, rest := Labelled(hunks[0], n), LabelledAll(hunks[1..], n + 1);
    assert LabelledAll(hunks, n)[0] == labelled && LabelledAll(hunks, n)[1..] == rest;
    LabelledShape(hunks[0], n);
    ShapePaths(cwd, hunks[0], labelled, t);
    assert RelatedAt(initial, files, t, Source(cwd, labelled));
    assert PreviewHunk(initial, cwd, labelled).Ok?;
    StepDecided(initial, files, cwd, labelled, t);
    StepRelated(initial, files, cwd, labelled, t);
    PreviewSplit(initial, cwd, LabelledAll(hunks, n));
    LabelledEffect(initial, files, cwd, hunks[0], n);
  }

  lemma LabelledShape(hunk: Hunk, n: nat)
    ensures SameShape(hunk, Labelled(hunk, n))
  {
  }

  lemma LabelledEffect(initial: Files, files: Files, cwd: string, hunk: Hunk, n: nat)
    requires AllStock(initial)
    requires PreviewHunk(initial, cwd, Labelled(hunk, n)).Ok? && CommitHunk(files, cwd, Labelled(hunk, n)).Ok?
    requires hunk.UpdateFile? ==> Lookup(initial, Source(cwd, hunk)) == Lookup(files, Source(cwd, hunk))
    ensures Wrote(files, CommitHunk(files, cwd, Labelled(hunk, n)).value, cwd, hunk, n)
    ensures Says(cwd, hunk, n, PreviewHunk(initial, cwd, Labelled(hunk, n)).value)
  {
    hide Resolve, NewContents, LabelText;
    UpdateStock(n);
    assert Source(cwd, Labelled(hunk, n)) == Source(cwd, hunk);
    assert Destination(cwd, Labelled(hunk, n)) == Destination(cwd, hunk);
  }

  /** What became of a touched path: gone, or labelled by one of these hunks; labelled, if it is
      no hunk's source. */
  ghost predicate Settled(cwd: string, hunks: seq<Hunk>, n: nat, p: string, found: Option<string>) {
    && (found.Some? ==> exists k: nat :: n <= k && found.value == LabelText(k))
    && (!HasSource(cwd, hunks, p) ==> found.Some?)
  }

  lemma {:induction false} TouchedSettles(
      initial: Files, files: Files, cwd: string, hunks: seq<Hunk>, n: nat, t: Track, affected: Affected, p: string)
    requires Point(initial, files, cwd, hunks, n, t) && p in TouchedByAll(cwd, hunks)
    ensures Settled(cwd, hunks, n, p, Lookup(CommitFrom(files, cwd, LabelledAll(hunks, n), affected).files, p))
    decreases |hunks|
  {
    hide Point, CommitHunk, PreviewHunk, Tracked, Labelled, HasSource, Lookup, LabelText, Wrote, Says;
    var hunk, rest := hunks[0], hunks[1..];
    PointStep(initial, files, cwd, hunks, n, t);
    SourceOfTail(cwd, hunks, p);
    var middle := CommitHunk(files, cwd, Labelled(hunk, n)).value;
    var affected' := Record(affected, Labelled(hunk, n));
    var after := CommitFrom(middle, cwd, LabelledAll(rest, n + 1), affected').files;
    assert CommitFrom(files, cwd, LabelledAll(hunks, n), affected).files == after;
    if p in TouchedByAll(cwd, rest) {
      TouchedSettles(initial, middle, cwd, rest, n + 1, Tracked(t, cwd, hunk), affected', p);
    } else {
      LabelledShapes(rest, n + 1);
      ShapesLast(cwd, rest, LabelledAll(rest, n + 1));
      CommitFrame(middle, cwd, LabelledAll(rest, n + 1), affected', p);
      WroteSettles(files, middle, cwd, hunk, n, p);
    }
  }

  lemma WroteSettles(before: Files, after: Files, cwd: string, hunk: Hunk, n: nat, p: string)
    requires Wrote(before, after, cwd, hunk, n) && p in Touched(cwd, hunk)
    ensures Lookup(after, p).None? || Lookup(after, p) == Some(LabelText(n))
    ensures Source(cwd, hunk) != p ==> Lookup(after, p) == Some(LabelText(n))
  {
    hide Resolve, LabelText;
  }

  /** What a described result says of the first hunk: what it wrote lasts. */
  lemma FirstLasts(
      initial: Files, files: Files, cwd: string, hunks: seq<Hunk>, n: nat, t: Track, affected: Affected, change: Change)
    requires hunks != [] && Point(initial, files, cwd, hunks, n, t) && Says(cwd, hunks[0], n, change)
    requires var after := CommitFrom(files, cwd, LabelledAll(hunks, n), affected).files;
             Realised(Source(cwd, hunks[0]), change, after)
    requires !HasSource(cwd, hunks[1..], Source(cwd, hunks[0]))
    ensures Destination(cwd, hunks[0]) != Some(Source(cwd, hunks[0]))
    ensures Touched(cwd, hunks[0]) !! TouchedByAll(cwd, hunks[1..])
  {
    hide Point, CommitHunk, PreviewHunk, Tracked, Labelled, HasSource, LabelText, Wrote, TouchedByAll, Resolve;
    var hunk, rest := hunks[0], hunks[1..];
    PointStep(initial, files, cwd, hunks, n, t);
    var middle, affected' := CommitHunk(files, cwd, Labelled(hunk, n)).value, Record(affected, Labelled(hunk, n));
    var after := CommitFrom(middle, cwd, LabelledAll(rest, n + 1), affected').files;
    assert CommitFrom(files, cwd, LabelledAll(hunks, n), affected).files == after;
    forall p | p in Touched(cwd, hunk) ensures p !in TouchedByAll(cwd, rest) {
      if p in TouchedByAll(cwd, rest) {
        TouchedSettles(initial, middle, cwd, rest, n + 1, Tracked(t, cwd, hunk), affected', p);
        SettledIsNew(cwd, rest, n, p, Lookup(after, p));
      }
    }
  }

  lemma SettledIsNew(cwd: string, hunks: seq<Hunk>, n: nat, p: string, found: Option<string>)
    requires Settled(cwd, hunks, n + 1, p, found)
    ensures found != Some(LabelText(n)) && (!HasSource(cwd, hunks, p) ==> found.Some?)
  {
    hide LabelText, HasSource;
    if found.Some? {
      var k: nat :| n + 1 <= k && found.value == LabelText(k);
      LabelsDiffer(n, k);
    }
  }

  /** If a later hunk takes the place of the first, the destination of the first is spoken of. */
  lemma ReplacedIsDescribed(
      initial: Files, files: Files, cwd: string, hunks: seq<Hunk>, n: nat, t: Track, affected: Affected,
      changes: map<string, Change>)
    requires hunks != [] && Point(initial, files, cwd, hunks, n, t) && FreshFrom(files, n)
    requires Preview(initial, cwd, LabelledAll(hunks[1..], n + 1)) == Ok(changes)
    requires Leaves(files, changes, CommitFrom(files, cwd, LabelledAll(hunks, n), affected).files)
    requires HasSource(cwd, hunks[1..], Source(cwd, hunks[0])) && Destination(cwd, hunks[0]).Some?
    ensures Destination(cwd, hunks[0]).value in Described(cwd, hunks[1..])
  {
    hide Point, CommitHunk, PreviewHunk, Tracked, Labelled, HasSource, LabelText, TouchedByAll, Resolve, Mentions;
    hide Described, FreshFrom, Preview;
    var hunk, rest := hunks[0], hunks[1..];
    var labelled, d := LabelledAll(rest, n + 1), Destination(cwd, hunk).value;
    PointStep(initial, files, cwd, hunks, n, t);
    LabelledShapes(rest, n + 1);
    ShapesLast(cwd, rest, labelled);
    ShapesSources(cwd, rest, labelled, d);
    var middle, affected' := CommitHunk(files, cwd, Labelled(hunk, n)).value, Record(affected, Labelled(hunk, n));
    var after := CommitFrom(middle, cwd, labelled, affected').files;
    assert CommitFrom(files, cwd, LabelledAll(hunks, n), affected).files == after;
    if d !in Described(cwd, rest) {
      PreviewMentions(initial, cwd, labelled, d);
      assert Lookup(after, d) == Lookup(files, d);
      if HasSource(cwd, rest, d) { SourceDescribed(cwd, rest, d); }
      if d in TouchedByAll(cwd, rest) {
        TouchedSettles(initial, middle, cwd, rest, n + 1, Tracked(t, cwd, hunk), affected', d);
        NewIsNotOld(files, cwd, rest, n, n + 1, d, Lookup(after, d));
      } else {
        CommitFrame(middle, cwd, labelled, affected', d);
        LabelIsNotOld(files, n, d);
      }
    }
  }

  lemma NewIsNotOld(files: Files, cwd: string, hunks: seq<Hunk>, n: nat, m: nat, p: string, found: Option<string>)
    requires FreshFrom(files, n) && n <= m && Settled(cwd, hunks, m, p, found) && !HasSource(cwd, hunks, p)
    ensures found != Lookup(files, p)
  {
    hide LabelText, HasSource;
  }

  lemma LabelIsNotOld(files: Files, n: nat, p: string)
    requires FreshFrom(files, n)
    ensures Lookup(files, p) != Some(LabelText(n))
  {
    hide LabelText;
  }

  lemma FreshStep(files: Files, cwd: string, hunk: Hunk, n: nat)
    requires FreshFrom(files, n) && CommitHunk(files, cwd, Labelled(hunk, n)).Ok?
    requires Wrote(files, CommitHunk(files, cwd, Labelled(hunk, n)).value, cwd, hunk, n)
    ensures FreshFrom(CommitHunk(files, cwd, Labelled(hunk, n)).value, n + 1)
  {
    hide CommitHunk, LabelText, Labelled, Wrote, Touched;
    var middle := CommitHunk(files, cwd, Labelled(hunk, n)).value;
    forall p, k: nat | p in middle && n + 1 <= k ensures middle[p] != LabelText(k) {
      LabelsDiffer(n, k);
      TrackedTouched(map[], cwd, hunk, n);
      if p in Touched(cwd, hunk) {
        WroteSettles(files, middle, cwd, hunk, n, p);
      } else {
        CommitHunkFrame(files, cwd, Labelled(hunk, n), p);
        assert p in files && files[p] == middle[p];
      }
    }
  }

  /** For the remaining hunks the description is right too. */
  lemma RestDescribed(
      files: Files, middle: Files, after: Files, cwd: string, hunks: seq<Hunk>, n: nat, change: Change,
      changes: map<string, Change>)
    requires hunks != [] && CommitHunk(files, cwd, Labelled(hunks[0], n)) == Ok(middle) && Fits(cwd, hunks[0], change)
    requires Leaves(files, map[Source(cwd, hunks[0]) := change] + changes, after)
    requires forall p :: p in Touched(cwd, hunks[0]) && !Mentions(changes, p) ==> Lookup(after, p) == Lookup(middle, p)
    ensures Leaves(middle, changes, after)
  {
    hide CommitHunk, Mentions, Touched, Lookup, Realised, Labelled;
    var hunk, all := hunks[0], map[Source(cwd, hunks[0]) := change] + changes;
    forall q | q in changes ensures Realised(q, changes[q], after) {
      assert all[q] == changes[q];
    }
    forall p | !Mentions(changes, p) ensures Lookup(after, p) == Lookup(middle, p) {
      if p !in Touched(cwd, hunk) {
        MentionsMore(cwd, hunk, change, changes, p);
        TrackedTouched(map[], cwd, hunk, n);
        CommitHunkFrame(files, cwd, Labelled(hunk, n), p);
        assert !Mentions(all, p);
      }
    }
  }

  /** A right description of labelled hunks means that what the changes say lasts. */
  lemma {:induction false} DescribedLasts(
      initial: Files, files: Files, cwd: string, hunks: seq<Hunk>, n: nat, t: Track, affected: Affected)
    requires Point(initial, files, cwd, hunks, n, t) && FreshFrom(files, n)
    requires Leaves(files, Preview(initial, cwd, LabelledAll(hunks, n)).value,
                       CommitFrom(files, cwd, LabelledAll(hunks, n), affected).files)
    ensures LastingResults(cwd, hunks)
    decreases |hunks|
  {
    hide Point, CommitHunk, PreviewHunk, Tracked, Labelled, HasSource, Lookup, LabelText, Wrote, Says, Mentions;
    hide Described, FreshFrom, Leaves, Touched, TouchedByAll, Realised, Preview;
    if hunks != [] {
      var hunk, rest := hunks[0], hunks[1..];
      var src, labelled, tail := Source(cwd, hunk), Labelled(hunk, n), LabelledAll(rest, n + 1);
      PointStep(initial, files, cwd, hunks, n, t);
      FreshStep(files, cwd, hunk, n);
      var middle, affected' := CommitHunk(files, cwd, labelled).value, Record(affected, labelled);
      var after := CommitFrom(middle, cwd, tail, affected').files;
      assert CommitFrom(files, cwd, LabelledAll(hunks, n), affected).files == after;
      assert Source(cwd, labelled) == src by { LabelledSource(cwd, hunk, n); }
      PointPreview(initial, files, cwd, hunks, n, t);
      PointPreview(initial, middle, cwd, rest, n + 1, Tracked(t, cwd, hunk));
      PreviewSplit(initial, cwd, LabelledAll(hunks, n));
      var change, changes := PreviewHunk(initial, cwd, labelled).value, Preview(initial, cwd, tail).value;
      SaysFits(cwd, hunk, n, change);
      FirstIsLasting(initial, files, cwd, hunks, n, t, affected, change, changes);
      forall p | p in Touched(cwd, hunk) && !Mentions(changes, p) ensures Lookup(after, p) == Lookup(middle, p) {
        UnspokenStays(initial, middle, cwd, hunks, n, affected', changes, p);
      }
      RestDescribed(files, middle, after, cwd, hunks, n, change, changes);
      DescribedLasts(initial, middle, cwd, rest, n + 1, Tracked(t, cwd, hunk), affected');
    }
  }

  lemma LabelledSource(cwd: string, hunk: Hunk, n: nat)
    ensures Source(cwd, Labelled(hunk, n)) == Source(cwd, hunk)
  {
  }

  lemma PointPreview(initial: Files, files: Files, cwd: string, hunks: seq<Hunk>, n: nat, t: Track)
    requires Point(initial, files, cwd, hunks, n, t)
    ensures Preview(initial, cwd, LabelledAll(hunks, n)).Ok?
  {
  }

  lemma SaysFits(cwd: string, hunk: Hunk, n: nat, change: Change)
    requires Says(cwd, hunk, n, change)
    ensures Fits(cwd, hunk, change)
  {
  }

  /** The first hunk meets its part of the condition. */
  predicate FirstLasting(cwd: string, hunks: seq<Hunk>)
    requires hunks != []
  {
    var src, dest, rest := Source(cwd, hunks[0]), Destination(cwd, hunks[0]), hunks[1..];
    if HasSource(cwd, rest, src) then dest.Some? ==> dest.value in Described(cwd, rest)
    else dest != Some(src) && Touched(cwd, hunks[0]) !! TouchedByAll(cwd, rest)
  }

  lemma FirstIsLasting(
      initial: Files, files: Files, cwd: string, hunks: seq<Hunk>, n: nat, t: Track, affected: Affected,
      change: Change, changes: map<string, Change>)
    requires hunks != [] && Point(initial, files, cwd, hunks, n, t) && FreshFrom(files, n)
    requires Says(cwd, hunks[0], n, change) && Preview(initial, cwd, LabelledAll(hunks[1..], n + 1)) == Ok(changes)
    requires Leaves(files, map[Source(cwd, hunks[0]) := change] + changes,
                       CommitFrom(files, cwd, LabelledAll(hunks, n), affected).files)
    ensures FirstLasting(cwd, hunks)
  {
    hide Point, Says, HasSource, Mentions, Described, FreshFrom, Touched, TouchedByAll, Realised, Preview, CommitFrom;
    hide LabelledAll, Lookup;
    var src, rest := Source(cwd, hunks[0]), hunks[1..];
    var tail := LabelledAll(rest, n + 1);
    LabelledShapes(rest, n + 1);
    ShapesSources(cwd, rest, tail, src);
    PreviewMentions(initial, cwd, tail, src);
    var all := map[src := change] + changes;
    if HasSource(cwd, rest, src) {
      assert all == changes;
      if Destination(cwd, hunks[0]).Some? {
        ReplacedIsDescribed(initial, files, cwd, hunks, n, t, affected, changes);
      }
    } else {
      assert all[src] == change;
      FirstLasts(initial, files, cwd, hunks, n, t, affected, change);
    }
  }

  /** A path of the first hunk that the later changes do not speak of is not touched again. */
  lemma UnspokenStays(
      initial: Files, middle: Files, cwd: string, hunks: seq<Hunk>, n: nat, affected: Affected,
      changes: map<string, Change>, p: string)
    requires hunks != [] && FirstLasting(cwd, hunks) && p in Touched(cwd, hunks[0]) && !Mentions(changes, p)
    requires Preview(initial, cwd, LabelledAll(hunks[1..], n + 1)) == Ok(changes)
    ensures Lookup(CommitFrom(middle, cwd, LabelledAll(hunks[1..], n + 1), affected).files, p) == Lookup(middle, p)
  {
    hide HasSource, Mentions, Described, TouchedByAll, Preview, CommitFrom, LabelledAll, Lookup, Resolve;
    var src, rest := Source(cwd, hunks[0]), hunks[1..];
    var tail := LabelledAll(rest, n + 1);
    LabelledShapes(rest, n + 1);
    ShapesLast(cwd, rest, tail);
    PreviewMentions(initial, cwd, tail, p);
    if HasSource(cwd, rest, src) {
      SourceDescribed(cwd, rest, src);
    } else {
      CommitFrame(middle, cwd, tail, affected, p);
    }
  }

  // ---------------------------------------------------------------- the whole agreement

  /** Success agrees, and then the preview describes what the commit leaves. */
  ghost predicate Agrees(files: Files, cwd: string, hunks: seq<Hunk>) {
    && SuccessAgrees(files, cwd, hunks)
    && (Preview(files, cwd, hunks).Ok? ==>
          Describes(files, Preview(files, cwd, hunks).value, Commit(files, cwd, hunks).files))
  }

  ghost predicate AlwaysAgrees(cwd: string, hunks: seq<Hunk>) {
    forall files, others :: SameShapes(hunks, others) ==> Agrees(files, cwd, others)
  }

  lemma {:induction false} StockPoint(cwd: string, hunks: seq<Hunk>)
    requires PathsAgree(cwd, hunks, map[])
    ensures var files := Stock(Reads(cwd, hunks)); Point(files, files, cwd, hunks, 0, map[]) && FreshFrom(files, 0)
  {
    hide PathsAgree, Preview, Stock, LabelText, LabelledAll, RelatedAt;
    var paths := Reads(cwd, hunks);
    var files := Stock(paths);
    PreviewLabelled(paths, cwd, hunks, 0);
    LabelledShapes(hunks, 0);
    ShapesAgree(cwd, hunks, LabelledAll(hunks, 0), map[]);
    StockIsStock(paths);
    forall p ensures RelatedAt(files, files, map[], p) { SameRelated(files, p); }
    forall p, k: nat | p in files ensures files[p] != LabelText(k) { LabelsDiffer(k, k); }
  }

  lemma SameRelated(files: Files, p: string)
    ensures RelatedAt(files, files, map[], p)
  {
  }

  lemma StockIsStock(paths: set<string>)
    ensures AllStock(Stock(paths))
  {
  }

  /** Preview and commit agree for all files and all contents exactly when the initial files decide
      every hunk and what the changes say lasts. Both are conditions on the paths alone. */
  lemma {:induction false} AgreementExactly(cwd: string, hunks: seq<Hunk>)
    requires hunks != []
    ensures AlwaysAgrees(cwd, hunks) <==> PathsAgree(cwd, hunks, map[]) && LastingResults(cwd, hunks)
  {
    hide PathsAgree, LastingResults, SameShapes, LabelledAll, Leaves, Preview, CommitFrom, Point, SuccessAgrees;
    if PathsAgree(cwd, hunks, map[]) && LastingResults(cwd, hunks) {
      forall files, others | SameShapes(hunks, others) ensures Agrees(files, cwd, others) {
        AgreesForShape(files, cwd, hunks, others);
      }
    }
    if AlwaysAgrees(cwd, hunks) {
      forall files, others | SameShapes(hunks, others) ensures SuccessAgrees(files, cwd, others) {
        assert Agrees(files, cwd, others);
      }
      SuccessAgreesExactly(cwd, hunks);
      var files, labelled := Stock(Reads(cwd, hunks)), LabelledAll(hunks, 0);
      LabelledShapes(hunks, 0);
      StockPoint(cwd, hunks);
      PointPreview(files, files, cwd, hunks, 0, map[]);
      assert Agrees(files, cwd, labelled);
      assert labelled != [];
      DescribedLasts(files, files, cwd, hunks, 0, map[], NOTHING);
    }
  }
}
