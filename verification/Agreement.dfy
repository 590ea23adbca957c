/** When the preview of a patch and its commit agree, and exactly when they always do
    (`apply_hunks_to_files` in `crates/apply-patch/src/lib.rs`, the loop over hunks in
    `maybe_parse_apply_patch_verified` in `crates/apply-patch/src/invocation.rs`). */
module Agreement {
  import opened Text
  import opened Patch
  import opened Planner
  import opened Disk

  // ---------------------------------------------------------------- what the paths alone tell

  /** A touched path: there now as it was at first; there now, whatever it was; or gone, having
      been there at first. */
  datatype Status = Present | Made | Gone

  type Track = map<string, Status>

  function Write(t: Track, p: string): Track {
    t[p := if p !in t || t[p].Made? then Made else Present]
  }

  /** What is known of the paths after a hunk that could be made. */
  function Tracked(t: Track, cwd: string, hunk: Hunk): Track {
    var src := Source(cwd, hunk);
    match hunk
    case AddFile(_, _) => Write(t, src)
    case DeleteFile(_) => t[src := Gone]
    case UpdateFile(_, _, _) =>
      match Destination(cwd, hunk)
      case None => t[src := Present]
      case Some(dest) => Write(t, dest)[src := Gone]
  }

  /** The initial files decide whether the hunk can be made: an update needs the contents as they
      were, a deletion only that the file is there if it was at first. */
  predicate Decided(t: Track, cwd: string, hunk: Hunk) {
    var src := Source(cwd, hunk);
    match hunk
    case AddFile(_, _) => true
    case DeleteFile(_) => src !in t || t[src].Present?
    case UpdateFile(_, _, _) => src !in t
  }

  /** Every hunk is decided by the initial files. */
  predicate PathsAgree(cwd: string, hunks: seq<Hunk>, t: Track) {
    hunks != [] ==> Decided(t, cwd, hunks[0]) && PathsAgree(cwd, hunks[1..], Tracked(t, cwd, hunks[0]))
  }

  predicate HasSource(cwd: string, hunks: seq<Hunk>, path: string) {
    exists i :: 0 <= i < |hunks| && Source(cwd, hunks[i]) == path
  }

  /** The paths a preview speaks of; it keeps only the last change for a source. */
  function Described(cwd: string, hunks: seq<Hunk>): set<string> {
    if hunks == [] then {}
    else
      (if HasSource(cwd, hunks[1..], Source(cwd, hunks[0])) then {} else Touched(cwd, hunks[0]))
      + Described(cwd, hunks[1..])
  }

  /** What a change says lasts: the paths of a hunk are not touched again, unless a later hunk
      about the same source takes its place, and then its destination is spoken of elsewhere. */
  predicate LastingResults(cwd: string, hunks: seq<Hunk>) {
    hunks != [] ==>
      var hunk, rest := hunks[0], hunks[1..];
      var src, dest := Source(cwd, hunk), Destination(cwd, hunk);
      && (if HasSource(cwd, rest, src) then dest.Some? ==> dest.value in Described(cwd, rest)
          else dest != Some(src) && Touched(cwd, hunk) !! TouchedByAll(cwd, rest))
      && LastingResults(cwd, rest)
  }

  // ---------------------------------------------------------------- the preview

  /** The changes gathered so far only add to what the rest yields. */
  lemma {:induction false} PreviewStartsFrom(files: Files, cwd: string, hunks: seq<Hunk>, changes: map<string, Change>)
    ensures var r, plain := PreviewFrom(files, cwd, hunks, changes), Preview(files, cwd, hunks);
            if plain.Err? then r == Err(plain.error) else r == Ok(changes + plain.value)
  {
    if hunks == [] {
      assert changes + map[] == changes;
    } else {
      var step, src := PreviewHunk(files, cwd, hunks[0]), Source(cwd, hunks[0]);
      if step.Ok? {
        PreviewStartsFrom(files, cwd, hunks[1..], changes[src := step.value]);
        PreviewStartsFrom(files, cwd, hunks[1..], map[src := step.value]);
        assert map[][src := step.value] == map[src := step.value];
        var rest := Preview(files, cwd, hunks[1..]);
        if rest.Ok? {
          assert changes[src := step.value] + rest.value == changes + (map[src := step.value] + rest.value);
        }
      }
    }
  }

  lemma PreviewSplit(files: Files, cwd: string, hunks: seq<Hunk>)
    requires hunks != [] && PreviewHunk(files, cwd, hunks[0]).Ok?
    ensures var change, rest := PreviewHunk(files, cwd, hunks[0]).value, Preview(files, cwd, hunks[1..]);
            if rest.Err? then Preview(files, cwd, hunks) == Err(rest.error)
            else Preview(files, cwd, hunks) == Ok(map[Source(cwd, hunks[0]) := change] + rest.value)
  {
    var src, change := Source(cwd, hunks[0]), PreviewHunk(files, cwd, hunks[0]).value;
    assert map[][src := change] == map[src := change];
    PreviewStartsFrom(files, cwd, hunks[1..], map[src := change]);
  }

  lemma SourceOfTail(cwd: string, hunks: seq<Hunk>, p: string)
    requires hunks != []
    ensures HasSource(cwd, hunks, p) <==> Source(cwd, hunks[0]) == p || HasSource(cwd, hunks[1..], p)
  {
    hide Source;
    if HasSource(cwd, hunks, p) && Source(cwd, hunks[0]) != p {
      var i :| 0 <= i < |hunks| && Source(cwd, hunks[i]) == p;
      assert hunks[1..][i - 1] == hunks[i];
    }
    if HasSource(cwd, hunks[1..], p) {
      var i :| 0 <= i < |hunks[1..]| && Source(cwd, hunks[1..][i]) == p;
      assert hunks[i + 1] == hunks[1..][i];
    }
  }

  /** A preview has a change for every source and speaks of the described paths. */
  lemma {:induction false} PreviewMentions(files: Files, cwd: string, hunks: seq<Hunk>, p: string)
    requires Preview(files, cwd, hunks).Ok?
    ensures p in Preview(files, cwd, hunks).value <==> HasSource(cwd, hunks, p)
    ensures Mentions(Preview(files, cwd, hunks).value, p) <==> p in Described(cwd, hunks)
    decreases |hunks|
  {
    hide Mentions, Touched, HasSource, PreviewHunk;
    if hunks == [] {
      NoMentions(p);
      assert !HasSource(cwd, [], p) by { NoSource(cwd, p); }
    } else {
      var src := Source(cwd, hunks[0]);
      PreviewSplit(files, cwd, hunks);
      PreviewMentions(files, cwd, hunks[1..], p);
      PreviewMentions(files, cwd, hunks[1..], src);
      SourceOfTail(cwd, hunks, p);
      var change, rest := PreviewHunk(files, cwd, hunks[0]).value, Preview(files, cwd, hunks[1..]).value;
      ChangeKind(files, cwd, hunks[0]);
      MentionsMore(cwd, hunks[0], change, rest, p);
    }
  }

  lemma NoMentions(p: string)
    ensures !Mentions(map[], p)
  {
  }

  lemma NoSource(cwd: string, p: string)
    ensures !HasSource(cwd, [], p)
  {
  }

  /** A change is a move exactly if its hunk is one. */
  predicate Fits(cwd: string, hunk: Hunk, change: Change) {
    && (change.Update? <==> hunk.UpdateFile?)
    && (change.Update? ==> change.movePath == Destination(cwd, hunk))
  }

  lemma ChangeKind(files: Files, cwd: string, hunk: Hunk)
    requires PreviewHunk(files, cwd, hunk).Ok?
    ensures Fits(cwd, hunk, PreviewHunk(files, cwd, hunk).value)
  {
  }

  lemma MentionsMore(cwd: string, hunk: Hunk, change: Change, rest: map<string, Change>, p: string)
    requires Fits(cwd, hunk, change)
    ensures var src := Source(cwd, hunk);
            var all := map[src := change] + rest;
            && (src in rest ==> all == rest)
            && (src !in rest ==> (Mentions(all, p) <==> p in Touched(cwd, hunk) || Mentions(rest, p)))
  {
    hide Resolve;
    var src := Source(cwd, hunk);
    var all := map[src := change] + rest;
    if src in rest {
      assert all == rest;
    } else {
      assert all[src] == change;
      if Mentions(rest, p) {
        if p !in rest {
          var q :| q in rest && rest[q].Update? && rest[q].movePath == Some(p);
          assert q in all && all[q] == rest[q];
        }
        assert Mentions(all, p);
      }
      if p in Touched(cwd, hunk) { assert Mentions(all, p); }
      if Mentions(all, p) && p !in all {
        var q :| q in all && all[q].Update? && all[q].movePath == Some(p);
        assert q == src || all[q] == rest[q];
      }
    }
  }

  // ---------------------------------------------------------------- agreement

  /** The initial files and those now, on one path. */
  predicate RelatedAt(initial: Files, files: Files, t: Track, p: string) {
    if p !in t then Lookup(files, p) == Lookup(initial, p)
    else
      match t[p]
      case Present => p in files && p in initial
      case Made => p in files
      case Gone => p !in files && p in initial
  }

  ghost predicate Related(initial: Files, files: Files, t: Track) {
    forall p :: RelatedAt(initial, files, t, p)
  }

  lemma StepDecided(initial: Files, files: Files, cwd: string, hunk: Hunk, t: Track)
    requires RelatedAt(initial, files, t, Source(cwd, hunk)) && Decided(t, cwd, hunk)
    ensures PreviewHunk(initial, cwd, hunk).Ok? <==> CommitHunk(files, cwd, hunk).Ok?
    ensures hunk.UpdateFile? ==> Lookup(initial, Source(cwd, hunk)) == Lookup(files, Source(cwd, hunk))
  {
    hide Resolve, NewContents;
  }

  lemma StepRelated(initial: Files, files: Files, cwd: string, hunk: Hunk, t: Track)
    requires Related(initial, files, t) && Decided(t, cwd, hunk)
    requires PreviewHunk(initial, cwd, hunk).Ok? && CommitHunk(files, cwd, hunk).Ok?
    ensures Related(initial, CommitHunk(files, cwd, hunk).value, Tracked(t, cwd, hunk))
  {
    hide Resolve, NewContents;
    var middle, src := CommitHunk(files, cwd, hunk).value, Source(cwd, hunk);
    forall p ensures RelatedAt(initial, middle, Tracked(t, cwd, hunk), p) {
      assert RelatedAt(initial, files, t, p) && RelatedAt(initial, files, t, src);
      if p !in Touched(cwd, hunk) { CommitHunkFrame(files, cwd, hunk, p); }
    }
  }

  /** From any point of a commit on: it succeeds exactly when the preview of the initial files
      does, if these decide every hunk. */
  lemma {:induction false} SuccessFrom(
      initial: Files, files: Files, cwd: string, hunks: seq<Hunk>, t: Track, affected: Affected)
    requires Related(initial, files, t) && PathsAgree(cwd, hunks, t)
    ensures CommitFrom(files, cwd, hunks, affected).outcome.Ok? <==> Preview(initial, cwd, hunks).Ok?
    decreases |hunks|
  {
    hide CommitHunk, PreviewHunk, Tracked, Decided, RelatedAt;
    if hunks != [] {
      assert RelatedAt(initial, files, t, Source(cwd, hunks[0]));
      StepDecided(initial, files, cwd, hunks[0], t);
      var step := CommitHunk(files, cwd, hunks[0]);
      if step.Ok? {
        StepRelated(initial, files, cwd, hunks[0], t);
        SuccessFrom(initial, step.value, cwd, hunks[1..], Tracked(t, cwd, hunks[0]), Record(affected, hunks[0]));
        PreviewSplit(initial, cwd, hunks);
      }
    }
  }

  lemma ChangeRealised(initial: Files, files: Files, cwd: string, hunk: Hunk)
    requires PreviewHunk(initial, cwd, hunk).Ok? && CommitHunk(files, cwd, hunk).Ok?
    requires hunk.UpdateFile? ==> Lookup(initial, Source(cwd, hunk)) == Lookup(files, Source(cwd, hunk))
    requires Destination(cwd, hunk) != Some(Source(cwd, hunk))
    ensures Realised(Source(cwd, hunk), PreviewHunk(initial, cwd, hunk).value, CommitHunk(files, cwd, hunk).value)
  {
    hide Resolve, NewContents;
  }

  /** The first hunk's change stays realised, since the remaining hunks touch other paths. */
  lemma LeavesFirst(
      before: Files, middle: Files, after: Files, cwd: string, hunk: Hunk, change: Change, rest: map<string, Change>)
    requires CommitHunk(before, cwd, hunk) == Ok(middle) && Fits(cwd, hunk, change)
    requires Realised(Source(cwd, hunk), change, middle)
    requires Leaves(middle, rest, after)
    requires forall p :: p in Touched(cwd, hunk) ==> !Mentions(rest, p)
    ensures Leaves(before, map[Source(cwd, hunk) := change] + rest, after)
  {
    hide CommitHunk, Resolve, Mentions;
    var src, dest := Source(cwd, hunk), Destination(cwd, hunk);
    var all := map[src := change] + rest;
    assert src in Touched(cwd, hunk) && !Mentions(rest, src);
    assert src !in rest by { MentionsSource(rest, src); }
    assert Realised(src, change, after) by {
      assert Lookup(after, src) == Lookup(middle, src);
      if dest.Some? { assert dest.value in Touched(cwd, hunk); }
    }
    forall q | q in all ensures Realised(q, all[q], after) {
      if q in rest { assert all[q] == rest[q]; }
    }
    forall p | !Mentions(all, p) ensures Lookup(after, p) == Lookup(before, p) {
      MentionsMore(cwd, hunk, change, rest, p);
      CommitHunkFrame(before, cwd, hunk, p);
    }
  }

  lemma MentionsSource(changes: map<string, Change>, p: string)
    requires !Mentions(changes, p)
    ensures p !in changes
  {
  }

  /** The other case: a later change for the same path takes the place of the first hunk's. */
  lemma LeavesReplaced(
      before: Files, middle: Files, after: Files, cwd: string, hunk: Hunk, change: Change, rest: map<string, Change>)
    requires CommitHunk(before, cwd, hunk) == Ok(middle) && Leaves(middle, rest, after)
    requires Source(cwd, hunk) in rest
    requires forall p :: p in Touched(cwd, hunk) ==> Mentions(rest, p)
    ensures Leaves(before, map[Source(cwd, hunk) := change] + rest, after)
  {
    hide CommitHunk, Lookup, Realised, Mentions, Touched;
    assert map[Source(cwd, hunk) := change] + rest == rest;
    forall p | !Mentions(rest, p) ensures Lookup(after, p) == Lookup(before, p) {
      CommitHunkFrame(before, cwd, hunk, p);
    }
  }

  lemma NothingDescribed(files: Files)
    ensures Leaves(files, map[], files)
  {
  }

  lemma {:induction false} LeavesFrom(
      initial: Files, files: Files, cwd: string, hunks: seq<Hunk>, t: Track, affected: Affected)
    requires Related(initial, files, t) && PathsAgree(cwd, hunks, t) && LastingResults(cwd, hunks)
    requires Preview(initial, cwd, hunks).Ok?
    ensures Leaves(files, Preview(initial, cwd, hunks).value, CommitFrom(files, cwd, hunks, affected).files)
    decreases |hunks|
  {
    hide CommitHunk, PreviewHunk, Leaves, Mentions, Touched, TouchedByAll, HasSource, Tracked, Decided, RelatedAt;
    if hunks == [] {
      NothingDescribed(files);
    } else {
      var hunk, rest := hunks[0], hunks[1..];
      assert RelatedAt(initial, files, t, Source(cwd, hunk));
      StepDecided(initial, files, cwd, hunk, t);
      StepRelated(initial, files, cwd, hunk, t);
      PreviewSplit(initial, cwd, hunks);
      var middle, change := CommitHunk(files, cwd, hunk).value, PreviewHunk(initial, cwd, hunk).value;
      LeavesFrom(initial, middle, cwd, rest, Tracked(t, cwd, hunk), Record(affected, hunk));
      var changes, after := Preview(initial, cwd, rest).value, CommitFrom(files, cwd, hunks, affected).files;
      FirstDescribed(initial, files, middle, after, cwd, hunks, change, changes);
    }
  }

  lemma FirstDescribed(
      initial: Files, files: Files, middle: Files, after: Files, cwd: string, hunks: seq<Hunk>,
      change: Change, changes: map<string, Change>)
    requires hunks != [] && LastingResults(cwd, hunks)
    requires PreviewHunk(initial, cwd, hunks[0]) == Ok(change) && CommitHunk(files, cwd, hunks[0]) == Ok(middle)
    requires hunks[0].UpdateFile? ==> Lookup(initial, Source(cwd, hunks[0])) == Lookup(files, Source(cwd, hunks[0]))
    requires Preview(initial, cwd, hunks[1..]) == Ok(changes) && Leaves(middle, changes, after)
    ensures Leaves(files, map[Source(cwd, hunks[0]) := change] + changes, after)
  {
    hide CommitHunk, PreviewHunk, Leaves, Mentions, TouchedByAll, HasSource, PreviewFrom, Lookup, Resolve, Described;
    var hunk, rest := hunks[0], hunks[1..];
    var src, dest := Source(cwd, hunk), Destination(cwd, hunk);
    PreviewMentions(initial, cwd, rest, src);
    ChangeKind(initial, cwd, hunk);
    if HasSource(cwd, rest, src) {
      SourceDescribed(cwd, rest, src);
      if dest.Some? { PreviewMentions(initial, cwd, rest, dest.value); }
      LeavesReplaced(files, middle, after, cwd, hunk, change, changes);
    } else {
      forall p | p in Touched(cwd, hunk) ensures !Mentions(changes, p) {
        PreviewMentions(initial, cwd, rest, p);
        if p in Described(cwd, rest) { DescribedIsTouched(cwd, rest, p); }
      }
      ChangeRealised(initial, files, cwd, hunk);
      LeavesFirst(files, middle, after, cwd, hunk, change, changes);
    }
  }

  lemma {:induction false} DescribedIsTouched(cwd: string, hunks: seq<Hunk>, p: string)
    requires p in Described(cwd, hunks)
    ensures p in TouchedByAll(cwd, hunks)
    decreases |hunks|
  {
    hide Touched, HasSource;
    if hunks != [] && p in Described(cwd, hunks[1..]) { DescribedIsTouched(cwd, hunks[1..], p); }
  }

  lemma {:induction false} SourceDescribed(cwd: string, hunks: seq<Hunk>, p: string)
    requires HasSource(cwd, hunks, p)
    ensures p in Described(cwd, hunks) && p in TouchedByAll(cwd, hunks)
    decreases |hunks|
  {
    hide HasSource, Resolve;
    if hunks == [] {
      NoSource(cwd, p);
    } else {
      SourceOfTail(cwd, hunks, p);
      if HasSource(cwd, hunks[1..], p) { SourceDescribed(cwd, hunks[1..], p); }
    }
  }

  /** Whatever else the hunks do, a previewed deletion holds the contents the file has now. */
  lemma {:induction false} PreviewShowsDeleted(files: Files, cwd: string, hunks: seq<Hunk>)
    requires Preview(files, cwd, hunks).Ok?
    ensures ShowsDeleted(files, Preview(files, cwd, hunks).value)
    decreases |hunks|
  {
    hide Resolve, NewContents;
    if hunks == [] {
      assert Preview(files, cwd, []) == Ok(map[]) by { NothingPreviewed(files, cwd); }
    } else {
      PreviewSplit(files, cwd, hunks);
      PreviewShowsDeleted(files, cwd, hunks[1..]);
      var src, change := Source(cwd, hunks[0]), PreviewHunk(files, cwd, hunks[0]).value;
      var rest := Preview(files, cwd, hunks[1..]).value;
      var all := map[src := change] + rest;
      forall q | q in all && all[q].Delete? ensures Lookup(files, q) == Some(all[q].content) {
        if q in rest { assert all[q] == rest[q]; }
      }
    }
  }

  lemma NothingPreviewed(files: Files, cwd: string)
    ensures Preview(files, cwd, []) == Ok(map[])
  {
  }

  /** The commit succeeds exactly when the preview does, if the initial files decide every hunk;
      and if what the changes say lasts, the files it then leaves are exactly those the preview
      described. */
  lemma OrderlyAgreement(files: Files, cwd: string, hunks: seq<Hunk>)
    requires hunks != [] && PathsAgree(cwd, hunks, map[])
    ensures var c, p := Commit(files, cwd, hunks), Preview(files, cwd, hunks);
            && (c.outcome.Ok? <==> p.Ok?)
            && (p.Ok? && LastingResults(cwd, hunks) ==> Describes(files, p.value, c.files))
  {
    hide Leaves, Preview, PathsAgree, LastingResults, CommitFrom;
    assert Related(files, files, map[]);
    SuccessFrom(files, files, cwd, hunks, map[], NOTHING);
    if Preview(files, cwd, hunks).Ok? && LastingResults(cwd, hunks) {
      PreviewShowsDeleted(files, cwd, hunks);
      LeavesFrom(files, files, cwd, hunks, map[], NOTHING);
    }
  }

  lemma {:induction false} DistinctIsOrderly(cwd: string, hunks: seq<Hunk>, t: Track)
    requires DistinctPaths(cwd, hunks) && t.Keys !! TouchedByAll(cwd, hunks)
    ensures PathsAgree(cwd, hunks, t) && LastingResults(cwd, hunks)
    decreases |hunks|
  {
    hide HasSource, Resolve;
    if hunks != [] {
      var hunk, rest := hunks[0], hunks[1..];
      assert Source(cwd, hunk) in Touched(cwd, hunk);
      if HasSource(cwd, rest, Source(cwd, hunk)) { SourceDescribed(cwd, rest, Source(cwd, hunk)); }
      assert Tracked(t, cwd, hunk).Keys <= t.Keys + Touched(cwd, hunk);
      DistinctIsOrderly(cwd, rest, Tracked(t, cwd, hunk));
    }
  }

  /** In particular for hunks on pairwise distinct paths. */
  lemma PreviewCommitAgreement(files: Files, cwd: string, hunks: seq<Hunk>)
    requires hunks != [] && DistinctPaths(cwd, hunks)
    ensures var c, p := Commit(files, cwd, hunks), Preview(files, cwd, hunks);
            && (c.outcome.Ok? <==> p.Ok?)
            && (p.Ok? ==> Describes(files, p.value, c.files))
  {
    hide Describes, Preview, PathsAgree, LastingResults, CommitFrom;
    DistinctIsOrderly(cwd, hunks, map[]);
    OrderlyAgreement(files, cwd, hunks);
  }

  /** Without distinct paths the two differ: a file added and then deleted commits, but the
      preview reads it before it exists. */
  lemma AgreementNeedsDistinctPaths()
    ensures var hunks := [AddFile("/a", "x\n"), DeleteFile("/a")];
            && Preview(map[], "/", hunks) == Err(ReadFailed("/a"))
            && Commit(map[], "/", hunks).outcome.Ok?
  {
    var hunks := [AddFile("/a", "x\n"), DeleteFile("/a")];
    assert hunks[1..] == [DeleteFile("/a")] && hunks[1..][1..] == [];
    assert Resolve("/", "/a") == "/a";
    var middle: Files := map["/a" := "x\n"];
    assert CommitHunk(map[], "/", hunks[0]) == Ok(middle);
    assert CommitHunk(middle, "/", hunks[1..][0]) == Ok(middle - {"/a"});
    assert CommitFrom(map[], "/", hunks, NOTHING)
        == CommitFrom(middle, "/", hunks[1..], Record(NOTHING, hunks[0]));
    assert PreviewHunk(map[], "/", hunks[1..][0]) == Err(ReadFailed("/a"));
  }

  /** Without lasting results both succeed, but not alike: a file moved away and then written over
      is described as moved. */
  lemma DescriptionNeedsLastingResults()
    ensures var files: Files := map["/x" := "1\n"];
            var hunks := [UpdateFile("/x", Some("/b"), [OneLine("1", ["1"])]), AddFile("/b", "2\n")];
            var c, p := Commit(files, "/", hunks), Preview(files, "/", hunks);
            PathsAgree("/", hunks, map[]) && c.outcome.Ok? && p.Ok? && !Describes(files, p.value, c.files)
  {
    hide NewContents;
    var files: Files := map["/x" := "1\n"];
    var move, add := UpdateFile("/x", Some("/b"), [OneLine("1", ["1"])]), AddFile("/b", "2\n");
    var hunks := [move, add];
    OneLineUpdate("1", "1");
    assert "1" + "\n" == "1\n" && "1\n"[0] != "2\n"[0];
    assert hunks[1..] == [add] && [add][1..] == [];
    assert Resolve("/", "/x") == "/x" && Resolve("/", "/b") == "/b" && "/x"[1] != "/b"[1];
    var middle: Files := map["/b" := "1\n"];
    assert CommitHunk(files, "/", move) == Ok(middle) by { assert files["/b" := "1\n"] - {"/x"} == middle; }
    var after: Files := map["/b" := "2\n"];
    assert CommitHunk(middle, "/", add) == Ok(after) by { assert middle["/b" := "2\n"] == after; }
    assert CommitFrom(files, "/", hunks, NOTHING) == CommitFrom(middle, "/", [add], Record(NOTHING, move));
    assert CommitFrom(middle, "/", [add], Record(NOTHING, move)).files == after;
    assert PreviewHunk(files, "/", move) == Ok(Update(Some("/b"), "1\n"));
    PreviewSplit(files, "/", hunks);
    PreviewSplit(files, "/", [add]);
    assert Preview(files, "/", []) == Ok(map[]);
    var changes := Preview(files, "/", hunks).value;
    assert "/x" in changes && changes["/x"] == Update(Some("/b"), "1\n");
    assert !Realised("/x", changes["/x"], after);
  }
}
