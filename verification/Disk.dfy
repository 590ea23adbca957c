/** Committing a patch to the file system hunk by hunk, and previewing it against the initial
    file system (`apply_hunks_to_files` in `crates/apply-patch/src/lib.rs`, the loop over hunks
    in `maybe_parse_apply_patch_verified` in `crates/apply-patch/src/invocation.rs`).
    A read or a delete fails only on a missing file; a write never fails. */
module Disk {
  import opened Text
  import opened Patch
  import opened Planner

  type Files = map<string, string>

  datatype Affected = Affected(added: seq<string>, modified: seq<string>, deleted: seq<string>)

  datatype CommitError =
    | NoFilesModified
    | ReadFailed(path: string)
    | DeleteFailed(path: string)
    | Unplannable(path: string, cause: PlanError)

  datatype Change =
    | Add(content: string)
    | Delete(content: string)
    | Update(movePath: Option<string>, newContent: string)

  /** `Path::join`: an absolute path replaces the directory. */
  function Resolve(cwd: string, path: string): string {
    if StartsWith(path, "/") then path
    else if cwd == "" || EndsWith(cwd, "/") then cwd + path
    else cwd + "/" + path
  }

  function Source(cwd: string, hunk: Hunk): string {
    Resolve(cwd, hunk.path)
  }

  function Destination(cwd: string, hunk: Hunk): Option<string> {
    if hunk.UpdateFile? && hunk.movePath.Some? then Some(Resolve(cwd, hunk.movePath.value)) else None
  }

  /** The contents an update computes from the file it reads. */
  function Updated(files: Files, path: string, chunks: seq<Chunk>): Result<string, CommitError> {
    if path !in files then Err(ReadFailed(path))
    else
      var r := NewContents(files[path], chunks);
      if r.Err? then Err(Unplannable(path, r.error)) else Ok(r.value)
  }

  // ---------------------------------------------------------------- commit

  /** One hunk; a failing hunk changes nothing. */
  function CommitHunk(files: Files, cwd: string, hunk: Hunk): Result<Files, CommitError> {
    var src := Source(cwd, hunk);
    match hunk
    case AddFile(_, contents) => Ok(files[src := contents])
    case DeleteFile(_) => if src in files then Ok(files - {src}) else Err(DeleteFailed(src))
    case UpdateFile(_, _, chunks) =>
      var r := Updated(files, src, chunks);
      if r.Err? then Err(r.error)
      else
        match Destination(cwd, hunk)
        case None => Ok(files[src := r.value])
        case Some(dest) => Ok(files[dest := r.value] - {src})
  }

  /** Paths are reported as the hunk gives them; a moved file under its new path. */
  function Record(affected: Affected, hunk: Hunk): Affected {
    match hunk
    case AddFile(path, _) => affected.(added := affected.added + [path])
    case DeleteFile(path) => affected.(deleted := affected.deleted + [path])
    case UpdateFile(path, move, _) =>
      affected.(modified := affected.modified + [if move.Some? then move.value else path])
  }

  datatype Committed = Committed(files: Files, outcome: Result<Affected, CommitError>)

  function CommitFrom(files: Files, cwd: string, hunks: seq<Hunk>, affected: Affected): Committed
    decreases |hunks|
  {
    if hunks == [] then Committed(files, Ok(affected))
    else
      var step := CommitHunk(files, cwd, hunks[0]);
      if step.Err? then Committed(files, Err(step.error))
      else CommitFrom(step.value, cwd, hunks[1..], Record(affected, hunks[0]))
  }

  const NOTHING := Affected([], [], [])

  function Commit(files: Files, cwd: string, hunks: seq<Hunk>): Committed {
    if hunks == [] then Committed(files, Err(NoFilesModified)) else CommitFrom(files, cwd, hunks, NOTHING)
  }

  /** The file system the commit works on in place. */
  class FileSystem {
    var files: Files

    constructor (files: Files)
      ensures this.files == files
    {
      this.files := files;
    }

    /** `apply_hunks_to_files`, run in the directory `cwd`. */
    method ApplyHunksToFiles(cwd: string, hunks: seq<Hunk>) returns (r: Result<Affected, CommitError>)
      modifies this
      ensures Committed(files, r) == Commit(old(files), cwd, hunks)
    {
      if hunks == [] {
        return Err(NoFilesModified);
      }
      var affected := NOTHING;
      var i := 0;
      assert hunks[0..] == hunks;
      while i < |hunks|
        invariant 0 <= i <= |hunks|
        invariant CommitFrom(files, cwd, hunks[i..], affected) == CommitFrom(old(files), cwd, hunks, NOTHING)
      {
        assert hunks[i..][0] == hunks[i] && hunks[i..][1..] == hunks[i + 1..];
        var failure := ApplyHunk(cwd, hunks[i]);
        if failure.Some? {
          return Err(failure.value);
        }
        affected := Record(affected, hunks[i]);
        i := i + 1;
      }
      assert hunks[i..] == [];
      return Ok(affected);
    }

    /** The body of that loop: a move writes the destination and then removes the source. */
    method ApplyHunk(cwd: string, hunk: Hunk) returns (failure: Option<CommitError>)
      modifies this
      ensures var step := CommitHunk(old(files), cwd, hunk);
              if failure.Some? then step == Err(failure.value) && files == old(files) else step == Ok(files)
    {
      var src := Source(cwd, hunk);
      match hunk {
        case AddFile(_, contents) =>
          files := files[src := contents];
        case DeleteFile(_) =>
          if src !in files {
            return Some(DeleteFailed(src));
          }
          files := files - {src};
        case UpdateFile(_, _, chunks) =>
          if src !in files {
            return Some(ReadFailed(src));
          }
          var r := DeriveNewContents(files[src], chunks);
          if r.Err? {
            return Some(Unplannable(src, r.error));
          }
          var dest := Destination(cwd, hunk);
          if dest.Some? {
            files := files[dest.value := r.value];
            files := files - {src};
          } else {
            files := files[src := r.value];
          }
      }
      return None;
    }
  }

  // ---------------------------------------------------------------- preview

  /** What one hunk would do to the files as they are. */
  function PreviewHunk(files: Files, cwd: string, hunk: Hunk): Result<Change, CommitError> {
    var src := Source(cwd, hunk);
    match hunk
    case AddFile(_, contents) => Ok(Add(contents))
    case DeleteFile(_) => if src in files then Ok(Delete(files[src])) else Err(ReadFailed(src))
    case UpdateFile(_, _, chunks) =>
      var r := Updated(files, src, chunks);
      if r.Err? then Err(r.error) else Ok(Update(Destination(cwd, hunk), r.value))
  }

  function PreviewFrom(files: Files, cwd: string, hunks: seq<Hunk>, changes: map<string, Change>)
    : Result<map<string, Change>, CommitError>
  {
    if hunks == [] then Ok(changes)
    else
      var step := PreviewHunk(files, cwd, hunks[0]);
      if step.Err? then Err(step.error)
      else PreviewFrom(files, cwd, hunks[1..], changes[Source(cwd, hunks[0]) := step.value])
  }

  function Preview(files: Files, cwd: string, hunks: seq<Hunk>): Result<map<string, Change>, CommitError> {
    PreviewFrom(files, cwd, hunks, map[])
  }

  /** The preview loop, which never writes. */
  method PreviewChanges(fs: FileSystem, cwd: string, hunks: seq<Hunk>)
    returns (r: Result<map<string, Change>, CommitError>)
    ensures r == Preview(fs.files, cwd, hunks)
  {
    var changes: map<string, Change> := map[];
    var i := 0;
    assert hunks[0..] == hunks;
    while i < |hunks|
      invariant 0 <= i <= |hunks|
      invariant PreviewFrom(fs.files, cwd, hunks[i..], changes) == Preview(fs.files, cwd, hunks)
    {
      assert hunks[i..][0] == hunks[i] && hunks[i..][1..] == hunks[i + 1..];
      var step := PreviewHunk(fs.files, cwd, hunks[i]);
      if step.Err? {
        return Err(step.error);
      }
      changes := changes[Source(cwd, hunks[i]) := step.value];
      i := i + 1;
    }
    assert hunks[i..] == [];
    return Ok(changes);
  }

  // ---------------------------------------------------------------- agreement

  function Lookup(files: Files, path: string): Option<string> {
    if path in files then Some(files[path]) else None
  }

  /** What a change says about the files after it. */
  predicate Realised(path: string, change: Change, after: Files) {
    match change
    case Add(content) => Lookup(after, path) == Some(content)
    case Delete(_) => Lookup(after, path) == None
    case Update(None, content) => Lookup(after, path) == Some(content)
    case Update(Some(dest), content) => Lookup(after, dest) == Some(content) && Lookup(after, path) == None
  }

  predicate Mentions(changes: map<string, Change>, path: string) {
    path in changes || exists q :: q in changes && changes[q].Update? && changes[q].movePath == Some(path)
  }

  /** `after` is `before` with the changes made and nothing else, in no particular order. */
  ghost predicate Leaves(before: Files, changes: map<string, Change>, after: Files) {
    && (forall q :: q in changes ==> Realised(q, changes[q], after))
    && (forall p :: !Mentions(changes, p) ==> Lookup(after, p) == Lookup(before, p))
  }

  /** Every deletion shows what is deleted. */
  ghost predicate ShowsDeleted(before: Files, changes: map<string, Change>) {
    forall q :: q in changes && changes[q].Delete? ==> Lookup(before, q) == Some(changes[q].content)
  }

  /** The changes are a true account of how `before` becomes `after`. */
  ghost predicate Describes(before: Files, changes: map<string, Change>, after: Files) {
    ShowsDeleted(before, changes) && Leaves(before, changes, after)
  }

  function Touched(cwd: string, hunk: Hunk): set<string> {
    {Source(cwd, hunk)} + match Destination(cwd, hunk) case Some(d) => {d} case None => {}
  }

  function TouchedByAll(cwd: string, hunks: seq<Hunk>): set<string> {
    if hunks == [] then {} else Touched(cwd, hunks[0]) + TouchedByAll(cwd, hunks[1..])
  }

  /** Sources and move destinations are pairwise distinct paths. */
  predicate DistinctPaths(cwd: string, hunks: seq<Hunk>) {
    hunks != [] ==>
    && Destination(cwd, hunks[0]) != Some(Source(cwd, hunks[0]))
    && Touched(cwd, hunks[0]) !! TouchedByAll(cwd, hunks[1..])
    && DistinctPaths(cwd, hunks[1..])
  }

  /** A hunk changes only the paths it touches. */
  lemma CommitHunkFrame(files: Files, cwd: string, hunk: Hunk, p: string)
    requires p !in Touched(cwd, hunk)
    ensures var r := CommitHunk(files, cwd, hunk);
            r.Ok? ==> Lookup(r.value, p) == Lookup(files, p)
  {
  }

  /** What one hunk needs and what it leaves, path by path. */
  lemma CommitHunkExactly(files: Files, cwd: string, hunk: Hunk, p: string)
    ensures var src, r := Source(cwd, hunk), CommitHunk(files, cwd, hunk);
            && (hunk.AddFile? ==> r.Ok? && Lookup(r.value, src) == Some(hunk.contents))
            && (hunk.DeleteFile? ==> (r.Ok? <==> src in files) && (r.Ok? ==> src !in r.value))
            && (hunk.UpdateFile? ==> (r.Ok? <==> src in files && NewContents(files[src], hunk.chunks).Ok?))
            && (hunk.UpdateFile? && r.Ok? ==>
                  var news := Some(NewContents(files[src], hunk.chunks).value);
                  if hunk.movePath.None? then Lookup(r.value, src) == news
                  else
                    var dest := Resolve(cwd, hunk.movePath.value);
                    src !in r.value && (dest != src ==> Lookup(r.value, dest) == news))
            && (r.Ok? && p !in Touched(cwd, hunk) ==> Lookup(r.value, p) == Lookup(files, p))
  {
    hide Resolve, NewContents;
  }

  /** An empty patch is an error and changes nothing. */
  lemma EmptyPatchFails(files: Files, cwd: string)
    ensures Commit(files, cwd, []) == Committed(files, Err(NoFilesModified))
  {
  }

  /** Where a path of a patch leads, on examples. */
  lemma PathsResolve()
    ensures Resolve("/w", "a/b") == "/w/a/b" && Resolve("/w/", "a") == "/w/a" && Resolve("/w", "/a") == "/a"
  {
    assert "a/b"[0] != '/' && "a"[0] != '/';
    assert "/w"[1..] == "w" && "/w/"[2..] == "/";
    assert "/w" + "/" + "a/b" == "/w/a/b" && "/w/" + "a" == "/w/a";
  }

  lemma PreviewAgreesWithCommit(files: Files, cwd: string, hunk: Hunk)
    ensures PreviewHunk(files, cwd, hunk).Ok? <==> CommitHunk(files, cwd, hunk).Ok?
  {
  }

  /** The description leaves no choice: at most one file system fits it. */
  lemma DescriptionIsUnique(before: Files, changes: map<string, Change>, after: Files, other: Files)
    requires Describes(before, changes, after) && Describes(before, changes, other)
    ensures after == other
  {
    forall p ensures Lookup(after, p) == Lookup(other, p) {
      if p in changes {
        assert Realised(p, changes[p], after) && Realised(p, changes[p], other);
      } else if Mentions(changes, p) {
        var q :| q in changes && changes[q].Update? && changes[q].movePath == Some(p);
        assert Realised(q, changes[q], after) && Realised(q, changes[q], other);
      }
    }
    SameLookup(after, other);
  }

  lemma SameLookup(a: Files, b: Files)
    requires forall p :: Lookup(a, p) == Lookup(b, p)
    ensures a == b
  {
    forall p ensures p in a <==> p in b {
      assert Lookup(a, p) == Lookup(b, p);
    }
    forall p | p in a ensures a[p] == b[p] {
      assert Lookup(a, p) == Lookup(b, p);
    }
  }

  // ---------------------------------------------------------------- what is reported

  datatype Kind = Adding | Deleting | Modifying

  function KindOf(hunk: Hunk): Kind {
    match hunk
    case AddFile(_, _) => Adding
    case DeleteFile(_) => Deleting
    case UpdateFile(_, _, _) => Modifying
  }

  /** Where the hunk's result is to be found. */
  function ReportedPath(hunk: Hunk): string {
    if hunk.UpdateFile? && hunk.movePath.Some? then hunk.movePath.value else hunk.path
  }

  function Reported(kind: Kind, hunks: seq<Hunk>): seq<string> {
    if hunks == [] then []
    else (if KindOf(hunks[0]) == kind then [ReportedPath(hunks[0])] else []) + Reported(kind, hunks[1..])
  }

  lemma {:induction false} ReportFrom(files: Files, cwd: string, hunks: seq<Hunk>, affected: Affected)
    requires CommitFrom(files, cwd, hunks, affected).outcome.Ok?
    ensures var r := CommitFrom(files, cwd, hunks, affected).outcome.value;
            && r.added == affected.added + Reported(Adding, hunks)
            && r.modified == affected.modified + Reported(Modifying, hunks)
            && r.deleted == affected.deleted + Reported(Deleting, hunks)
    decreases |hunks|
  {
    hide CommitHunk;
    if hunks != [] {
      ReportFrom(CommitHunk(files, cwd, hunks[0]).value, cwd, hunks[1..], Record(affected, hunks[0]));
    }
  }

  /** A successful commit reports every hunk once, in patch order, under its own kind. */
  lemma CommitReportsEveryHunk(files: Files, cwd: string, hunks: seq<Hunk>)
    requires Commit(files, cwd, hunks).outcome.Ok?
    ensures Commit(files, cwd, hunks).outcome.value
         == Affected(Reported(Adding, hunks), Reported(Modifying, hunks), Reported(Deleting, hunks))
  {
    hide Reported, CommitFrom;
    ReportFrom(files, cwd, hunks, NOTHING);
  }

  lemma ReportCons(kind: Kind, hunk: Hunk, rest: seq<Hunk>)
    ensures Reported(kind, [hunk] + rest)
         == (if KindOf(hunk) == kind then [ReportedPath(hunk)] else []) + Reported(kind, rest)
  {
    assert ([hunk] + rest)[1..] == rest;
  }

  /** One hunk of each kind. */
  lemma ReportByExample(contents: string, chunks: seq<Chunk>)
    ensures var hunks := [
              AddFile("a", contents), DeleteFile("b"),
              UpdateFile("c", None, chunks), UpdateFile("d", Some("e"), chunks)];
            && Reported(Adding, hunks) == ["a"]
            && Reported(Modifying, hunks) == ["c", "e"]
            && Reported(Deleting, hunks) == ["b"]
  {
    hide Reported;
    var a, b := AddFile("a", contents), DeleteFile("b");
    var c, d := UpdateFile("c", None, chunks), UpdateFile("d", Some("e"), chunks);
    forall kind ensures Reported(kind, []) == [] { NothingReported(kind); }
    forall kind: Kind
      ensures Reported(kind, [a, b, c, d])
           == (if kind.Adding? then ["a"] else []) + (if kind.Deleting? then ["b"] else [])
              + (if kind.Modifying? then ["c", "e"] else [])
    {
      assert [a, b, c, d] == [a] + ([b] + ([c] + ([d] + [])));
      ReportCons(kind, a, [b] + ([c] + ([d] + [])));
      ReportCons(kind, b, [c] + ([d] + []));
      ReportCons(kind, c, [d] + []);
      ReportCons(kind, d, []);
    }
  }

  lemma NothingReported(kind: Kind)
    ensures Reported(kind, []) == []
  {
  }

  // ---------------------------------------------------------------- what fails

  /** A failing commit is not undone: the files are those of the hunks before the failing one. */
  lemma {:induction false} FailureKeepsPrefix(files: Files, cwd: string, hunks: seq<Hunk>, affected: Affected)
    returns (k: nat)
    requires CommitFrom(files, cwd, hunks, affected).outcome.Err?
    ensures k < |hunks|
    ensures var c, prefix := CommitFrom(files, cwd, hunks, affected), CommitFrom(files, cwd, hunks[..k], affected);
            && prefix.outcome.Ok? && c.files == prefix.files
            && CommitHunk(prefix.files, cwd, hunks[k]) == Err(c.outcome.error)
    decreases |hunks|
  {
    var step := CommitHunk(files, cwd, hunks[0]);
    if step.Err? {
      k := 0;
    } else {
      var j := FailureKeepsPrefix(step.value, cwd, hunks[1..], Record(affected, hunks[0]));
      k := j + 1;
      assert hunks[..k][0] == hunks[0] && hunks[..k][1..] == hunks[1..][..j];
    }
  }

  /** So "either every hunk lands or none do" does not hold. */
  lemma CommitIsNotTransactional()
    ensures var hunks := [AddFile("/a", "x\n"), DeleteFile("/b")];
            && DistinctPaths("/", hunks)
            && Commit(map[], "/", hunks) == Committed(map["/a" := "x\n"], Err(DeleteFailed("/b")))
  {
    var hunks := [AddFile("/a", "x\n"), DeleteFile("/b")];
    assert hunks[1..] == [DeleteFile("/b")] && hunks[1..][1..] == [];
    assert Resolve("/", "/a") == "/a" && Resolve("/", "/b") == "/b";
    assert "/a"[1] != "/b"[1];
    var middle: Files := map["/a" := "x\n"];
    assert CommitHunk(map[], "/", hunks[0]) == Ok(middle);
    assert CommitHunk(middle, "/", hunks[1..][0]) == Err(DeleteFailed("/b"));
  }

  /** A hunk that would leave the files as they are. */
  predicate Idle(files: Files, cwd: string, hunk: Hunk) {
    var src := Source(cwd, hunk);
    match hunk
    case AddFile(_, contents) => Lookup(files, src) == Some(contents)
    case DeleteFile(_) => false
    case UpdateFile(_, move, chunks) => move.None? && src in files && NewContents(files[src], chunks) == Ok(files[src])
  }

  /** Read off the initial files: no hunk before the first one that cannot be made does anything. */
  predicate IdleUntilFailure(files: Files, cwd: string, hunks: seq<Hunk>) {
    hunks == [] || PreviewHunk(files, cwd, hunks[0]).Err?
    || (Idle(files, cwd, hunks[0]) && IdleUntilFailure(files, cwd, hunks[1..]))
  }

  lemma IdleExactly(files: Files, cwd: string, hunk: Hunk)
    requires Destination(cwd, hunk) != Some(Source(cwd, hunk))
    ensures CommitHunk(files, cwd, hunk) == Ok(files) <==> Idle(files, cwd, hunk)
  {
    hide Resolve, NewContents;
    var src, step := Source(cwd, hunk), CommitHunk(files, cwd, hunk);
    if step.Ok? && !Idle(files, cwd, hunk) {
      assert Lookup(step.value, src) != Lookup(files, src);
    }
    if Idle(files, cwd, hunk) {
      assert files[src := files[src]] == files;
    }
  }

  lemma {:induction false} CommitFrame(files: Files, cwd: string, hunks: seq<Hunk>, affected: Affected, p: string)
    requires p !in TouchedByAll(cwd, hunks)
    ensures Lookup(CommitFrom(files, cwd, hunks, affected).files, p) == Lookup(files, p)
    decreases |hunks|
  {
    hide CommitHunk, Lookup, Touched;
    if hunks != [] {
      CommitHunkFrame(files, cwd, hunks[0], p);
      var step := CommitHunk(files, cwd, hunks[0]);
      if step.Ok? {
        CommitFrame(step.value, cwd, hunks[1..], Record(affected, hunks[0]), p);
      }
    }
  }

  /** What a hunk has changed, hunks on other paths do not change back. */
  lemma ChangeStays(files: Files, middle: Files, cwd: string, hunks: seq<Hunk>, affected: Affected)
    requires hunks != [] && DistinctPaths(cwd, hunks)
    requires CommitHunk(files, cwd, hunks[0]) == Ok(middle) && middle != files
    ensures CommitFrom(middle, cwd, hunks[1..], affected).files != files
  {
    hide CommitHunk, CommitFrom, Lookup, Touched;
    if forall p :: Lookup(files, p) == Lookup(middle, p) {
      SameLookup(files, middle);
    }
    var p :| Lookup(files, p) != Lookup(middle, p);
    if p !in Touched(cwd, hunks[0]) {
      CommitHunkFrame(files, cwd, hunks[0], p);
    }
    CommitFrame(middle, cwd, hunks[1..], affected, p);
  }

  lemma {:induction false} UntouchedFrom(files: Files, cwd: string, hunks: seq<Hunk>, affected: Affected)
    requires DistinctPaths(cwd, hunks)
    requires CommitFrom(files, cwd, hunks, affected).outcome.Err?
    ensures CommitFrom(files, cwd, hunks, affected).files == files <==> IdleUntilFailure(files, cwd, hunks)
    decreases |hunks|
  {
    hide CommitHunk, PreviewHunk, Idle, Touched;
    var hunk, rest := hunks[0], hunks[1..];
    PreviewAgreesWithCommit(files, cwd, hunk);
    IdleExactly(files, cwd, hunk);
    var step := CommitHunk(files, cwd, hunk);
    if step.Ok? {
      if step.value == files {
        UntouchedFrom(files, cwd, rest, Record(affected, hunk));
      } else {
        ChangeStays(files, step.value, cwd, hunks, Record(affected, hunk));
      }
    }
  }

  /** When a failing commit on distinct paths does leave the files as they were: exactly when
      every hunk before the first impossible one asks for what is already there. */
  lemma FailureLeavesFilesExactly(files: Files, cwd: string, hunks: seq<Hunk>)
    requires DistinctPaths(cwd, hunks)
    requires Commit(files, cwd, hunks).outcome.Err?
    ensures Commit(files, cwd, hunks).files == files <==> IdleUntilFailure(files, cwd, hunks)
  {
    if hunks != [] {
      UntouchedFrom(files, cwd, hunks, NOTHING);
    }
  }

  /** A move onto its own source loses the file. */
  lemma SelfMoveLosesFile(files: Files, cwd: string, hunk: Hunk)
    requires Destination(cwd, hunk) == Some(Source(cwd, hunk))
    ensures var r := CommitHunk(files, cwd, hunk);
            r.Ok? ==> Source(cwd, hunk) in files && r.value == files - {Source(cwd, hunk)}
  {
    var src := Source(cwd, hunk);
    var r := Updated(files, src, hunk.chunks);
    if r.Ok? {
      assert files[src := r.value] - {src} == files - {src};
    }
  }
}
