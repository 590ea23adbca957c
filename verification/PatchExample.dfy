/** The grammar of `crates/apply-patch/src/parser.rs`, lines 4 to 21, by example: every kind of hunk,
    chunk header and change line, the move and the end-of-file marker. */
module PatchExample {
  import opened Text
  import opened Patch
  import opened Parser
  import opened Printer

  const FIRST := ChunkDoc(Bare, [Remove("y"), Insert("z")], false)
  const SECOND := ChunkDoc(Context("f"), [Keep("k"), Blank], false)
  const THIRD := ChunkDoc(Empty, [Insert("e")], true)

  const ADD := AddDoc("a", ["x"])
  const DELETE := DeleteDoc("b")
  const UPDATE := UpdateDoc("c", Some("d"), [FIRST, SECOND, THIRD])

  lemma OneChange(c: ChangeLine)
    ensures PrintChanges([c]) == [PrintChange(c)]
    ensures OldOf([c]) == if c.Keep? || c.Remove? then [c.text] else if c.Blank? then [""] else []
    ensures NewOf([c]) == if c.Keep? || c.Insert? then [c.text] else if c.Blank? then [""] else []
  {
    assert [c][1..] == [];
  }

  lemma TwoChanges(c: ChangeLine, d: ChangeLine)
    ensures PrintChanges([c, d]) == [PrintChange(c), PrintChange(d)]
    ensures OldOf([c, d]) == OldOf([c]) + OldOf([d]) && NewOf([c, d]) == NewOf([c]) + NewOf([d])
  {
    OneChange(c);
    OneChange(d);
    assert [c, d][1..] == [d];
  }

  lemma FirstChunk()
    ensures PrintChunk(FIRST) == ["-y", "+z"] && ChunkOf(FIRST) == Chunk(None, ["y"], ["z"], false)
  {
    TwoChanges(Remove("y"), Insert("z"));
    OneChange(Remove("y"));
    OneChange(Insert("z"));
    hide PrintChanges, OldOf, NewOf;
    assert "-" + "y" == "-y" && "+" + "z" == "+z";
  }

  lemma SecondChunk()
    ensures PrintChunk(SECOND) == ["@@ f", " k", ""] && ChunkOf(SECOND) == Chunk(Some("f"), ["k", ""], ["k", ""], false)
  {
    TwoChanges(Keep("k"), Blank);
    OneChange(Keep("k"));
    OneChange(Blank);
    hide PrintChanges, OldOf, NewOf;
    assert " " + "k" == " k" && CHANGE_CONTEXT_MARKER + "f" == "@@ f";
  }

  lemma ThirdChunk()
    ensures PrintChunk(THIRD) == ["@@", "+e", "*** End of File"] && ChunkOf(THIRD) == Chunk(None, [], ["e"], true)
  {
    OneChange(Insert("e"));
    hide PrintChanges, OldOf, NewOf;
    assert "+" + "e" == "+e";
  }

  lemma ThreeChunks(a: ChunkDoc, b: ChunkDoc, c: ChunkDoc)
    ensures PrintChunks([a, b, c]) == PrintChunk(a) + (PrintChunk(b) + PrintChunk(c))
    ensures ChunksOf([a, b, c]) == [ChunkOf(a), ChunkOf(b), ChunkOf(c)]
  {
    hide PrintChunk, ChunkOf;
    var ds := [a, b, c];
    assert ds[1..] == [b, c] && [b, c][1..] == [c] && [c][1..] == [];
    assert PrintChunks([]) == [] && ChunksOf([]) == [];
    assert [c][1..] == [] && ChunksOf([c]) == [ChunkOf(c)] + ChunksOf([c][1..]);
    assert PrintChunks([c]) == PrintChunk(c) + [] && ChunksOf([c]) == [ChunkOf(c)] + [];
    assert ChunksOf([b, c]) == [ChunkOf(b)] + ChunksOf([c]);
  }

  lemma ThreeHunks(a: HunkDoc, b: HunkDoc, c: HunkDoc)
    ensures PrintHunks([a, b, c]) == PrintHunk(a) + (PrintHunk(b) + PrintHunk(c))
    ensures HunksOf([a, b, c]) == [HunkOf(a), HunkOf(b), HunkOf(c)]
    ensures GoodHunk(a) && GoodHunk(b) && GoodHunk(c) ==> GoodPatch([a, b, c])
  {
    hide PrintHunk, HunkOf, GoodHunk;
    var ds := [a, b, c];
    assert ds[1..] == [b, c] && [b, c][1..] == [c] && [c][1..] == [];
    assert PrintHunks([]) == [] && HunksOf([]) == [];
    assert [c][1..] == [] && HunksOf([c]) == [HunkOf(c)] + HunksOf([c][1..]);
    assert PrintHunks([c]) == PrintHunk(c) + [] && HunksOf([c]) == [HunkOf(c)] + [];
    assert HunksOf([b, c]) == [HunkOf(b)] + HunksOf([c]);
  }

  lemma AddLines()
    ensures PrintHunk(ADD) == ["*** Add File: a", "+x"] && HunkOf(ADD) == AddFile("a", "x\n") && GoodHunk(ADD)
  {
    assert "+" + "x" == "+x" && PrintAdded([]) == [] && Unlines([]) == "";
    assert ["x"][1..] == [] && PrintAdded(["x"]) == ["+" + "x"] + [];
    assert Unlines(["x"]) == "x" + "\n" + "" == "x\n";
    assert ADD_FILE_MARKER + "a" == "*** Add File: a";
    assert PlainLine("x");
  }

  lemma DeleteLines()
    ensures PrintHunk(DELETE) == ["*** Delete File: b"] && HunkOf(DELETE) == DeleteFile("b") && GoodHunk(DELETE)
  {
    assert DELETE_FILE_MARKER + "b" == "*** Delete File: b";
  }

  lemma UpdateLines()
    ensures PrintHunk(UPDATE) == [
      "*** Update File: c", "*** Move to: d", "-y", "+z", "@@ f", " k", "", "@@", "+e", "*** End of File"]
    ensures HunkOf(UPDATE) == UpdateFile("c", Some("d"), [
      Chunk(None, ["y"], ["z"], false),
      Chunk(Some("f"), ["k", ""], ["k", ""], false),
      Chunk(None, [], ["e"], true)])
  {
    FirstChunk();
    SecondChunk();
    ThirdChunk();
    ThreeChunks(FIRST, SECOND, THIRD);
    hide PrintChunk, ChunkOf, PrintChunks, ChunksOf;
    assert UPDATE_FILE_MARKER + "c" == "*** Update File: c" && MOVE_TO_MARKER + "d" == "*** Move to: d";
  }

  lemma UpdateIsGood()
    ensures GoodHunk(UPDATE)
  {
    hide Trim;
    TrimVisible("-y");
    assert "-" + "y" == "-y";
    assert GoodChunk(FIRST) && GoodChunk(SECOND) && GoodChunk(THIRD) by {
      assert PlainLine("y") && PlainLine("z") && PlainLine("f") && PlainLine("k") && PlainLine("e");
    }
    hide GoodChunk;
    assert PlainLine("d") && GoodPath("c");
  }

  /** In both modes. */
  lemma {:induction false} PatchByExample(mode: Mode)
    ensures var text := Join([
              "*** Begin Patch",
              "*** Add File: a", "+x",
              "*** Delete File: b",
              "*** Update File: c", "*** Move to: d",
              "-y", "+z",
              "@@ f", " k", "",
              "@@", "+e", "*** End of File",
              "*** End Patch"], "\n");
            ParseText(text, mode) == Ok(PatchArgs([
              AddFile("a", "x\n"),
              DeleteFile("b"),
              UpdateFile("c", Some("d"), [
                Chunk(None, ["y"], ["z"], false),
                Chunk(Some("f"), ["k", ""], ["k", ""], false),
                Chunk(None, [], ["e"], true)])], text))
  {
    AddLines();
    DeleteLines();
    UpdateLines();
    UpdateIsGood();
    ThreeHunks(ADD, DELETE, UPDATE);
    hide Join, ParseText, PrintHunk, PrintHunks, HunksOf, HunkOf, GoodHunk, GoodPatch;
    RoundTrip([ADD, DELETE, UPDATE], mode);
    assert [BEGIN_PATCH_MARKER] + PrintHunks([ADD, DELETE, UPDATE]) + [END_PATCH_MARKER] == [
      "*** Begin Patch", "*** Add File: a", "+x", "*** Delete File: b", "*** Update File: c", "*** Move to: d",
      "-y", "+z", "@@ f", " k", "", "@@", "+e", "*** End of File", "*** End Patch"];
  }
}
