/** What the patch parser overlooks (`crates/apply-patch/src/parser.rs`, lines 249 to 317): white
    space around header lines and blank lines between chunks. */
module Tolerance {
  import opened Text
  import opened Patch
  import opened Parser
  import opened Printer

  /** White space around a header line makes no difference. */
  lemma PaddedHeaderParses(pre: string, header: string, post: string, rest: seq<string>, n: nat)
    requires AllWhitespace(pre) && AllWhitespace(post)
    ensures ParseHunk([pre + header + post] + rest, n) == ParseHunk([header] + rest, n)
  {
    hide Trim, StripPrefix, UpdateHunk, AddBody;
    TrimPadded(pre, header, post);
    var a, b := [pre + header + post] + rest, [header] + rest;
    assert a[1..] == rest && b[1..] == rest;
    TrimTwice(header);
  }

  lemma TrimTwice(s: string)
    ensures Trim(Trim(s)) == Trim(s)
  {
    hide Trim;
    var pre, post := TrimParts(s);
    TrimIdentity(Trim(s));
  }

  lemma BlankTrims(blank: string)
    requires AllWhitespace(blank)
    ensures Trim(blank) == ""
  {
    hide Trim, IsWhitespace;
    NothingIsWhitespace();
    TrimUnique(blank, "", "");
    assert blank + "" + "" == blank;
  }

  /** Blank lines before a chunk are counted and otherwise skipped, wherever the loop over chunks
      meets them: after the header and after a chunk that an end-of-file marker has closed. */
  lemma {:induction false} BlankLinesSkipped(
      blanks: seq<string>, lines: seq<string>, ln: nat, chunks: seq<Chunk>, parsed: nat)
    requires forall i :: 0 <= i < |blanks| ==> AllWhitespace(blanks[i])
    ensures UpdateBody(blanks + lines, ln, chunks, parsed) == UpdateBody(lines, ln, chunks, parsed + |blanks|)
    decreases |blanks|
  {
    hide Trim, AllWhitespace, ParseChunk;
    if blanks == [] {
      assert blanks + lines == lines;
    } else {
      BlankTrims(blanks[0]);
      assert (blanks + lines)[0] == blanks[0] && (blanks + lines)[1..] == blanks[1..] + lines;
      BlankLinesSkipped(blanks[1..], lines, ln, chunks, parsed + 1);
    }
  }

  /** A chunk in the middle of an update, closed by the end-of-file marker, with a blank line
      after it and another chunk. */
  lemma {:induction false} BlankAfterEof(blank: string, rest: seq<string>, n: nat)
    requires AllWhitespace(blank)
    ensures var lines := ["*** Update File: c", "@@", "+e", "*** End of File", blank] + rest;
            ParseHunk(lines, n)
            == var body := UpdateBody(rest, n, [Chunk(None, [], ["e"], true)], 5);
               if body.Err? then Err(body.error)
               else if body.value.value == [] then Err(InvalidHunk(EmptyUpdate("c"), n))
               else Ok(Parsed(UpdateFile("c", None, body.value.value), body.value.count))
  {
    hide Trim, StripPrefix, UpdateBody, HunkStart, AllWhitespace;
    var lines := ["*** Update File: c", "@@", "+e", "*** End of File", blank] + rest;
    assert GoodPath("c");
    assert UPDATE_FILE_MARKER + "c" == "*** Update File: c";
    UpdateHeader("c");
    var tail := lines[1..];
    assert tail == ["@@", "+e", "*** End of File"] + ([blank] + rest);
    assert MoveTo(tail) == None by { NoMove(tail); }
    assert tail[0..] == tail;
    ClosedChunk([blank] + rest, n);
    BlankLinesSkipped([blank], rest, n, [Chunk(None, [], ["e"], true)], 4);
  }

  lemma NoMove(lines: seq<string>)
    requires lines != [] && lines[0] == "@@"
    ensures MoveTo(lines) == None
  {
    assert MOVE_TO_MARKER[0] == '*';
  }

  /** A chunk closed by the end-of-file marker ends there, whatever follows. */
  lemma {:induction false} ClosedChunk(rest: seq<string>, n: nat)
    ensures UpdateBody(["@@", "+e", "*** End of File"] + rest, n, [], 1)
         == UpdateBody(rest, n, [Chunk(None, [], ["e"], true)], 4)
  {
    hide Trim;
    var lines := ["@@", "+e", "*** End of File"] + rest;
    TrimVisible("@@");
    var body := lines[1..];
    assert body[0] == "+e" && body[1..] == ["*** End of File"] + rest;
    assert body[1..][0] == EOF_MARKER;
    assert "+e"[1..] == "e" && "+e" != EOF_MARKER;
    var start := Chunk(None, [], [], false);
    assert [] + ["e"] == ["e"];
    assert TakeLine(start, "+e") == Some(Chunk(None, [], ["e"], false));
    assert ChunkBody(body[1..], n + 1, Chunk(None, [], ["e"], false), 1)
        == Ok(Parsed(Chunk(None, [], ["e"], true), 2));
    assert ChunkBody(body, n + 1, start, 0) == Ok(Parsed(Chunk(None, [], ["e"], true), 2));
    assert ContextMarker("@@") == Parsed(None, 1);
    assert ParseChunk(lines, n + 1, true) == Ok(Parsed(Chunk(None, [], ["e"], true), 3));
    hide ParseChunk, ChunkBody;
    assert lines[3..] == rest;
    assert lines[0] == "@@" && !StartsWith("@@", "***");
    assert [] + [Chunk(None, [], ["e"], true)] == [Chunk(None, [], ["e"], true)];
  }
}
