/** The patch text kept beside the parsed hunks (`crates/apply-patch/src/parser.rs`, lines 155
    to 245). */
module StoredPatch {
  import opened Text
  import opened Patch
  import opened Parser
  import opened Printer

  function HunksOnly(r: Result<PatchArgs, ParseError>): Result<seq<Hunk>, ParseError> {
    match r
    case Ok(args) => Ok(args.hunks)
    case Err(e) => Err(e)
  }

  /** The lines a successful parse worked on, markers included. */
  function Accepted(patch: string, mode: Mode): seq<string>
    requires ParseText(patch, mode).Ok?
  {
    PatchLines(Lines(Trim(patch)), mode).value
  }

  lemma AcceptedFacts(patch: string, mode: Mode)
    requires ParseText(patch, mode).Ok?
    ensures var ls := Accepted(patch, mode);
            && |ls| >= 2 && CheckBoundaries(ls) == None
            && ParseText(patch, mode) == ParseBetweenMarkers(ls)
            && forall i :: 0 <= i < |ls| ==> '\n' !in ls[i]
  {
    hide Trim, Lines, CheckBoundaries, HunksFrom;
    var all := Lines(Trim(patch));
    PatchLinesBounded(all, mode);
    forall i | 0 <= i < |all| ensures '\n' !in all[i] {
      LinesHaveNoNewline(Trim(patch), i);
    }
  }

  /** White space at the two ends of a joined text belongs to its first and last lines. */
  lemma JoinEnds(a: string, first: string, mid: seq<string>, last: string, b: string)
    ensures Join([a + first] + mid + [last + b], "\n") == a + Join([first] + mid + [last], "\n") + b
  {
    hide Join;
    var tail, tail' := mid + [last], mid + [last + b];
    assert [first] + mid + [last] == [first] + tail;
    assert [a + first] + mid + [last + b] == [a + first] + tail';
    JoinHead(first, tail);
    JoinHead(a + first, tail');
    JoinLast(mid, last, b);
    assert (a + first) + "\n" + (Join(tail, "\n") + b) == a + (first + "\n" + Join(tail, "\n")) + b;
  }

  lemma JoinHead(first: string, tail: seq<string>)
    requires tail != []
    ensures Join([first] + tail, "\n") == first + "\n" + Join(tail, "\n")
  {
    assert ([first] + tail)[1..] == tail;
  }

  lemma JoinLast(mid: seq<string>, last: string, b: string)
    ensures Join(mid + [last + b], "\n") == Join(mid + [last], "\n") + b
  {
    hide Join;
    if mid == [] {
      assert mid + [last + b] == [last + b] && mid + [last] == [last];
      JoinOne(last + b);
      JoinOne(last);
    } else {
      JoinConcat(mid, [last + b], "\n");
      JoinConcat(mid, [last], "\n");
      JoinOne(last + b);
      JoinOne(last);
      Reassociate(Join(mid, "\n") + "\n", last, b);
    }
  }

  lemma StripCrWhitespace(marker: string, post: string)
    requires marker != "" && Trimmed(marker) && AllWhitespace(post)
    ensures Trim(StripCr(marker + post)) == marker
  {
    hide Trim, IsWhitespace;
    var s := marker + post;
    if post == "" {
      assert s == marker;
      assert marker[|marker| - 1] != '\r' by { assert IsWhitespace('\r') by { CrIsWhitespace(); } }
      TrimUnique("", marker, "");
      assert "" + marker + "" == marker;
    } else {
      var post' := StripCr(post);
      assert StripCr(s) == marker + post';
      TrimUnique("", marker, post');
      assert "" + marker + post' == marker + post';
    }
  }

  lemma CrIsWhitespace()
    ensures IsWhitespace('\r')
  {
  }

  /** Re-reading text that starts and ends with padded marker lines. */
  lemma {:induction false} ReparsePadded(a: string, post: string, mid: seq<string>, pre: string, b: string)
    requires AllWhitespace(a) && AllWhitespace(post) && AllWhitespace(pre) && AllWhitespace(b)
    requires '\n' !in post && '\n' !in pre
    requires forall i :: 0 <= i < |mid| ==> '\n' !in mid[i]
    ensures var text := a + Join([BEGIN_PATCH_MARKER + post] + mid + [pre + END_PATCH_MARKER], "\n") + b;
            HunksOnly(ParseText(text, Strict)) == HunksFrom(StripCrs(mid), 2, [])
  {
    hide Trim, IsWhitespace, Lines, Join, HunksFrom, StripCr, AllWhitespace, Trimmed;
    var first, last := BEGIN_PATCH_MARKER + post, pre + END_PATCH_MARKER;
    var body := Join([first] + mid + [last], "\n");
    MarkerLines();
    PaddedMarkers(post, pre);
    TextTrimmed(first, mid, last);
    TrimUnique(a, body, b);
    LinesJoinGeneral([first] + mid, last);
    var ls := StripCrs([first] + mid) + [last];
    assert ls == [StripCr(first)] + StripCrs(mid) + [last];
    assert CheckBoundaries(ls) == None;
    assert Inside(ls) == StripCrs(mid);
  }

  lemma PaddedMarkers(post: string, pre: string)
    requires AllWhitespace(post) && AllWhitespace(pre)
    requires '\n' !in post && '\n' !in pre
    ensures var first, last := BEGIN_PATCH_MARKER + post, pre + END_PATCH_MARKER;
            && first != "" && !IsWhitespace(first[0]) && '\n' !in first
            && last != "" && !IsWhitespace(last[|last| - 1]) && '\n' !in last
            && Trim(StripCr(first)) == BEGIN_PATCH_MARKER && Trim(last) == END_PATCH_MARKER
  {
    hide Trim, StripCr, AllWhitespace, IsWhitespace;
    MarkerLines();
    var first, last := BEGIN_PATCH_MARKER + post, pre + END_PATCH_MARKER;
    assert first[0] == BEGIN_PATCH_MARKER[0];
    assert last[|last| - 1] == END_PATCH_MARKER[|END_PATCH_MARKER| - 1];
    StripCrWhitespace(BEGIN_PATCH_MARKER, post);
    TrimUnique(pre, END_PATCH_MARKER, "") by { assert AllWhitespace("") by { NothingIsWhitespace(); } }
    assert pre + END_PATCH_MARKER + "" == last;
  }

  /** Exactly what the stored patch text means: parsed strictly it gives the hunks of the same
      lines with one trailing carriage return taken off each. */
  lemma {:induction false} StoredPatchMeans(patch: string, mode: Mode)
    requires ParseText(patch, mode).Ok?
    ensures |Accepted(patch, mode)| >= 2
    ensures HunksOnly(ParseText(ParseText(patch, mode).value.patch, Strict))
         == HunksFrom(StripCrs(Inside(Accepted(patch, mode))), 2, [])
  {
    hide Trim, Lines, Join, HunksFrom, StripCrs, ParseText, PatchLines, AllWhitespace, Trimmed;
    AcceptedFacts(patch, mode);
    var ls := Accepted(patch, mode);
    var mid := Inside(ls);
    var a, post := TrimParts(ls[0]);
    var pre, b := TrimParts(ls[|ls| - 1]);
    assert ls[0] == a + (BEGIN_PATCH_MARKER + post) by { Reassociate(a, BEGIN_PATCH_MARKER, post); }
    assert ls[|ls| - 1] == (pre + END_PATCH_MARKER) + b;
    assert ls == [ls[0]] + mid + [ls[|ls| - 1]];
    JoinEnds(a, BEGIN_PATCH_MARKER + post, mid, pre + END_PATCH_MARKER, b);
    assert '\n' !in post && '\n' !in pre by {
      assert '\n' !in ls[0] && '\n' !in ls[|ls| - 1];
    }
    ReparsePadded(a, post, mid, pre, b);
  }

  /** With no carriage return at the end of a line, the stored text is faithful. */
  lemma {:induction false} StoredPatchFaithful(patch: string, mode: Mode)
    requires ParseText(patch, mode).Ok?
    requires AllPlain(Accepted(patch, mode))
    ensures HunksOnly(ParseText(ParseText(patch, mode).value.patch, Strict)) == Ok(ParseText(patch, mode).value.hunks)
  {
    hide Trim, Lines, Join, HunksFrom, ParseText, PatchLines, PlainLine, CheckBoundaries;
    AcceptedFacts(patch, mode);
    StoredPatchMeans(patch, mode);
    StripCrsPlain(Inside(Accepted(patch, mode)));
  }

  /** And without that it need not be: a line that ends in two carriage returns keeps one in
      the hunk and none in the hunk of the stored text. */
  lemma {:induction false} CarriageReturnIsLost(t: string)
    requires '\n' !in t
    ensures var patch := Join([BEGIN_PATCH_MARKER, "*** Add File: a", "+" + t + "\r\r", END_PATCH_MARKER], "\n");
            && HunksOnly(ParseText(patch, Strict)) == Ok([AddFile("a", t + "\r\n")])
            && HunksOnly(ParseText(ParseText(patch, Strict).value.patch, Strict)) == Ok([AddFile("a", t + "\n")])
            && t + "\r\n" != t + "\n"
  {
    hide Trim, Lines, Join, HunksFrom, ParseText, CheckBoundaries, StripCrs, AllWhitespace;
    var header := "*** Add File: a";
    var mid := [header, "+" + t + "\r\r"];
    var patch := Join([BEGIN_PATCH_MARKER, header, "+" + t + "\r\r", END_PATCH_MARKER], "\n");
    NothingIsWhitespace();
    ReparsePadded("", "", mid, "", "");
    assert BEGIN_PATCH_MARKER + "" == BEGIN_PATCH_MARKER && "" + END_PATCH_MARKER == END_PATCH_MARKER;
    assert [BEGIN_PATCH_MARKER, header, "+" + t + "\r\r", END_PATCH_MARKER]
        == [BEGIN_PATCH_MARKER] + mid + [END_PATCH_MARKER];
    assert "" + patch + "" == patch;
    StripTwice(t, header, mid);
    AddOneLine(header, t + "\r");
    AddOneLine(header, t);
    assert t + "\r" + "\n" == t + "\r\n";
    assert |t + "\r\n"| != |t + "\n"|;
    AcceptedMiddle(mid);
    StoredPatchMeans(patch, Strict);
  }

  lemma StripTwice(t: string, header: string, mid: seq<string>)
    requires header == "*** Add File: a" && mid == [header, "+" + t + "\r\r"]
    ensures StripCrs(mid) == [header, "+" + (t + "\r")]
    ensures StripCrs([header, "+" + (t + "\r")]) == [header, "+" + t]
  {
    var line := "+" + t + "\r\r";
    assert line[..|line| - 1] == "+" + (t + "\r");
    assert ("+" + (t + "\r"))[..|line| - 2] == "+" + t;
    assert header[|header| - 1] == 'a';
  }

  lemma {:induction false} AddOneLine(header: string, text: string)
    requires header == "*** Add File: a"
    ensures HunksFrom([header, "+" + text], 2, []) == Ok([AddFile("a", text + "\n")])
  {
    hide Trim, StripPrefix, ParseHunk, HunkStart;
    assert header == ADD_FILE_MARKER + "a";
    assert GoodPath("a");
    AddHeader("a");
    AddPrinted(header, "a", [text], [], 2);
    var lines := [header, "+" + text];
    assert PrintAdded([text]) == ["+" + text];
    assert [header] + PrintAdded([text]) + [] == lines;
    assert Unlines([text]) == text + "\n";
    assert lines[2..] == [];
    assert [] + [AddFile("a", text + "\n")] == [AddFile("a", text + "\n")];
  }

  /** The lines a strict parse of unpadded marker lines works on. */
  lemma {:induction false} AcceptedMiddle(mid: seq<string>)
    requires forall i :: 0 <= i < |mid| ==> '\n' !in mid[i]
    requires ParseText(Join([BEGIN_PATCH_MARKER] + mid + [END_PATCH_MARKER], "\n"), Strict).Ok?
    ensures var ls := Accepted(Join([BEGIN_PATCH_MARKER] + mid + [END_PATCH_MARKER], "\n"), Strict);
            |ls| >= 2 && Inside(ls) == StripCrs(mid)
  {
    hide Trim, Lines, Join, IsWhitespace, HunksFrom, StripCr;
    MarkerLines();
    TextTrimmed(BEGIN_PATCH_MARKER, mid, END_PATCH_MARKER);
    assert '\n' !in BEGIN_PATCH_MARKER && '\n' !in END_PATCH_MARKER;
    LinesJoinGeneral([BEGIN_PATCH_MARKER] + mid, END_PATCH_MARKER);
  }

  // ---------------------------------------------------------------- lenient mode

  /** Lenient mode changes nothing where strict mode succeeds. */
  lemma LenientExtendsStrict(patch: string)
    requires ParseText(patch, Strict).Ok?
    ensures ParseText(patch, Lenient) == ParseText(patch, Strict)
  {
    hide Trim, Lines, CheckBoundaries, HunksFrom;
  }

  lemma {:induction false} SplitConcat(a: string, b: string, sep: char)
    ensures Split(a + [sep] + b, sep) == Split(a, sep) + Split(b, sep)
  {
    var s := a + [sep] + b;
    if a == "" {
      assert s == [sep] + b && s[1..] == b;
    } else {
      assert s[1..] == a[1..] + [sep] + b;
      SplitConcat(a[1..], b, sep);
      var rest := Split(a[1..], sep);
      if a[0] == sep {
        Reassociate([""], rest, Split(b, sep));
      } else {
        assert (rest + Split(b, sep))[0] == rest[0];
        assert (rest + Split(b, sep))[1..] == rest[1..] + Split(b, sep);
        Reassociate([[a[0]] + rest[0]], rest[1..], Split(b, sep));
      }
    }
  }

  /** Text that does not end in white space has the same lines when more text follows on the next line. */
  lemma LinesOfTrimmed(p: string)
    requires p != "" && Trimmed(p)
    ensures StripCrs(Split(p, '\n')) == Lines(p)
  {
    hide IsWhitespace, Split;
    var parts := Split(p, '\n');
    var last := parts[|parts| - 1];
    var front := SplitLast(p);
    assert last != "" by {
      assert IsWhitespace('\n') by { NewlineIsWhitespace(); }
      assert front + last == p;
    }
    assert last[|last| - 1] == p[|p| - 1];
    assert last[|last| - 1] != '\r' by { CrIsWhitespace(); }
    assert StripCrs(parts) == StripCrs(parts[..|parts| - 1]) + [last];
  }

  lemma NewlineIsWhitespace()
    ensures IsWhitespace('\n')
  {
  }

  /** The last piece is what follows the last newline. */
  lemma {:induction false} SplitLast(p: string) returns (front: string)
    ensures var parts := Split(p, '\n'); p == front + parts[|parts| - 1]
    ensures front == "" || front[|front| - 1] == '\n'
  {
    var parts := Split(p, '\n');
    if p == "" {
      front := "";
    } else {
      var f := SplitLast(p[1..]);
      var rest := Split(p[1..], '\n');
      if p[0] == '\n' || |rest| > 1 {
        front := [p[0]] + f;
        assert parts[|parts| - 1] == rest[|rest| - 1];
        if f == "" {
          assert p[0] == '\n' by { if |rest| > 1 { OnePieceTail(p[1..], f); } }
        }
      } else {
        OnePiece(p[1..]);
        front := "";
        assert [p[0]] + p[1..] == p;
      }
      assert [p[0]] + p[1..] == p;
    }
  }

  lemma OnePiece(p: string)
    requires |Split(p, '\n')| == 1
    ensures Split(p, '\n')[0] == p
  {
    JoinSplit(p, '\n');
  }

  lemma OnePieceTail(p: string, f: string)
    requires f == "" && p == f + Split(p, '\n')[|Split(p, '\n')| - 1]
    ensures |Split(p, '\n')| == 1
  {
    var last := Split(p, '\n')[|Split(p, '\n')| - 1];
    SplitPieces(p, '\n', |Split(p, '\n')| - 1);
    assert p == last;
    SplitWhole(p, '\n');
  }
}
