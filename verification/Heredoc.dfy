/** Lenient mode: a patch wrapped as a heredoc (`check_patch_boundaries_lenient` in
    `crates/apply-patch/src/parser.rs`). */
module Heredoc {
  import opened Text
  import opened Parser
  import opened Printer
  import opened StoredPatch

  // ---------------------------------------------------------------- what opens a heredoc

  const OPENERS: set<string> := {"<<EOF", "<<'EOF'", "<<\"EOF\""}

  lemma OpenersExactly(line: string)
    ensures HeredocStart(line) <==> line in OPENERS
  {
  }

  /** Lenient mode accepts more than strict mode in one case only: at least four lines, the first
      one of the three openers, the last one ending in `EOF`, and what is between them accepted
      strictly. */
  lemma LenientExactly(patch: string)
    ensures var all := Lines(Trim(patch));
            var strict, lenient := PatchLines(all, Strict), PatchLines(all, Lenient);
            && (strict.Ok? ==> lenient == strict)
            && (strict.Err? && lenient.Ok? <==>
                  && strict.Err? && |all| >= 4 && all[0] in OPENERS && EndsWith(all[|all| - 1], "EOF")
                  && PatchLines(Inside(all), Strict).Ok?)
            && (strict.Err? && lenient.Ok? ==> lenient == PatchLines(Inside(all), Strict))
  {
    hide Lines, Trim, CheckBoundaries, EndsWith;
    var all := Lines(Trim(patch));
    if all != [] { OpenersExactly(all[0]); }
  }

  /** The first and the last line, but for white space around them. */
  lemma StrictExactly(lines: seq<string>)
    ensures PatchLines(lines, Strict).Ok? <==>
      lines != [] && Trim(lines[0]) == "*** Begin Patch" && Trim(lines[|lines| - 1]) == "*** End Patch"
    ensures PatchLines(lines, Strict) == Err(BadFirstLine) <==> lines != [] && Trim(lines[0]) != "*** Begin Patch"
  {
    hide Trim;
  }

  // ---------------------------------------------------------------- what trimming takes off

  /** The white space a text begins with. */
  function Lead(s: string): string {
    if s == "" || !IsWhitespace(s[0]) then "" else [s[0]] + Lead(s[1..])
  }

  /** The white space a text ends with. */
  function Trail(s: string): string {
    if s == "" || !IsWhitespace(s[|s| - 1]) then "" else Trail(s[..|s| - 1]) + [s[|s| - 1]]
  }

  lemma {:induction false} LeadIs(pre: string, rest: string)
    requires AllWhitespace(pre) && rest != "" && !IsWhitespace(rest[0])
    ensures Lead(pre + rest) == pre
    decreases |pre|
  {
    hide IsWhitespace;
    if pre == "" {
      assert pre + rest == rest;
    } else {
      assert (pre + rest)[1..] == pre[1..] + rest;
      LeadIs(pre[1..], rest);
      assert [pre[0]] + pre[1..] == pre;
    }
  }

  lemma {:induction false} TrailIs(front: string, post: string)
    requires AllWhitespace(post) && front != "" && !IsWhitespace(front[|front| - 1])
    ensures Trail(front + post) == post
    decreases |post|
  {
    hide IsWhitespace;
    if post == "" {
      assert front + post == front;
    } else {
      var init := post[..|post| - 1];
      assert (front + post)[..|front + post| - 1] == front + init;
      TrailIs(front, init);
      assert init + [post[|post| - 1]] == post;
    }
  }

  /** A text is its leading white space, what is left by trimming, and its trailing white space. */
  lemma TrimTakesOff(p: string)
    requires Trim(p) != ""
    ensures p == Lead(p) + Trim(p) + Trail(p)
    ensures AllWhitespace(Lead(p)) && AllWhitespace(Trail(p)) && Trimmed(Trim(p))
  {
    hide IsWhitespace, Trim, AllWhitespace;
    var pre, post := TrimParts(p);
    var t := Trim(p);
    assert (t + post)[0] == t[0] && (pre + t)[|pre + t| - 1] == t[|t| - 1];
    Reassociate(pre, t, post);
    LeadIs(pre, t + post);
    TrailIs(pre + t, post);
  }

  // ---------------------------------------------------------------- the lines of a wrapped patch

  function Wrapped(opener: string, p: string, post: string): string {
    opener + "\n" + p + "\nEOF" + post
  }

  /** The lines between the heredoc markers. */
  function Inner(p: string): (r: seq<string>)
    ensures |r| == |Split(p, '\n')|
  {
    StripCrs(Split(p, '\n'))
  }

  lemma WrappedTrimmed(opener: string, p: string, post: string)
    requires HeredocStart(opener) && AllWhitespace(post)
    ensures Trim(Wrapped(opener, p, post)) == opener + "\n" + p + "\nEOF"
  {
    hide Trim;
    var text := opener + "\n" + p + "\nEOF";
    assert text[0] == opener[0] == '<' && text[|text| - 1] == 'F';
    TrimUnique("", text, post);
    assert "" + text + post == text + post;
  }

  lemma WrappedLines(opener: string, p: string, post: string)
    requires HeredocStart(opener) && AllWhitespace(post)
    ensures Lines(Trim(Wrapped(opener, p, post))) == [opener] + Inner(p) + ["EOF"]
  {
    hide Trim, Split, AllWhitespace, Wrapped;
    WrappedTrimmed(opener, p, post);
    var inner := p + "\n" + "EOF";
    assert opener + "\n" + p + "\nEOF" == opener + "\n" + inner;
    assert '\n' !in opener && opener[|opener| - 1] != '\r';
    SplitHead(opener, inner, '\n');
    SplitConcat(p, "EOF", '\n');
    SplitWhole("EOF", '\n');
    var parts := Split(opener + "\n" + inner, '\n');
    assert parts == [opener] + Split(p, '\n') + ["EOF"];
    assert parts[..|parts| - 1] == [opener] + Split(p, '\n');
    assert StripCrs(parts[..|parts| - 1]) == [opener] + Inner(p);
  }

  lemma OpenerIsNoMarker(opener: string)
    requires HeredocStart(opener)
    ensures Trim(opener) != BEGIN_PATCH_MARKER
  {
    hide Trim;
    assert opener[0] == '<';
    assert opener[|opener| - 1] in {'F', '\'', '\"'};
    TrimIdentity(opener);
    assert BEGIN_PATCH_MARKER[0] == '*';
  }

  /** The check moves on to the lines inside. */
  lemma InsideIsChecked(opener: string, ls: seq<string>)
    requires HeredocStart(opener) && |ls| >= 2
    ensures var problem := CheckBoundaries(ls);
            PatchLines([opener] + ls + ["EOF"], Lenient) == if problem.None? then Ok(ls) else Err(problem.value)
  {
    hide Trim;
    var all := [opener] + ls + ["EOF"];
    assert all[1..|all| - 1] == ls;
    OpenerIsNoMarker(opener);
    assert CheckBoundaries(all) == Some(BadFirstLine);
    assert EndsWith(all[|all| - 1], "EOF");
  }

  // ---------------------------------------------------------------- padding

  lemma LinesOfNothing()
    ensures Lines("") == []
  {
  }

  /** What a strict parse tells about the trimmed text: at least two lines, and the markers. */
  lemma StrictLines(p: string)
    requires ParseText(p, Strict).Ok?
    ensures Trim(p) != ""
    ensures var t := Trim(p);
            && |Inner(t)| >= 2 && Inner(t) == Lines(t) && CheckBoundaries(Inner(t)) == None
            && ParseText(p, Strict) == ParseBetweenMarkers(Inner(t))
  {
    hide Trim, Lines, CheckBoundaries, HunksFrom, StripCrs, Split, Trimmed, Join;
    AcceptedFacts(p, Strict);
    LinesOfNothing();
    var pre, post := TrimParts(p);
    LinesOfTrimmed(Trim(p));
  }

  /** A blank first line: nothing is trimmed, so the opening marker is not found. */
  lemma LeadingLine(p: string)
    requires '\n' in Lead(p) && Trim(p) != ""
    ensures CheckBoundaries(Inner(p)) == Some(BadFirstLine)
  {
    hide Trim, IsWhitespace, AllWhitespace, Split, Trimmed, Lead, Trail;
    TrimTakesOff(p);
    var lead := Lead(p);
    var x, y := FirstLine(lead);
    var rest := y + Trim(p) + Trail(p);
    assert p == x + ['\n'] + rest;
    SplitHead(x, rest, '\n');
    BlankLine(x, lead);
    assert BEGIN_PATCH_MARKER != "";
  }

  /** A blank last line: the closing marker is not found. */
  lemma TrailingLine(p: string)
    requires '\n' in Trail(p) && Trim(p) != ""
    ensures CheckBoundaries(Inner(p)).Some?
  {
    hide Trim, IsWhitespace, AllWhitespace, Split, Trimmed, Lead, Trail, StripCr;
    TrimTakesOff(p);
    var trail := Trail(p);
    var x, y := LastLine(trail);
    var front := Lead(p) + Trim(p) + x;
    assert p == front + ['\n'] + y;
    SplitConcat(front, y, '\n');
    SplitWhole(y, '\n');
    var parts := Split(p, '\n');
    assert parts[|parts| - 1] == y;
    BlankLine(y, trail);
    assert END_PATCH_MARKER != "";
  }

  lemma BlankLine(x: string, white: string)
    requires AllWhitespace(white) && forall c :: c in x ==> c in white
    ensures Trim(StripCr(x)) == ""
  {
    hide IsWhitespace, Trim;
    var s := StripCr(x);
    forall i | 0 <= i < |s| ensures IsWhitespace(s[i]) {
      assert s[i] == x[i] && x[i] in white;
    }
    TrimUnique(s, "", "") by { assert AllWhitespace("") by { NothingIsWhitespace(); } }
    assert s + "" + "" == s;
  }

  lemma {:induction false} FirstLine(s: string) returns (x: string, y: string)
    requires '\n' in s
    ensures s == x + ['\n'] + y && '\n' !in x
    ensures forall c :: c in x ==> c in s
  {
    if s[0] == '\n' {
      x, y := "", s[1..];
    } else {
      x, y := FirstLine(s[1..]);
      x := [s[0]] + x;
    }
  }

  lemma {:induction false} LastLine(s: string) returns (x: string, y: string)
    requires '\n' in s
    ensures s == x + ['\n'] + y && '\n' !in y
    ensures forall c :: c in y ==> c in s
  {
    var n := |s| - 1;
    if s[n] == '\n' {
      x, y := s[..n], "";
    } else {
      assert s == s[..n] + [s[n]];
      x, y := LastLine(s[..n]);
      y := y + [s[n]];
    }
  }

  /** Padding that stays on the marker lines: the lines inside are those of the trimmed text,
      but for white space around the markers. */
  lemma PaddedLines(p: string)
    requires ParseText(p, Strict).Ok?
    requires '\n' !in Lead(p) && '\n' !in Trail(p)
    ensures var t := Inner(Trim(p));
            && |Inner(p)| == |t| >= 2 && Inside(Inner(p)) == Inside(t)
            && CheckBoundaries(Inner(p)) == None
  {
    hide Trim, IsWhitespace, AllWhitespace, Split, Trimmed, Lead, Trail, ParseText, Lines, StripCr;
    StrictLines(p);
    TrimTakesOff(p);
    var lead, t, trail := Lead(p), Trim(p), Trail(p);
    var parts := Split(t, '\n');
    PaddedSplit(lead, t, trail);
    InsideStripped(parts, Split(p, '\n'));
    assert Inner(t)[0] == StripCr(parts[0]) && Inner(t)[|parts| - 1] == StripCr(parts[|parts| - 1]);
    PaddedMarkerLines(lead, parts[0], parts[|parts| - 1], trail);
  }

  lemma InsideStripped(a: seq<string>, b: seq<string>)
    requires |a| == |b| >= 2 && a[1..|a| - 1] == b[1..|b| - 1]
    ensures Inside(StripCrs(a)) == Inside(StripCrs(b))
  {
    hide StripCr;
    forall i | 0 <= i < |a| - 2 ensures Inside(StripCrs(a))[i] == Inside(StripCrs(b))[i] {
      assert a[i + 1] == a[1..|a| - 1][i] && b[i + 1] == b[1..|b| - 1][i];
    }
  }

  /** Padding without a newline goes to the first and the last piece. */
  lemma PaddedSplit(lead: string, t: string, trail: string)
    requires '\n' !in lead && '\n' !in trail && |Split(t, '\n')| >= 2
    ensures var parts := Split(t, '\n');
            var n := |parts| - 1;
            Split(lead + t + trail, '\n') == [lead + parts[0]] + parts[1..n] + [parts[n] + trail]
  {
    hide Split, Join;
    var parts := Split(t, '\n');
    var n := |parts| - 1;
    assert parts == [parts[0]] + parts[1..n] + [parts[n]];
    JoinSplit(t, '\n');
    JoinEnds(lead, parts[0], parts[1..n], parts[n], trail);
    var padded := [lead + parts[0]] + parts[1..n] + [parts[n] + trail];
    PiecesHaveNoNewline(t, lead, trail, padded);
    SplitJoin(padded, '\n');
  }

  lemma PiecesHaveNoNewline(t: string, lead: string, trail: string, padded: seq<string>)
    requires '\n' !in lead && '\n' !in trail
    requires var parts := Split(t, '\n');
             && |parts| >= 2
             && padded == [lead + parts[0]] + parts[1..|parts| - 1] + [parts[|parts| - 1] + trail]
    ensures forall i :: 0 <= i < |padded| ==> '\n' !in padded[i]
  {
    hide Split;
    forall i | 0 <= i < |padded| ensures '\n' !in padded[i] {
      SplitPieces(t, '\n', i);
    }
  }

  lemma PaddedMarkerLines(lead: string, first: string, last: string, trail: string)
    requires AllWhitespace(lead) && AllWhitespace(trail)
    requires Trim(StripCr(first)) == BEGIN_PATCH_MARKER && Trim(StripCr(last)) == END_PATCH_MARKER
    ensures Trim(StripCr(lead + first)) == BEGIN_PATCH_MARKER && Trim(StripCr(last + trail)) == END_PATCH_MARKER
  {
    hide Trim, IsWhitespace;
    NothingIsWhitespace();
    StripCrTrim(first);
    StripCrTrim(last);
    StripCrTrim(lead + first);
    StripCrTrim(last + trail);
    hide AllWhitespace, StripCr;
    TrimPadded(lead, first, "");
    assert lead + first + "" == lead + first;
    TrimPadded("", last, trail);
    assert "" + last + trail == last + trail;
  }

  /** A strictly parsable patch, wrapped as a heredoc with any white space after it, parses
      leniently to the same hunks exactly when the white space at its own ends holds no newline.
      Nothing inside the heredoc is trimmed. An unpadded patch gives the same stored text too. */
  lemma {:induction false} HeredocUnwrapped(opener: string, p: string, post: string)
    requires opener in OPENERS && AllWhitespace(post)
    requires ParseText(p, Strict).Ok?
    ensures var lenient, strict := ParseText(Wrapped(opener, p, post), Lenient), ParseText(p, Strict);
            && (HunksOnly(lenient) == HunksOnly(strict) <==> '\n' !in Lead(p) && '\n' !in Trail(p))
            && ('\n' in Lead(p) ==> lenient == Err(BadFirstLine))
            && (Trimmed(p) ==> lenient == strict)
  {
    hide Lines, CheckBoundaries, HunksFrom, Trim, HeredocStart, AllWhitespace, Trimmed, Join, Lead, Trail, Wrapped,
         Inner, PatchLines;
    OpenersExactly(opener);
    StrictLines(p);
    WrappedLines(opener, p, post);
    InnerNotShorter(p);
    InsideIsChecked(opener, Inner(p));
    if '\n' in Lead(p) {
      LeadingLine(p);
    } else if '\n' in Trail(p) {
      TrailingLine(p);
    } else {
      PaddedLines(p);
    }
    if Trimmed(p) { Unpadded(p); }
  }

  lemma Unpadded(p: string)
    requires Trimmed(p)
    ensures Trim(p) == p && Lead(p) == "" && Trail(p) == ""
  {
    hide Trim, IsWhitespace;
    TrimIdentity(p);
  }

  /** Padding adds lines and takes none away. */
  lemma InnerNotShorter(p: string)
    requires Trim(p) != "" && |Inner(Trim(p))| >= 2
    ensures |Inner(p)| >= 2
  {
    hide Trim, Split, Lead, Trail, AllWhitespace, Trimmed;
    TrimTakesOff(p);
    var t := Trim(p);
    if '\n' !in t {
      SplitWhole(t, '\n');
    } else {
      var x, y := FirstLine(p);
      SplitHead(x, y, '\n');
    }
  }

  /** The documented trimming does not happen: with a blank line after the heredoc marker the
      patch is refused, although what is inside parses. */
  lemma {:induction false} BlankLineInHeredoc(opener: string, p: string)
    requires opener in OPENERS && ParseText(p, Strict).Ok?
    ensures ParseText(Wrapped(opener, "\n" + p, ""), Lenient) == Err(BadFirstLine)
    ensures ParseText("\n" + p, Strict) == ParseText(p, Strict)
  {
    hide Lines, CheckBoundaries, HunksFrom, Trim, HeredocStart, AllWhitespace, Join, Wrapped, PatchLines;
    var padded := "\n" + p;
    NothingIsWhitespace();
    assert AllWhitespace("\n") by { NewlineIsBlank(); }
    TrimPadded("\n", p, "");
    assert "\n" + p + "" == padded;
    assert '\n' in Lead(padded) by {
      NewlineIsWhitespace();
      assert Lead(padded)[0] == '\n';
    }
    HeredocUnwrapped(opener, padded, "");
  }

  lemma NewlineIsBlank()
    ensures AllWhitespace("\n")
  {
  }
}
