/** Where the splitter cuts, and why well-nested source is cut only between its parts
    (`crates/app-server-protocol/src/export.rs`, lines 680 to 699 and 802 to 862). */
module Nesting {
  import opened Text
  import opened Splitter

  // ---------------------------------------------------------------- the cuts of any text

  /** A delimiter met outside strings and brackets. */
  predicate IsCut(input: string, delims: set<char>, i: nat) {
    i < |input| && input[i] in delims && AtTop(Run(INITIAL, input[..i]))
  }

  /** The text from `start` on, without the characters at the cuts. */
  function Pieces(input: string, cuts: seq<nat>, start: nat): seq<string>
    requires Ascending(cuts, start, |input|)
    decreases |cuts|
  {
    if cuts == [] then [input[start..]]
    else [input[start..cuts[0]]] + Pieces(input, cuts[1..], cuts[0] + 1)
  }

  predicate Ascending(cuts: seq<nat>, low: nat, high: nat) {
    if cuts == [] then low <= high else low <= cuts[0] < high && Ascending(cuts[1..], cuts[0] + 1, high)
  }

  /** The pieces that are not blank, trimmed. */
  function Visible(pieces: seq<string>): seq<string> {
    if pieces == [] then [] else Flush(pieces[0]) + Visible(pieces[1..])
  }

  lemma {:induction false} CutsFrom(input: string, delims: set<char>, start: nat, i: nat) returns (cuts: seq<nat>)
    requires start <= i <= |input|
    ensures Ascending(cuts, i, |input|) && Ascending(cuts, start, |input|)
    ensures forall k: nat :: k in cuts <==> i <= k && IsCut(input, delims, k)
    ensures Scan(input[i..], delims, Run(INITIAL, input[..i]), input[start..i]) == Visible(Pieces(input, cuts, start))
    decreases |input| - i
  {
    hide AtTop, Observe, Flush, Run, Scan, Visible, Pieces, IsCut;
    var state := Run(INITIAL, input[..i]);
    if i == |input| {
      cuts := [];
      CutsAtEnd(input, delims, start);
    } else {
      var next := Observe(state, input[i]);
      assert Run(INITIAL, input[..i + 1]) == next by {
        assert input[..i + 1] == input[..i] + [input[i]];
        ReadOne(INITIAL, input[..i], input[i], delims);
      }
      ScanHead(input, delims, state, start, i);
      CutHere(input, delims, i);
      if AtTop(state) && input[i] in delims {
        var rest := CutsFrom(input, delims, i + 1, i + 1);
        assert input[i + 1..i + 1] == "";
        cuts := [i] + rest;
        FirstPiece(input, start, i, rest);
      } else {
        cuts := CutsFrom(input, delims, start, i + 1);
        forall k: nat ensures k in cuts <==> i <= k && IsCut(input, delims, k) {
          assert k in cuts <==> i + 1 <= k && IsCut(input, delims, k);
        }
      }
    }
  }

  lemma CutHere(input: string, delims: set<char>, i: nat)
    requires i < |input|
    ensures IsCut(input, delims, i) <==> input[i] in delims && AtTop(Run(INITIAL, input[..i]))
  {
  }

  lemma CutsAtEnd(input: string, delims: set<char>, start: nat)
    requires start <= |input|
    ensures forall k: nat :: IsCut(input, delims, k) ==> k < |input|
    ensures Scan(input[|input|..], delims, Run(INITIAL, input[..|input|]), input[start..|input|])
         == Visible(Pieces(input, [], start))
  {
    hide AtTop, Observe, Flush, Run;
    var last := input[start..];
    assert input[|input|..] == "" && input[start..|input|] == last;
    assert Pieces(input, [], start) == [last] && [last][1..] == [];
    assert Flush(last) + Visible([]) == Flush(last);
  }

  lemma FirstPiece(input: string, start: nat, i: nat, rest: seq<nat>)
    requires start <= i < |input| && Ascending(rest, i + 1, |input|)
    ensures Ascending([i] + rest, start, |input|)
    ensures Visible(Pieces(input, [i] + rest, start)) == Flush(input[start..i]) + Visible(Pieces(input, rest, i + 1))
  {
    hide Flush;
    assert ([i] + rest)[1..] == rest;
    var pieces := Pieces(input, [i] + rest, start);
    assert pieces[0] == input[start..i] && pieces[1..] == Pieces(input, rest, i + 1);
  }

  /** For every text: the parts are the non-blank pieces between the delimiters that stand
      outside strings and brackets, all of those delimiters and no other. */
  lemma SplitsAtCuts(input: string, delims: set<char>) returns (cuts: seq<nat>)
    ensures Ascending(cuts, 0, |input|)
    ensures forall k: nat :: k in cuts <==> IsCut(input, delims, k)
    ensures SplitTop(input, delims) == Visible(Pieces(input, cuts, 0))
  {
    hide AtTop, Observe, Flush, Scan, IsCut;
    NoneRead(delims);
    cuts := CutsFrom(input, delims, 0, 0);
    assert input[0..] == input && input[..0] == "" && input[0..0] == "";
    forall k: nat ensures k in cuts <==> IsCut(input, delims, k) {
      assert k in cuts <==> 0 <= k && IsCut(input, delims, k);
    }
  }

  // ---------------------------------------------------------------- well-nested source

  datatype Bracket = Brace | Square | Paren | Angle {
    function Open(): char {
      match this case Brace => '{' case Square => '[' case Paren => '(' case Angle => '<'
    }

    function Close(): char {
      match this case Brace => '}' case Square => ']' case Paren => ')' case Angle => '>'
    }
  }

  /** A character of no meaning to the scanner, a string literal, or a bracketed group. */
  datatype Node = Plain(ch: char) | Literal(quote: char, text: string) | Group(kind: Bracket, inner: seq<Node>)

  /** The text of a literal, with a backslash before every quote and backslash. */
  function Escaped(quote: char, text: string): string {
    if text == "" then ""
    else (if text[0] == quote || text[0] == '\\' then ['\\', text[0]] else [text[0]]) + Escaped(quote, text[1..])
  }

  function PrintNode(n: Node): string
    decreases n, 1
  {
    match n
    case Plain(ch) => [ch]
    case Literal(quote, text) => [quote] + (Escaped(quote, text) + [quote])
    case Group(kind, inner) => [kind.Open()] + (PrintNodes(inner) + [kind.Close()])
  }

  function PrintNodes(ns: seq<Node>): string
    decreases ns, 0
  {
    if ns == [] then "" else PrintNode(ns[0]) + PrintNodes(ns[1..])
  }

  predicate Marks(ch: char) {
    ch in {'\"', '\'', '{', '}', '[', ']', '(', ')', '<', '>'}
  }

  predicate GoodNode(n: Node)
    decreases n
  {
    match n
    case Plain(ch) => !Marks(ch)
    case Literal(quote, _) => quote == '\"' || quote == '\''
    case Group(_, inner) => forall i :: 0 <= i < |inner| ==> GoodNode(inner[i])
  }

  predicate GoodNodes(ns: seq<Node>) {
    forall i :: 0 <= i < |ns| ==> GoodNode(ns[i])
  }

  predicate IsDelimiter(n: Node, delims: set<char>) {
    n.Plain? && n.ch in delims
  }

  predicate NoDelimiters(ns: seq<Node>, delims: set<char>) {
    forall i :: 0 <= i < |ns| ==> !IsDelimiter(ns[i], delims)
  }

  /** Not in a string. */
  predicate InCode(s: ScanState) {
    s.stringDelim.None? && !s.escape
  }

  lemma {:induction false} ReadEscaped(quote: char, text: string, s: ScanState, delims: set<char>)
    requires quote != '\\' && s.stringDelim == Some(quote) && !s.escape
    ensures Run(s, Escaped(quote, text)) == s && NoSplit(s, Escaped(quote, text), delims)
  {
    hide AtTop;
    if text != "" {
      var rest := Escaped(quote, text[1..]);
      ReadEscaped(quote, text[1..], s, delims);
      var first := if text[0] == quote || text[0] == '\\' then ['\\', text[0]] else [text[0]];
      assert Run(s, first) == s && NoSplit(s, first, delims) by { ReadOneEscaped(quote, text[0], s, delims); }
      hide Run, NoSplit;
      RunConcat(s, first, rest, delims);
    }
  }

  lemma ReadOneEscaped(quote: char, ch: char, s: ScanState, delims: set<char>)
    requires quote != '\\' && s.stringDelim == Some(quote) && !s.escape
    ensures var first := if ch == quote || ch == '\\' then ['\\', ch] else [ch];
            Run(s, first) == s && NoSplit(s, first, delims)
  {
    if ch == quote || ch == '\\' {
      var first := ['\\', ch];
      var mid := Observe(s, '\\');
      assert first[1..] == [ch] && [ch][1..] == "";
      assert Observe(mid, ch) == s;
      assert Run(mid, [ch]) == Run(s, "");
      assert NoSplit(mid, [ch], delims);
    } else {
      assert [ch][1..] == "";
      assert Observe(s, ch) == s;
    }
  }

  lemma ReadChar(s: ScanState, ch: char, delims: set<char>)
    ensures Run(s, [ch]) == Observe(s, ch)
    ensures NoSplit(s, [ch], delims) <==> !(AtTop(s) && ch in delims)
  {
    hide Observe, AtTop;
    assert [ch][1..] == "";
    assert Run(Observe(s, ch), "") == Observe(s, ch);
    assert NoSplit(Observe(s, ch), "", delims);
  }

  lemma ReadLiteral(n: Node, s: ScanState, delims: set<char>)
    requires n.Literal? && GoodNode(n) && InCode(s) && PlainDelims(delims)
    ensures Run(s, PrintNode(n)) == s && NoSplit(s, PrintNode(n), delims)
  {
    hide Run, NoSplit, AtTop, Escaped;
    var q := [n.quote];
    var inside := Observe(s, n.quote);
    assert inside == s.(stringDelim := Some(n.quote));
    ReadChar(s, n.quote, delims);
    assert NoSplit(s, q, delims);
    ReadEscaped(n.quote, n.text, inside, delims);
    ReadChar(inside, n.quote, delims);
    assert NoSplit(inside, q, delims);
    assert Observe(inside, n.quote) == s;
    RunConcat(inside, Escaped(n.quote, n.text), q, delims);
    RunConcat(s, q, Escaped(n.quote, n.text) + q, delims);
  }

  lemma OpenClose(kind: Bracket, s: ScanState)
    requires InCode(s)
    ensures InCode(Observe(s, kind.Open())) && !AtTop(Observe(s, kind.Open()))
    ensures Observe(Observe(s, kind.Open()), kind.Close()) == s
  {
  }

  function Depth(s: ScanState, kind: Bracket): nat {
    match kind case Brace => s.brace case Square => s.bracket case Paren => s.paren case Angle => s.angle
  }

  /** In code every kind of bracket is counted for itself: an opener adds one, a closer takes one
      off, and an unmatched closer does nothing at all. */
  lemma BracketsCount(kind: Bracket, s: ScanState)
    requires InCode(s)
    ensures forall k: Bracket ::
      Depth(Observe(s, kind.Open()), k) == Depth(s, k) + if k == kind then 1 else 0
    ensures forall k: Bracket ::
      Depth(Observe(s, kind.Close()), k) == if k == kind && Depth(s, k) > 0 then Depth(s, k) - 1 else Depth(s, k)
    ensures Depth(s, kind) == 0 ==> Observe(s, kind.Close()) == s
    ensures InCode(Observe(s, kind.Open())) && InCode(Observe(s, kind.Close()))
  {
  }

  /** Only brackets and quotes mean anything in code, and only a quote or a backslash in a string,
      where a backslash takes the meaning off the character after it. */
  lemma OtherCharacters(s: ScanState, ch: char)
    ensures InCode(s) && !Marks(ch) ==> Observe(s, ch) == s
    ensures InCode(s) && (ch == '\"' || ch == '\'') ==> Observe(s, ch) == s.(stringDelim := Some(ch))
    ensures s.stringDelim.Some? && s.escape ==> Observe(s, ch) == s.(escape := false)
    ensures s.stringDelim.Some? && !s.escape && ch == '\\' ==> Observe(s, ch) == s.(escape := true)
    ensures s.stringDelim.Some? && !s.escape && ch != '\\' ==>
      Observe(s, ch) == if Some(ch) == s.stringDelim then s.(stringDelim := None) else s
  {
  }

  /** The arrow of a function type closes nothing: a delimiter after it still splits. */
  lemma {:induction false} ArrowIsNeutral(rest: string)
    ensures SplitTop("() => void " + (['|'] + rest), {'|'}) == ["() => void"] + SplitTop(rest, {'|'})
  {
    hide Flush, Trim, Run, NoSplit, Scan, TrimEnd;
    var front := "() => void ";
    ReadArrow(front);
    ScanThrough(front, ['|'] + rest, {'|'}, INITIAL, "");
    assert "" + front == front;
    ScanDelimiter(front, rest);
    ArrowTrimmed();
  }

  lemma ScanDelimiter(raw: string, rest: string)
    ensures Scan(['|'] + rest, {'|'}, INITIAL, raw) == Flush(raw) + SplitTop(rest, {'|'})
  {
    hide Flush;
    assert (['|'] + rest)[1..] == rest;
  }

  lemma ArrowTrimmed()
    ensures Flush("() => void ") == ["() => void"]
  {
    NothingIsWhitespace();
    assert AllWhitespace(" ");
    assert Trimmed("() => void");
    hide Trim, AllWhitespace, Trimmed;
    assert "" + "() => void" + " " == "() => void ";
    FlushPadded("", "() => void", " ");
  }

  lemma {:induction false} ReadArrow(text: string)
    requires text == "() => void "
    ensures Run(INITIAL, text) == INITIAL && NoSplit(INITIAL, text, {'|'})
  {
    hide Run, NoSplit;
    var tail := " => void ";
    assert text == "(" + (")" + tail);
    var inside := Observe(INITIAL, '(');
    ReadChar(INITIAL, '(', {'|'});
    ReadChar(inside, ')', {'|'});
    assert Observe(inside, ')') == INITIAL;
    ReadPlain(tail);
    RunConcat(inside, ")", tail, {'|'});
    RunConcat(INITIAL, "(", ")" + tail, {'|'});
  }

  lemma {:induction false} ReadPlain(text: string)
    requires forall i :: 0 <= i < |text| ==> text[i] != '|' && (Marks(text[i]) ==> text[i] == '>')
    ensures Run(INITIAL, text) == INITIAL && NoSplit(INITIAL, text, {'|'})
    decreases |text|
  {
    hide AtTop;
    if text != "" {
      BracketsCount(Angle, INITIAL);
      ReadPlain(text[1..]);
    }
  }

  /** Reading a node leaves the scanner where it was, and only a delimiter standing at top level
      splits. */
  lemma {:induction false} ReadNode(n: Node, s: ScanState, delims: set<char>)
    requires GoodNode(n) && InCode(s) && PlainDelims(delims)
    ensures Run(s, PrintNode(n)) == s
    ensures NoSplit(s, PrintNode(n), delims) <==> !(AtTop(s) && IsDelimiter(n, delims))
    decreases n, 1
  {
    match n {
      case Plain(ch) =>
        hide AtTop, Run, NoSplit;
        ReadChar(s, ch, delims);
      case Literal(_, _) =>
        hide AtTop, Run, NoSplit;
        ReadLiteral(n, s, delims);
      case Group(kind, inner) =>
        hide AtTop, Run, NoSplit, Observe, InCode, PlainDelims, PrintNodes;
        var within := Observe(s, kind.Open());
        OpenClose(kind, s);
        ReadChar(s, kind.Open(), delims);
        assert GoodNodes(inner);
        ReadNodes(inner, within, delims);
        ReadChar(within, kind.Close(), delims);
        RunConcat(within, PrintNodes(inner), [kind.Close()], delims);
        RunConcat(s, [kind.Open()], PrintNodes(inner) + [kind.Close()], delims);
    }
  }

  lemma {:induction false} ReadNodes(ns: seq<Node>, s: ScanState, delims: set<char>)
    requires GoodNodes(ns) && InCode(s) && PlainDelims(delims)
    ensures Run(s, PrintNodes(ns)) == s
    ensures NoSplit(s, PrintNodes(ns), delims) <==> !AtTop(s) || NoDelimiters(ns, delims)
    decreases ns, 0
  {
    if ns == [] {
      hide AtTop;
      assert Run(s, "") == s && NoSplit(s, "", delims);
    } else {
      hide AtTop, Run, NoSplit, InCode, PlainDelims, GoodNode, IsDelimiter;
      ReadNode(ns[0], s, delims);
      assert GoodNodes(ns[1..]);
      ReadNodes(ns[1..], s, delims);
      RunConcat(s, PrintNode(ns[0]), PrintNodes(ns[1..]), delims);
      assert NoDelimiters(ns, delims) <==> !IsDelimiter(ns[0], delims) && NoDelimiters(ns[1..], delims) by {
        if NoDelimiters(ns[1..], delims) && !IsDelimiter(ns[0], delims) {
          forall i | 0 <= i < |ns| ensures !IsDelimiter(ns[i], delims) {
            if i > 0 { assert ns[i] == ns[1..][i - 1]; }
          }
        }
      }
    }
  }

  /** Source of one part: well nested, without a delimiter of its own, no blank at its ends. */
  predicate PartSource(ns: seq<Node>, delims: set<char>) {
    GoodNodes(ns) && NoDelimiters(ns, delims) && PrintNodes(ns) != "" && Trimmed(PrintNodes(ns))
  }

  function PrintParts(parts: seq<seq<Node>>): (r: seq<string>)
    ensures |r| == |parts|
    ensures forall i :: 0 <= i < |parts| ==> r[i] == PrintNodes(parts[i])
  {
    seq(|parts|, i requires 0 <= i < |parts| => PrintNodes(parts[i]))
  }

  /** Well-nested parts joined by a delimiter split into exactly those parts, whatever delimiters,
      brackets and quotes their groups and literals hold. */
  lemma {:induction false} NestedPartsSplit(parts: seq<seq<Node>>, delims: set<char>, sep: string)
    requires PlainDelims(delims) && Separator(sep, delims)
    requires forall i :: 0 <= i < |parts| ==> PartSource(parts[i], delims)
    ensures SplitTop(Join(PrintParts(parts), sep), delims) == PrintParts(parts)
  {
    hide Observe, IsWhitespace, AllWhitespace, NoSplit, Run, PlainDelims, PartSource, Scan, Join, Trimmed;
    var ps := PrintParts(parts);
    assert Parts(ps, delims) by {
      forall i | 0 <= i < |ps| ensures Part(ps[i], delims) && Closed(ps[i]) {
        PartFromSource(parts[i], delims);
      }
    }
    hide Parts;
    var pre, d, post :| AllWhitespace(pre) && d in delims && AllWhitespace(post) && sep == pre + [d] + post;
    NothingIsWhitespace();
    SplitJoined(ps, pre, d, post, delims, "");
  }

  lemma PartFromSource(ns: seq<Node>, delims: set<char>)
    requires PlainDelims(delims) && PartSource(ns, delims)
    ensures Part(PrintNodes(ns), delims) && Closed(PrintNodes(ns))
  {
    hide Observe, IsWhitespace, NoSplit, Run, PlainDelims, GoodNodes, NoDelimiters, PrintNodes, Trimmed;
    ReadNodes(ns, INITIAL, delims);
  }
}
