/** Splitting generated TypeScript at top-level delimiters (`ScanState`, `Depth` and
    `split_top_level_multi` in `crates/app-server-protocol/src/export.rs`). */
module Splitter {
  import opened Text

  // ---------------------------------------------------------------- the scanner

  /** Bracket depths and whether the position is inside a string literal. */
  datatype ScanState = ScanState(
    brace: nat, bracket: nat, paren: nat, angle: nat,
    stringDelim: Option<char>, escape: bool)

  const INITIAL := ScanState(0, 0, 0, 0, None, false)

  function Pred(n: nat): nat { if n > 0 then n - 1 else 0 }

  function Observe(s: ScanState, ch: char): ScanState {
    if s.stringDelim.Some? then
      if s.escape then s.(escape := false)
      else if ch == '\\' then s.(escape := true)
      else if ch == s.stringDelim.value then s.(stringDelim := None)
      else s
    else if ch == '\"' || ch == '\'' then s.(stringDelim := Some(ch))
    else if ch == '{' then s.(brace := s.brace + 1)
    else if ch == '}' then s.(brace := Pred(s.brace))
    else if ch == '[' then s.(bracket := s.bracket + 1)
    else if ch == ']' then s.(bracket := Pred(s.bracket))
    else if ch == '(' then s.(paren := s.paren + 1)
    else if ch == ')' then s.(paren := Pred(s.paren))
    else if ch == '<' then s.(angle := s.angle + 1)
    else if ch == '>' then s.(angle := Pred(s.angle))
    else s
  }

  /** Outside strings and all brackets. */
  predicate AtTop(s: ScanState) {
    s.stringDelim.None? && s.brace == 0 && s.bracket == 0 && s.paren == 0 && s.angle == 0
  }

  /** The scanner as the source has it, updated in place. */
  class Scanner {
    var brace: nat
    var bracket: nat
    var paren: nat
    var angle: nat
    var stringDelim: Option<char>
    var escape: bool

    ghost function State(): ScanState
      reads this
    {
      ScanState(brace, bracket, paren, angle, stringDelim, escape)
    }

    constructor ()
      ensures State() == INITIAL
    {
      brace, bracket, paren, angle, stringDelim, escape := 0, 0, 0, 0, None, false;
    }

    method ObserveChar(ch: char)
      modifies this
      ensures State() == Observe(old(State()), ch)
    {
      if stringDelim.Some? {
        if escape {
          escape := false;
          return;
        }
        if ch == '\\' {
          escape := true;
          return;
        }
        if ch == stringDelim.value {
          stringDelim := None;
        }
        return;
      }
      match ch {
        case '\"' => stringDelim := Some(ch);
        case '\'' => stringDelim := Some(ch);
        case '{' => brace := brace + 1;
        case '}' => brace := Pred(brace);
        case '[' => bracket := bracket + 1;
        case ']' => bracket := Pred(bracket);
        case '(' => paren := paren + 1;
        case ')' => paren := Pred(paren);
        case '<' => angle := angle + 1;
        case '>' => if angle > 0 { angle := angle - 1; }
        case _ =>
      }
    }

    predicate IsAtTop()
      reads this
      ensures IsAtTop() <==> AtTop(State())
    {
      stringDelim.None? && brace == 0 && bracket == 0 && paren == 0 && angle == 0
    }
  }

  // ---------------------------------------------------------------- the splitter

  /** A part as it is kept: trimmed, and not at all if nothing is left. */
  function Flush(raw: string): seq<string> {
    if Trim(raw) == "" then [] else [Trim(raw)]
  }

  /** The parts of what remains, when `raw` has been read since the last delimiter. */
  function Scan(input: string, delims: set<char>, state: ScanState, raw: string): seq<string> {
    if input == "" then Flush(raw)
    else
      var next := Observe(state, input[0]);
      if AtTop(state) && input[0] in delims then Flush(raw) + Scan(input[1..], delims, next, "")
      else Scan(input[1..], delims, next, raw + [input[0]])
  }

  function SplitTop(input: string, delims: set<char>): seq<string> {
    Scan(input, delims, INITIAL, "")
  }

  /** `split_top_level_multi`: one pass with the start of the current part. */
  method SplitTopLevelMulti(input: string, delims: set<char>) returns (parts: seq<string>)
    ensures parts == SplitTop(input, delims)
  {
    hide Flush, Observe, AtTop, Scan;
    var scanner := new Scanner();
    var start, index := 0, 0;
    parts := [];
    ghost var goal := SplitTop(input, delims);
    assert input[0..] == input && input[0..0] == "" && [] + goal == goal;
    while index < |input|
      invariant 0 <= start <= index <= |input|
      invariant parts + Scan(input[index..], delims, scanner.State(), input[start..index]) == goal
    {
      var ch := input[index];
      ScanHead(input, delims, scanner.State(), start, index);
      if scanner.IsAtTop() && ch in delims {
        var flushed := KeepPart(input[start..index]);
        Reassociate(parts, flushed, Scan(input[index + 1..], delims, Observe(scanner.State(), ch), ""));
        parts := parts + flushed;
        start := index + 1;
        assert input[start..index + 1] == "";
      }
      scanner.ObserveChar(ch);
      index := index + 1;
    }
    ScanEnd(input, delims, scanner.State(), start);
    var tail := KeepPart(input[start..]);
    parts := parts + tail;
  }

  lemma ScanHead(input: string, delims: set<char>, state: ScanState, start: nat, i: nat)
    requires start <= i < |input|
    ensures var next := Observe(state, input[i]);
            Scan(input[i..], delims, state, input[start..i])
            == if AtTop(state) && input[i] in delims then
                 Flush(input[start..i]) + Scan(input[i + 1..], delims, next, "")
               else Scan(input[i + 1..], delims, next, input[start..i + 1])
  {
    hide AtTop, Observe, Flush;
    var rest := input[i..];
    assert rest[0] == input[i] && rest[1..] == input[i + 1..];
    assert input[start..i] + [input[i]] == input[start..i + 1];
  }

  lemma ScanEnd(input: string, delims: set<char>, state: ScanState, start: nat)
    requires start <= |input|
    ensures Scan(input[|input|..], delims, state, input[start..|input|]) == Flush(input[start..])
  {
    assert input[|input|..] == "" && input[start..|input|] == input[start..];
  }

  method KeepPart(raw: string) returns (kept: seq<string>)
    ensures kept == Flush(raw)
  {
    var part := Trim(raw);
    if part != "" {
      return [part];
    }
    return [];
  }

  // ---------------------------------------------------------------- runs of the scanner

  function Run(s: ScanState, text: string): ScanState
    decreases |text|
  {
    if text == "" then s else Run(Observe(s, text[0]), text[1..])
  }

  /** Reading `text` from `s` meets no delimiter at top level. */
  predicate NoSplit(s: ScanState, text: string, delims: set<char>)
    decreases |text|
  {
    text != "" ==>
      !(AtTop(s) && text[0] in delims) && NoSplit(Observe(s, text[0]), text[1..], delims)
  }

  lemma {:induction false} RunConcat(s: ScanState, a: string, b: string, delims: set<char>)
    ensures Run(s, a + b) == Run(Run(s, a), b)
    ensures NoSplit(s, a + b, delims) <==> NoSplit(s, a, delims) && NoSplit(Run(s, a), b, delims)
    decreases |a|
  {
    hide Observe, AtTop;
    if a == "" {
      assert a + b == b;
    } else {
      assert (a + b)[0] == a[0] && (a + b)[1..] == a[1..] + b;
      RunConcat(Observe(s, a[0]), a[1..], b, delims);
    }
  }

  /** An escape is pending only inside a string, and a string is delimited by a quote. */
  predicate Sane(s: ScanState) {
    match s.stringDelim
    case None => !s.escape
    case Some(delim) => delim == '\"' || delim == '\''
  }

  lemma ObserveSane(s: ScanState, ch: char)
    requires Sane(s)
    ensures Sane(Observe(s, ch))
  {
  }

  lemma {:induction false} RunSane(s: ScanState, text: string)
    requires Sane(s)
    ensures Sane(Run(s, text))
    decreases |text|
  {
    hide Observe, Sane;
    if text != "" {
      ObserveSane(s, text[0]);
      RunSane(Observe(s, text[0]), text[1..]);
    }
  }

  /** At a split point the scanner is back in its initial state. */
  lemma TopIsInitial(s: ScanState)
    requires Sane(s) && AtTop(s)
    ensures s == INITIAL
  {
  }

  lemma WhitespaceIsNeutral(s: ScanState, ch: char)
    requires IsWhitespace(ch)
    ensures s == INITIAL ==> Observe(s, ch) == s
    ensures Sane(s) && Observe(s, ch) == INITIAL ==> s == INITIAL
  {
  }

  lemma {:induction false} RunWhitespace(s: ScanState, w: string)
    requires AllWhitespace(w) && Sane(s)
    ensures s == INITIAL ==> Run(s, w) == INITIAL
    ensures Run(s, w) == INITIAL ==> s == INITIAL
    decreases |w|
  {
    hide Observe, IsWhitespace, Sane;
    if w != "" {
      WhitespaceIsNeutral(s, w[0]);
      ObserveSane(s, w[0]);
      RunWhitespace(Observe(s, w[0]), w[1..]);
    }
  }

  // ---------------------------------------------------------------- what the parts are

  /** Delimiters that are plain text to the scanner and not white space. */
  predicate PlainDelims(delims: set<char>) {
    forall d :: d in delims ==>
      d !in {'\"', '\'', '{', '}', '[', ']', '(', ')', '<', '>'} && !IsWhitespace(d)
  }

  /** Read on its own, the part is one part. */
  predicate Part(p: string, delims: set<char>) {
    p != "" && Trimmed(p) && NoSplit(INITIAL, p, delims)
  }

  /** And after it the scanner is where it started. */
  predicate Closed(p: string) {
    Run(INITIAL, p) == INITIAL
  }

  /** A list that a split can produce: only the last part may be left open. */
  predicate Parts(ps: seq<string>, delims: set<char>) {
    forall i :: 0 <= i < |ps| ==> Part(ps[i], delims) && (i < |ps| - 1 ==> Closed(ps[i]))
  }

  lemma {:induction false} FlushedPart(raw: string, delims: set<char>)
    requires NoSplit(INITIAL, raw, delims) && Trim(raw) != ""
    ensures Part(Trim(raw), delims)
    ensures Run(INITIAL, raw) == INITIAL ==> Closed(Trim(raw))
  {
    hide Trim, Observe, IsWhitespace, AtTop, NoSplit, Run;
    var pre, post := TrimParts(raw);
    var t := Trim(raw);
    Reassociate(pre, t, post);
    RunConcat(INITIAL, pre, t + post, delims);
    RunWhitespace(INITIAL, pre);
    RunConcat(INITIAL, t, post, delims);
    RunSane(INITIAL, t);
    RunWhitespace(Run(INITIAL, t), post);
  }

  lemma DelimKeepsInitial(d: char, delims: set<char>)
    requires PlainDelims(delims) && d in delims
    ensures Observe(INITIAL, d) == INITIAL
  {
  }

  /** Every result of the splitter is such a list. */
  lemma {:induction false} ScanYieldsParts(input: string, delims: set<char>, raw: string)
    requires PlainDelims(delims) && NoSplit(INITIAL, raw, delims)
    ensures Parts(Scan(input, delims, Run(INITIAL, raw), raw), delims)
    decreases |input|
  {
    hide Trim, Observe, IsWhitespace, AtTop, NoSplit, Run, PlainDelims, Part, Closed;
    var state := Run(INITIAL, raw);
    if input == "" {
      if Trim(raw) != "" { FlushedPart(raw, delims); }
    } else {
      var d := input[0];
      RunSane(INITIAL, raw);
      ReadOne(INITIAL, raw, d, delims);
      if AtTop(state) && d in delims {
        TopIsInitial(state);
        DelimKeepsInitial(d, delims);
        NoneRead(delims);
        ScanYieldsParts(input[1..], delims, "");
        var rest := Scan(input[1..], delims, INITIAL, "");
        if Trim(raw) == "" {
          assert [] + rest == rest;
        } else {
          FlushedPart(raw, delims);
        }
      } else {
        ScanYieldsParts(input[1..], delims, raw + [d]);
      }
    }
  }

  lemma NoneRead(delims: set<char>)
    ensures Run(INITIAL, "") == INITIAL && NoSplit(INITIAL, "", delims)
  {
  }

  lemma {:induction false} ReadOne(s: ScanState, raw: string, d: char, delims: set<char>)
    ensures Run(s, raw + [d]) == Observe(Run(s, raw), d)
    ensures NoSplit(s, raw, delims) && !(AtTop(Run(s, raw)) && d in delims) ==> NoSplit(s, raw + [d], delims)
  {
    hide Observe, AtTop;
    RunConcat(s, raw, [d], delims);
    assert [d][1..] == "";
    assert Run(Run(s, raw), [d]) == Run(Observe(Run(s, raw), d), "");
  }

  // ---------------------------------------------------------------- splitting a joined list

  /** Reading text without a split only lengthens the current part. */
  lemma {:induction false} ScanThrough(text: string, rest: string, delims: set<char>, s: ScanState, raw: string)
    requires NoSplit(s, text, delims)
    ensures Scan(text + rest, delims, s, raw) == Scan(rest, delims, Run(s, text), raw + text)
    decreases |text|
  {
    hide Observe, AtTop, Flush;
    if text == "" {
      assert text + rest == rest && raw + text == raw;
    } else {
      assert (text + rest)[0] == text[0] && (text + rest)[1..] == text[1..] + rest;
      ScanThrough(text[1..], rest, delims, Observe(s, text[0]), raw + [text[0]]);
      Reassociate(raw, [text[0]], text[1..]);
      assert [text[0]] + text[1..] == text;
    }
  }

  lemma {:induction false} WhitespaceDoesNotSplit(w: string, delims: set<char>)
    requires PlainDelims(delims) && AllWhitespace(w)
    ensures NoSplit(INITIAL, w, delims) && Run(INITIAL, w) == INITIAL
    decreases |w|
  {
    hide Observe, AtTop, IsWhitespace;
    if w != "" {
      WhitespaceIsNeutral(INITIAL, w[0]);
      assert IsWhitespace(w[0]);
      WhitespaceDoesNotSplit(w[1..], delims);
    }
  }

  /** What joins two parts: a delimiter with white space around it. */
  ghost predicate Separator(sep: string, delims: set<char>) {
    exists pre, d, post :: AllWhitespace(pre) && d in delims && AllWhitespace(post) && sep == pre + [d] + post
  }

  lemma {:induction false} FlushPadded(pre: string, p: string, post: string)
    requires AllWhitespace(pre) && AllWhitespace(post) && p != "" && Trimmed(p)
    ensures Flush(pre + p + post) == [p]
  {
    hide Trim, IsWhitespace, AllWhitespace, Trimmed;
    TrimUnique(pre, p, post);
  }

  /** One part and the separator after it, when only white space `w` has been read before. */
  lemma {:induction false} ScanOnePart(w: string, p: string, pre: string, d: char, rest: string, delims: set<char>)
    requires PlainDelims(delims) && AllWhitespace(w) && AllWhitespace(pre) && d in delims
    requires Part(p, delims) && Closed(p)
    ensures Scan(p + (pre + ([d] + rest)), delims, INITIAL, w) == [p] + Scan(rest, delims, INITIAL, "")
  {
    hide Observe, IsWhitespace, AllWhitespace, Trimmed, NoSplit, Run, Flush, PlainDelims;
    ScanThrough(p, pre + ([d] + rest), delims, INITIAL, w);
    WhitespaceDoesNotSplit(pre, delims);
    ScanThrough(pre, [d] + rest, delims, INITIAL, w + p);
    FlushPadded(w, p, pre);
    DelimKeepsInitial(d, delims);
    assert ([d] + rest)[1..] == rest;
  }

  lemma {:induction false} SplitJoined(
      ps: seq<string>, pre: string, d: char, post: string, delims: set<char>, w: string)
    requires PlainDelims(delims) && AllWhitespace(pre) && d in delims && AllWhitespace(post) && AllWhitespace(w)
    requires Parts(ps, delims)
    ensures Scan(Join(ps, pre + [d] + post), delims, INITIAL, w) == ps
    decreases |ps|
  {
    hide Observe, IsWhitespace, AllWhitespace, Trimmed, NoSplit, Run, PlainDelims, Part, Closed, Trim;
    if ps == [] {
      FlushNothing(w);
    } else if |ps| == 1 {
      LastPart(w, ps[0], delims);
    } else {
      var sep := pre + [d] + post;
      var rest := Join(ps[1..], sep);
      assert Part(ps[0], delims) && Closed(ps[0]);
      assert Join(ps, sep) == ps[0] + (pre + ([d] + (post + rest)));
      ScanOnePart(w, ps[0], pre, d, post + rest, delims);
      WhitespaceDoesNotSplit(post, delims);
      ScanThrough(post, rest, delims, INITIAL, "");
      assert "" + post == post;
      SplitJoined(ps[1..], pre, d, post, delims, post);
      assert [ps[0]] + ps[1..] == ps;
    }
  }

  lemma FlushNothing(w: string)
    requires AllWhitespace(w)
    ensures Flush(w) == []
  {
    hide IsWhitespace, Trim;
    TrimUnique(w, "", "");
    assert w + "" + "" == w;
  }

  lemma {:induction false} LastPart(w: string, p: string, delims: set<char>)
    requires AllWhitespace(w) && Part(p, delims)
    ensures Scan(p, delims, INITIAL, w) == [p]
  {
    hide Observe, IsWhitespace, AllWhitespace, Trimmed, Run, Flush, NoSplit;
    ScanThrough(p, "", delims, INITIAL, w);
    assert p + "" == p && w + p + "" == w + p;
    NothingIsWhitespace();
    FlushPadded(w, p, "");
  }

  // ---------------------------------------------------------------- filtering

  function Filter(ps: seq<string>, keep: string -> bool): seq<string> {
    if ps == [] then [] else (if keep(ps[0]) then [ps[0]] else []) + Filter(ps[1..], keep)
  }

  lemma {:induction false} FilterKeepsParts(ps: seq<string>, keep: string -> bool, delims: set<char>)
    requires Parts(ps, delims)
    ensures Parts(Filter(ps, keep), delims)
    ensures Filter(ps, keep) != [] ==> ps != []
    decreases |ps|
  {
    hide Part, Closed;
    if ps != [] {
      var rest := Filter(ps[1..], keep);
      FilterKeepsParts(ps[1..], keep, delims);
      if !keep(ps[0]) {
        assert [] + rest == rest;
      } else if |ps| == 1 {
        assert rest == [];
        assert Part(ps[0], delims);
      } else {
        assert Part(ps[0], delims) && Closed(ps[0]);
      }
    }
  }

  /** For every text and every filter: what is kept, joined again, splits into exactly what
      was kept. */
  lemma {:induction false} FilterSurvivesReparse(input: string, delims: set<char>, keep: string -> bool, sep: string)
    requires PlainDelims(delims) && Separator(sep, delims)
    ensures var kept := Filter(SplitTop(input, delims), keep);
            SplitTop(Join(kept, sep), delims) == kept
  {
    hide Observe, IsWhitespace, AllWhitespace, NoSplit, Run, PlainDelims, Part, Closed, Scan, Join;
    NoneRead(delims);
    ScanYieldsParts(input, delims, "");
    FilterKeepsParts(SplitTop(input, delims), keep, delims);
    var pre, d, post :| AllWhitespace(pre) && d in delims && AllWhitespace(post) && sep == pre + [d] + post;
    NothingIsWhitespace();
    SplitJoined(Filter(SplitTop(input, delims), keep), pre, d, post, delims, "");
  }

  /** The two uses: union arms joined by ` | ` and fields joined by `, `. */
  lemma FilteredExportsReparse(body: string, keep: string -> bool)
    ensures var arms := Filter(SplitTop(body, {'|'}), keep);
            SplitTop(Join(arms, " | "), {'|'}) == arms
    ensures var fields := Filter(SplitTop(body, {',', ';'}), keep);
            SplitTop(Join(fields, ", "), {',', ';'}) == fields
  {
    hide SplitTop, Join, Filter;
    assert Separator(" | ", {'|'}) by {
      assert AllWhitespace(" ") && " | " == " " + ['|'] + " ";
    }
    assert Separator(", ", {',', ';'}) by {
      assert AllWhitespace("") && AllWhitespace(" ") && ", " == "" + [','] + " ";
    }
    FilterSurvivesReparse(body, {'|'}, keep, " | ");
    FilterSurvivesReparse(body, {',', ';'}, keep, ", ");
  }
}
