/** Locating a block of lines in a file with decreasing strictness
    (`crates/apply-patch/src/seek_sequence.rs`). */
module Seek {
  import opened Text

  /** How two lines are compared; the order of the constructors is the order in which the
      locator tries them. */
  datatype Tier = Exact | IgnoreTrailing | IgnoreEnds | Normalised {
    function Rank(): nat {
      match this
      case Exact => 0
      case IgnoreTrailing => 1
      case IgnoreEnds => 2
      case Normalised => 3
    }
  }

  /** Typographic dashes, quotes and spaces become their ASCII counterparts. */
  function NormaliseChar(c: char): char {
    if '\U{2010}' <= c <= '\U{2015}' || c == '\U{2212}' then '-'
    else if '\U{2018}' <= c <= '\U{201B}' then '\''
    else if '\U{201C}' <= c <= '\U{201F}' then '\"'
    else if c == '\U{00A0}' || '\U{2002}' <= c <= '\U{200A}' || c == '\U{202F}'
            || c == '\U{205F}' || c == '\U{3000}' then ' '
    else c
  }

  function NormaliseChars(s: string): string {
    if s == "" then "" else [NormaliseChar(s[0])] + NormaliseChars(s[1..])
  }

  function Normalise(s: string): string {
    NormaliseChars(Trim(s))
  }

  predicate LineMatches(tier: Tier, line: string, pat: string) {
    match tier
    case Exact => line == pat
    case IgnoreTrailing => TrimEnd(line) == TrimEnd(pat)
    case IgnoreEnds => Trim(line) == Trim(pat)
    case Normalised => Normalise(line) == Normalise(pat)
  }

  predicate MatchAt(tier: Tier, lines: seq<string>, pattern: seq<string>, i: nat) {
    && i + |pattern| <= |lines|
    && forall k :: 0 <= k < |pattern| ==> LineMatches(tier, lines[i + k], pattern[k])
  }

  /** The least index in `[lo, hi)` at which `pattern` matches in `tier`. */
  function FirstMatch(tier: Tier, lines: seq<string>, pattern: seq<string>, lo: nat, hi: nat): Option<nat>
    decreases hi - lo
  {
    if lo >= hi then None
    else if MatchAt(tier, lines, pattern, lo) then Some(lo)
    else FirstMatch(tier, lines, pattern, lo + 1, hi)
  }

  lemma {:induction false} FirstMatchIsLeast(tier: Tier, lines: seq<string>, pattern: seq<string>, lo: nat, hi: nat)
    ensures var r := FirstMatch(tier, lines, pattern, lo, hi);
            && (r.Some? ==>
                  && lo <= r.value < hi && MatchAt(tier, lines, pattern, r.value)
                  && forall j :: lo <= j < r.value ==> !MatchAt(tier, lines, pattern, j))
            && (r.None? ==> forall j :: lo <= j < hi ==> !MatchAt(tier, lines, pattern, j))
    decreases hi - lo
  {
    hide LineMatches;
    if lo < hi && !MatchAt(tier, lines, pattern, lo) {
      FirstMatchIsLeast(tier, lines, pattern, lo + 1, hi);
    }
  }

  function OrElse(r: Option<nat>, other: Option<nat>): Option<nat> {
    if r.Some? then r else other
  }

  /** Where the search begins: at the only place a file-ending block can be, or at `start`.
      `start` is never tried for a file-ending block. */
  function SearchStart(lines: seq<string>, pattern: seq<string>, start: nat, eof: bool): nat
    requires |pattern| <= |lines|
  {
    if eof then |lines| - |pattern| else start
  }

  /** The locator's value, tier after tier. */
  function Seek(lines: seq<string>, pattern: seq<string>, start: nat, eof: bool): Option<nat> {
    if pattern == [] then Some(start)
    else if |pattern| > |lines| then None
    else
      var lo, hi := SearchStart(lines, pattern, start, eof), |lines| - |pattern| + 1;
      OrElse(FirstMatch(Exact, lines, pattern, lo, hi),
             OrElse(FirstMatch(IgnoreTrailing, lines, pattern, lo, hi),
                    OrElse(FirstMatch(IgnoreEnds, lines, pattern, lo, hi),
                           FirstMatch(Normalised, lines, pattern, lo, hi))))
  }

  // ---------------------------------------------------------------- the search loops

  /** The first loop compares whole slices. */
  method ScanExact(lines: seq<string>, pattern: seq<string>, lo: nat) returns (r: Option<nat>)
    requires |pattern| <= |lines|
    ensures r == FirstMatch(Exact, lines, pattern, lo, |lines| - |pattern| + 1)
  {
    hide MatchAt;
    var i := lo;
    while i <= |lines| - |pattern|
      invariant lo <= i
      invariant FirstMatch(Exact, lines, pattern, lo, |lines| - |pattern| + 1)
             == FirstMatch(Exact, lines, pattern, i, |lines| - |pattern| + 1)
    {
      SliceEquality(lines, pattern, i);
      if lines[i..i + |pattern|] == pattern {
        return Some(i);
      }
      i := i + 1;
    }
    return None;
  }

  lemma SliceEquality(lines: seq<string>, pattern: seq<string>, i: nat)
    requires i + |pattern| <= |lines|
    ensures lines[i..i + |pattern|] == pattern <==> MatchAt(Exact, lines, pattern, i)
  {
    if MatchAt(Exact, lines, pattern, i) {
      assert lines[i..i + |pattern|] == pattern;
    } else {
      var k :| 0 <= k < |pattern| && !LineMatches(Exact, lines[i + k], pattern[k]);
      assert lines[i..i + |pattern|][k] != pattern[k];
    }
  }

  /** The inner loop: line by line, stopping at the first difference. */
  method CompareAt(tier: Tier, lines: seq<string>, pattern: seq<string>, i: nat) returns (ok: bool)
    requires i + |pattern| <= |lines|
    ensures ok == MatchAt(tier, lines, pattern, i)
  {
    ok := true;
    for k := 0 to |pattern|
      invariant forall j :: 0 <= j < k ==> LineMatches(tier, lines[i + j], pattern[j])
    {
      if !LineMatches(tier, lines[i + k], pattern[k]) {
        return false;
      }
    }
  }

  /** The other three loops. */
  method ScanTier(tier: Tier, lines: seq<string>, pattern: seq<string>, lo: nat) returns (r: Option<nat>)
    requires |pattern| <= |lines|
    ensures r == FirstMatch(tier, lines, pattern, lo, |lines| - |pattern| + 1)
  {
    hide MatchAt;
    var i := lo;
    while i <= |lines| - |pattern|
      invariant lo <= i
      invariant FirstMatch(tier, lines, pattern, lo, |lines| - |pattern| + 1)
             == FirstMatch(tier, lines, pattern, i, |lines| - |pattern| + 1)
    {
      var ok := CompareAt(tier, lines, pattern, i);
      if ok {
        return Some(i);
      }
      i := i + 1;
    }
    return None;
  }

  method SeekSequence(lines: seq<string>, pattern: seq<string>, start: nat, eof: bool) returns (r: Option<nat>)
    ensures r == Seek(lines, pattern, start, eof)
  {
    if pattern == [] {
      return Some(start);
    }
    if |pattern| > |lines| {
      return None;
    }
    var lo := SearchStart(lines, pattern, start, eof);
    r := ScanExact(lines, pattern, lo);
    if r.Some? { return; }
    r := ScanTier(IgnoreTrailing, lines, pattern, lo);
    if r.Some? { return; }
    r := ScanTier(IgnoreEnds, lines, pattern, lo);
    if r.Some? { return; }
    r := ScanTier(Normalised, lines, pattern, lo);
  }

  // ---------------------------------------------------------------- what the locator finds

  predicate InRange(lines: seq<string>, pattern: seq<string>, start: nat, eof: bool, i: nat) {
    if eof then i + |pattern| == |lines| else start <= i && i + |pattern| <= |lines|
  }

  ghost predicate HasMatch(tier: Tier, lines: seq<string>, pattern: seq<string>, start: nat, eof: bool) {
    exists i: nat :: InRange(lines, pattern, start, eof, i) && MatchAt(tier, lines, pattern, i)
  }

  /** `k` is the least match of the strictest tier that has one. */
  ghost predicate BestMatch(lines: seq<string>, pattern: seq<string>, start: nat, eof: bool, tier: Tier, k: nat) {
    && InRange(lines, pattern, start, eof, k)
    && MatchAt(tier, lines, pattern, k)
    && (forall j: nat :: InRange(lines, pattern, start, eof, j) && j < k ==> !MatchAt(tier, lines, pattern, j))
    && (forall t: Tier :: t.Rank() < tier.Rank() ==> !HasMatch(t, lines, pattern, start, eof))
  }

  /** The locator's contract, free of the order in which it searches. */
  ghost predicate Located(lines: seq<string>, pattern: seq<string>, start: nat, eof: bool, r: Option<nat>) {
    match r
    case Some(k) => exists tier :: BestMatch(lines, pattern, start, eof, tier, k)
    case None => !HasMatch(Normalised, lines, pattern, start, eof)
  }

  /** A match in one tier is a match in every more permissive tier. */
  lemma TiersNested(s: Tier, t: Tier, lines: seq<string>, pattern: seq<string>, i: nat)
    requires s.Rank() <= t.Rank()
    requires MatchAt(s, lines, pattern, i)
    ensures MatchAt(t, lines, pattern, i)
  {
    forall k | 0 <= k < |pattern| ensures LineMatches(t, lines[i + k], pattern[k]) {
      assert LineMatches(s, lines[i + k], pattern[k]);
    }
  }

  lemma FirstMatchHas(tier: Tier, lines: seq<string>, pattern: seq<string>, start: nat, eof: bool)
    requires 0 < |pattern| <= |lines|
    ensures var lo := SearchStart(lines, pattern, start, eof);
            FirstMatch(tier, lines, pattern, lo, |lines| - |pattern| + 1).Some?
            <==> HasMatch(tier, lines, pattern, start, eof)
  {
    var lo, hi := SearchStart(lines, pattern, start, eof), |lines| - |pattern| + 1;
    var r := FirstMatch(tier, lines, pattern, lo, hi);
    FirstMatchIsLeast(tier, lines, pattern, lo, hi);
    if r.Some? {
      assert InRange(lines, pattern, start, eof, r.value);
    } else {
      forall i: nat | InRange(lines, pattern, start, eof, i) ensures !MatchAt(tier, lines, pattern, i) {
        assert lo <= i < hi;
      }
    }
  }

  /** The tier that answers, when one does: stricter tiers had no match at all. */
  lemma AnsweringTier(lines: seq<string>, pattern: seq<string>, start: nat, eof: bool) returns (tier: Tier)
    requires 0 < |pattern| <= |lines|
    ensures var lo, hi := SearchStart(lines, pattern, start, eof), |lines| - |pattern| + 1;
            && Seek(lines, pattern, start, eof) == FirstMatch(tier, lines, pattern, lo, hi)
            && (forall t: Tier :: t.Rank() < tier.Rank() ==> FirstMatch(t, lines, pattern, lo, hi).None?)
            && (Seek(lines, pattern, start, eof).None? ==> tier == Normalised)
  {
    var lo, hi := SearchStart(lines, pattern, start, eof), |lines| - |pattern| + 1;
    var exact, trailing, ends, loose :=
      FirstMatch(Exact, lines, pattern, lo, hi), FirstMatch(IgnoreTrailing, lines, pattern, lo, hi),
      FirstMatch(IgnoreEnds, lines, pattern, lo, hi), FirstMatch(Normalised, lines, pattern, lo, hi);
    assert Seek(lines, pattern, start, eof) == OrElse(exact, OrElse(trailing, OrElse(ends, loose)));
    tier := if exact.Some? then Exact else if trailing.Some? then IgnoreTrailing
            else if ends.Some? then IgnoreEnds else Normalised;
    forall t: Tier | t.Rank() < tier.Rank() ensures FirstMatch(t, lines, pattern, lo, hi).None? {
      match t
      case Exact => assert exact.None?;
      case IgnoreTrailing => assert trailing.None?;
      case IgnoreEnds => assert ends.None?;
      case Normalised =>
    }
  }

  lemma NoMatchBelow(tier: Tier, lines: seq<string>, pattern: seq<string>, start: nat, eof: bool)
    requires 0 < |pattern| <= |lines|
    requires forall t: Tier :: t.Rank() < tier.Rank() ==>
      FirstMatch(t, lines, pattern, SearchStart(lines, pattern, start, eof), |lines| - |pattern| + 1).None?
    ensures forall t: Tier :: t.Rank() < tier.Rank() ==> !HasMatch(t, lines, pattern, start, eof)
  {
    forall t: Tier | t.Rank() < tier.Rank() ensures !HasMatch(t, lines, pattern, start, eof) {
      FirstMatchHas(t, lines, pattern, start, eof);
    }
  }

  lemma FirstMatchIsBest(tier: Tier, lines: seq<string>, pattern: seq<string>, start: nat, eof: bool)
    requires 0 < |pattern| <= |lines|
    requires FirstMatch(tier, lines, pattern, SearchStart(lines, pattern, start, eof), |lines| - |pattern| + 1).Some?
    requires forall t: Tier :: t.Rank() < tier.Rank() ==> !HasMatch(t, lines, pattern, start, eof)
    ensures var r := FirstMatch(tier, lines, pattern, SearchStart(lines, pattern, start, eof), |lines| - |pattern| + 1);
            BestMatch(lines, pattern, start, eof, tier, r.value)
  {
    FirstMatchIsLeast(tier, lines, pattern, SearchStart(lines, pattern, start, eof), |lines| - |pattern| + 1);
  }

  /** `Seek` meets its contract; in particular it succeeds exactly when the most permissive
      tier has a match anywhere in the search range. */
  lemma SeekIsLocated(lines: seq<string>, pattern: seq<string>, start: nat, eof: bool)
    ensures pattern == [] ==> Seek(lines, pattern, start, eof) == Some(start)
    ensures pattern != [] ==> Located(lines, pattern, start, eof, Seek(lines, pattern, start, eof))
    ensures pattern != [] ==>
      (Seek(lines, pattern, start, eof).Some? <==> HasMatch(Normalised, lines, pattern, start, eof))
  {
    if pattern != [] && |pattern| <= |lines| {
      var tier := AnsweringTier(lines, pattern, start, eof);
      var r := Seek(lines, pattern, start, eof);
      if r.Some? {
        NoMatchBelow(tier, lines, pattern, start, eof);
        FirstMatchIsBest(tier, lines, pattern, start, eof);
        TiersNested(tier, Normalised, lines, pattern, r.value);
      } else {
        FirstMatchHas(Normalised, lines, pattern, start, eof);
      }
    }
  }

  /** Every result is in bounds, whatever the pattern, when `start` is. */
  lemma SeekInBounds(lines: seq<string>, pattern: seq<string>, start: nat, eof: bool)
    requires start <= |lines|
    ensures var r := Seek(lines, pattern, start, eof);
            r.Some? ==> r.value + |pattern| <= |lines| && (!eof ==> start <= r.value)
  {
    hide MatchAt, FirstMatch;
    if 0 < |pattern| <= |lines| {
      var tier := AnsweringTier(lines, pattern, start, eof);
      FirstMatchIsLeast(tier, lines, pattern, SearchStart(lines, pattern, start, eof), |lines| - |pattern| + 1);
    }
  }

  // ---------------------------------------------------------------- what counts as the same typography

  const DASHES: set<char> := {
    '-', '\U{2010}', '\U{2011}', '\U{2012}', '\U{2013}', '\U{2014}', '\U{2015}', '\U{2212}'
  }

  const SINGLE_QUOTES: set<char> := {'\'', '\U{2018}', '\U{2019}', '\U{201A}', '\U{201B}'}

  const DOUBLE_QUOTES: set<char> := {'\"', '\U{201C}', '\U{201D}', '\U{201E}', '\U{201F}'}

  const SPACES: set<char> := {
    ' ', '\U{00A0}', '\U{2002}', '\U{2003}', '\U{2004}', '\U{2005}', '\U{2006}', '\U{2007}', '\U{2008}',
    '\U{2009}', '\U{200A}', '\U{202F}', '\U{205F}', '\U{3000}'
  }

  /** The same character, or two dashes, two quotes of one kind, or two spaces. */
  predicate SameClass(a: char, b: char) {
    || a == b
    || (a in DASHES && b in DASHES)
    || (a in SINGLE_QUOTES && b in SINGLE_QUOTES)
    || (a in DOUBLE_QUOTES && b in DOUBLE_QUOTES)
    || (a in SPACES && b in SPACES)
  }

  lemma NormaliseCharExactly(a: char, b: char)
    ensures NormaliseChar(a) == NormaliseChar(b) <==> SameClass(a, b)
  {
    ClassOf(a);
    ClassOf(b);
  }

  /** Every class goes to its ASCII member, and everything else stays. */
  lemma ClassOf(c: char)
    ensures c in DASHES ==> NormaliseChar(c) == '-'
    ensures c in SINGLE_QUOTES ==> NormaliseChar(c) == '\''
    ensures c in DOUBLE_QUOTES ==> NormaliseChar(c) == '\"'
    ensures c in SPACES ==> NormaliseChar(c) == ' '
    ensures c !in DASHES && c !in SINGLE_QUOTES && c !in DOUBLE_QUOTES && c !in SPACES ==> NormaliseChar(c) == c
  {
    RangeMembers(c);
  }

  /** The ranges, one character after the other. */
  lemma RangeMembers(c: char)
    ensures '\U{2010}' <= c <= '\U{2015}' ==> c in DASHES
    ensures '\U{2018}' <= c <= '\U{201B}' ==> c in SINGLE_QUOTES
    ensures '\U{201C}' <= c <= '\U{201F}' ==> c in DOUBLE_QUOTES
    ensures '\U{2002}' <= c <= '\U{200A}' ==> c in SPACES
  {
  }

  lemma {:induction false} NormaliseCharsAt(s: string, i: nat)
    requires i < |s|
    ensures |NormaliseChars(s)| == |s| && NormaliseChars(s)[i] == NormaliseChar(s[i])
    decreases |s|
  {
    hide NormaliseChar;
    if |s| > 1 { NormaliseCharsAt(s[1..], if i > 0 then i - 1 else 0); }
  }

  /** Two lines match most permissively exactly when, with white space off their ends, they are
      of one length and agree character by character up to typography. */
  lemma {:induction false} NormalisedExactly(a: string, b: string)
    ensures LineMatches(Normalised, a, b) <==>
      var s, t := Trim(a), Trim(b);
      |s| == |t| && forall i :: 0 <= i < |s| ==> SameClass(s[i], t[i])
  {
    hide Trim, NormaliseChar, SameClass, NormaliseChars;
    var s, t := Trim(a), Trim(b);
    NormalisedLength(s);
    NormalisedLength(t);
    forall i | 0 <= i < |s| && |s| == |t|
      ensures NormaliseChars(s)[i] == NormaliseChars(t)[i] <==> SameClass(s[i], t[i])
    {
      NormaliseCharsAt(s, i);
      NormaliseCharsAt(t, i);
      NormaliseCharExactly(s[i], t[i]);
    }
    if LineMatches(Normalised, a, b) {
      forall i | 0 <= i < |s| ensures SameClass(s[i], t[i]) {
        assert NormaliseChars(s)[i] == NormaliseChars(t)[i];
      }
    }
  }

  lemma NormalisedLength(s: string)
    ensures |NormaliseChars(s)| == |s|
  {
    if s != "" { NormaliseCharsAt(s, 0); }
  }

  /** A line of one character that is no white space. */
  lemma {:induction false} OneCharacter(c: char, d: char)
    requires !IsWhitespace(c) && !IsWhitespace(d) && c != d
    ensures SameClass(c, d) ==> Seek([[c]], [[d]], 0, false) == Some(0)
    ensures !SameClass(c, d) ==> Seek([[c]], [[d]], 0, false) == None
  {
    hide IsWhitespace, SameClass, NormaliseChars, Trim, TrimEnd;
    TrimIdentity([c]);
    TrimIdentity([d]);
    NormalisedExactly([c], [d]);
    var lines, pattern := [[c]], [[d]];
    assert lines[0 + 0] == [c] && pattern[0] == [d];
    SeekIsLocated(lines, pattern, 0, false);
    if SameClass(c, d) {
      assert LineMatches(Normalised, [c], [d]);
      assert MatchAt(Normalised, lines, pattern, 0);
      assert InRange(lines, pattern, 0, false, 0);
      SeekInBounds(lines, pattern, 0, false);
    } else {
      assert !MatchAt(Normalised, lines, pattern, 0);
    }
  }

  /** A typographic dash or quote is found by its ASCII form, a space by a no-break space. */
  lemma TypographyIsFound()
    ensures Seek(["\U{2013}"], ["-"], 0, false) == Some(0)
    ensures Seek(["\U{2019}"], ["'"], 0, false) == Some(0)
    ensures Seek(["\U{201C}"], ["\""], 0, false) == Some(0)
    ensures Seek(["a b"], ["a\U{00A0}b"], 0, false) == Some(0)
    ensures Seek(["-"], ["'"], 0, false) == None
  {
    hide Seek;
    OneCharacter('\U{2013}', '-');
    OneCharacter('\U{2019}', '\'');
    OneCharacter('\U{201C}', '\"');
    OneCharacter('-', '\'');
    SpaceIsFound();
  }

  lemma {:induction false} SpaceIsFound()
    ensures Seek(["a b"], ["a\U{00A0}b"], 0, false) == Some(0)
  {
    var a, b := "a b", "a\U{00A0}b";
    TrimIdentity(a);
    TrimIdentity(b);
    hide Trim, NormaliseChars, TrimEnd, IsWhitespace;
    NormalisedExactly(a, b);
    assert |a| == 3 && a[0] == b[0] && a[1] == ' ' && b[1] == '\U{00A0}' && a[2] == b[2];
    assert LineMatches(Normalised, a, b);
    assert [a][0 + 0] == a && [b][0] == b;
    assert MatchAt(Normalised, [a], [b], 0);
    assert InRange([a], [b], 0, false, 0);
    SeekIsLocated([a], [b], 0, false);
    SeekInBounds([a], [b], 0, false);
  }

  // ---------------------------------------------------------------- the documented fallback

  /** A file-ending block as documented: at the end of the file or, failing that, from `start` on. */
  function WithFallback(lines: seq<string>, pattern: seq<string>, start: nat): Option<nat> {
    OrElse(Seek(lines, pattern, start, true), Seek(lines, pattern, start, false))
  }

  /** The code never falls back, which makes no difference exactly when the block is at the end
      or nowhere from `start` on. */
  lemma FallbackExactly(lines: seq<string>, pattern: seq<string>, start: nat)
    requires pattern != []
    ensures Seek(lines, pattern, start, true) == WithFallback(lines, pattern, start)
       <==> HasMatch(Normalised, lines, pattern, start, true) || !HasMatch(Normalised, lines, pattern, start, false)
  {
    hide Seek, HasMatch, Located;
    SeekIsLocated(lines, pattern, start, true);
    SeekIsLocated(lines, pattern, start, false);
  }

  /** A block marked as file-ending that is the first line is not found. */
  lemma NoFallback()
    ensures Seek(["a", "b"], ["a"], 0, true) == None
    ensures WithFallback(["a", "b"], ["a"], 0) == Some(0)
  {
    hide HasMatch, Located;
    var lines, pattern := ["a", "b"], ["a"];
    SeekIsLocated(lines, pattern, 0, true);
    assert MatchAt(Exact, lines, pattern, 0);
    assert FirstMatch(Exact, lines, pattern, 0, 2) == Some(0);
    assert !HasMatch(Normalised, lines, pattern, 0, true) by { NotLast(lines, pattern); }
  }

  lemma NotLast(lines: seq<string>, pattern: seq<string>)
    requires lines == ["a", "b"] && pattern == ["a"]
    ensures !HasMatch(Normalised, lines, pattern, 0, true)
  {
    hide Trim;
    TrimIdentity("a");
    TrimIdentity("b");
    assert NormaliseChars("a")[0] == 'a' && NormaliseChars("b")[0] == 'b';
    assert !LineMatches(Normalised, lines[1 + 0], pattern[0]);
  }
}
