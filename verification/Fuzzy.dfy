/** The case-insensitive subsequence matcher (`crates/common/src/fuzzy_match.rs`). How a character
    and how a whole string are lowered are parameters: the two differ in Rust. The score is
    computed in 32-bit arithmetic that wraps around. */
module Fuzzy {
  import opened Text

  const I32_MAX: int := 0x7FFF_FFFF
  const TWO_32: int := 0x1_0000_0000

  type Lowering = char -> string

  /** The lowered haystack, each character with the index of the character it comes from. */
  datatype Low = Low(ch: char, orig: nat)

  function Tag(lowered: string, orig: nat): (r: seq<Low>)
    ensures |r| == |lowered|
    ensures forall i :: 0 <= i < |r| ==> r[i] == Low(lowered[i], orig)
  {
    if lowered == "" then [] else [Low(lowered[0], orig)] + Tag(lowered[1..], orig)
  }

  /** The first `n` characters of the haystack, lowered. */
  function Lowered(haystack: string, n: nat, lower: Lowering): seq<Low>
    requires n <= |haystack|
  {
    if n == 0 then [] else Lowered(haystack, n - 1, lower) + Tag(lower(haystack[n - 1]), n - 1)
  }

  /** Lowered piece by piece: what a character becomes, in its place, under its own index. */
  lemma {:induction false} LoweredExactly(haystack: string, n: nat, lower: Lowering, i: nat)
    requires i < n <= |haystack|
    ensures Lowered(haystack, i, lower) + Tag(lower(haystack[i]), i) <= Lowered(haystack, n, lower)
    decreases n
  {
    if i < n - 1 {
      LoweredExactly(haystack, n - 1, lower, i);
    }
  }

  /** When every character has one lowered form, the lowered haystack is the haystack, lowered. */
  lemma {:induction false} LoweredOneToOne(haystack: string, n: nat, lower: Lowering)
    requires n <= |haystack| && forall i :: 0 <= i < |haystack| ==> |lower(haystack[i])| == 1
    ensures |Lowered(haystack, n, lower)| == n
    ensures forall i :: 0 <= i < n ==> Lowered(haystack, n, lower)[i] == Low(lower(haystack[i])[0], i)
    decreases n
  {
    if n > 0 { LoweredOneToOne(haystack, n - 1, lower); }
  }

  /** The first position from `cur` on that holds `c`. */
  function Find(low: seq<Low>, c: char, cur: nat): Option<nat>
    decreases |low| - cur
  {
    if cur >= |low| then None else if low[cur].ch == c then Some(cur) else Find(low, c, cur + 1)
  }

  /** Each character of the needle is taken at the first position that is left. */
  function Greedy(low: seq<Low>, needle: string, cur: nat): Option<seq<nat>> {
    if needle == "" then Some([])
    else
      var p := Find(low, needle[0], cur);
      if p.None? then None
      else
        var rest := Greedy(low, needle[1..], p.value + 1);
        if rest.None? then None else Some([p.value] + rest.value)
  }

  function Origs(low: seq<Low>, ps: seq<nat>): (r: seq<nat>)
    requires forall i :: 0 <= i < |ps| ==> ps[i] < |low|
    ensures |r| == |ps| && forall i :: 0 <= i < |r| ==> r[i] == low[ps[i]].orig
  {
    if ps == [] then [] else [low[ps[0]].orig] + Origs(low, ps[1..])
  }

  /** `dedup` on a sorted vector: runs of equal numbers become one. */
  function Dedup(s: seq<nat>): seq<nat> {
    if |s| < 2 then s
    else if s[0] == s[1] then Dedup(s[1..])
    else [s[0]] + Dedup(s[1..])
  }

  function InsertNat(x: nat, s: seq<nat>): seq<nat> {
    if s == [] || x <= s[0] then [x] + s else [s[0]] + InsertNat(x, s[1..])
  }

  function SortNats(s: seq<nat>): seq<nat> {
    if s == [] then [] else InsertNat(s[0], SortNats(s[1..]))
  }

  predicate NonDecreasing(s: seq<nat>) {
    forall i, j :: 0 <= i < j < |s| ==> s[i] <= s[j]
  }

  predicate Increasing(s: seq<nat>) {
    forall i, j :: 0 <= i < j < |s| ==> s[i] < s[j]
  }

  // ---------------------------------------------------------------- what a match is

  /** `ps` picks the needle out of the haystack in order, from `cur` on. */
  predicate Embedding(low: seq<Low>, needle: string, cur: nat, ps: seq<nat>) {
    && |ps| == |needle|
    && Increasing(ps)
    && forall i :: 0 <= i < |ps| ==> cur <= ps[i] < |low| && low[ps[i]].ch == needle[i]
  }

  lemma {:induction false} FindIsFirst(low: seq<Low>, c: char, cur: nat)
    ensures var p := Find(low, c, cur);
            && (p.Some? ==> cur <= p.value < |low| && low[p.value].ch == c)
            && (forall j :: cur <= j < |low| && low[j].ch == c ==> p.Some? && p.value <= j)
    decreases |low| - cur
  {
    if cur < |low| && low[cur].ch != c {
      FindIsFirst(low, c, cur + 1);
    }
  }

  lemma {:induction false} GreedyIsEmbedding(low: seq<Low>, needle: string, cur: nat)
    ensures var r := Greedy(low, needle, cur);
            r.Some? ==> Embedding(low, needle, cur, r.value)
  {
    hide Find;
    if needle != "" {
      FindIsFirst(low, needle[0], cur);
      var p := Find(low, needle[0], cur);
      if p.Some? {
        GreedyIsEmbedding(low, needle[1..], p.value + 1);
      }
    }
  }

  /** If the needle can be picked out at all the greedy choice succeeds, and each of its
      positions is the earliest of all ways to do it. */
  lemma {:induction false} GreedyIsEarliest(low: seq<Low>, needle: string, cur: nat, qs: seq<nat>)
    requires Embedding(low, needle, cur, qs)
    ensures var r := Greedy(low, needle, cur);
            r.Some? && |r.value| == |qs| && forall i :: 0 <= i < |qs| ==> r.value[i] <= qs[i]
  {
    hide Find;
    if needle != "" {
      FindIsFirst(low, needle[0], cur);
      assert low[qs[0]].ch == needle[0];
      var p := Find(low, needle[0], cur).value;
      assert Embedding(low, needle[1..], p + 1, qs[1..]) by {
        forall i | 0 <= i < |qs[1..]| ensures p + 1 <= qs[1..][i] { assert qs[0] < qs[i + 1]; }
      }
      GreedyIsEarliest(low, needle[1..], p + 1, qs[1..]);
    }
  }

  // ---------------------------------------------------------------- the result

  /** Original indices are below `n` and do not go back. */
  predicate OrigsOrdered(low: seq<Low>, n: nat) {
    && (forall i :: 0 <= i < |low| ==> low[i].orig < n)
    && (forall i, j :: 0 <= i < j < |low| ==> low[i].orig <= low[j].orig)
  }

  lemma {:induction false} LoweredOrigs(haystack: string, n: nat, lower: Lowering)
    requires n <= |haystack|
    ensures OrigsOrdered(Lowered(haystack, n, lower), n)
  {
    if n > 0 {
      LoweredOrigs(haystack, n - 1, lower);
    }
  }

  lemma {:induction false} InsertNatSame(x: nat, s: seq<nat>)
    ensures multiset(InsertNat(x, s)) == multiset(s) + multiset{x}
  {
    if s != [] && x > s[0] {
      InsertNatSame(x, s[1..]);
      assert s == [s[0]] + s[1..];
    }
  }

  lemma {:induction false} InsertNatSorts(x: nat, s: seq<nat>)
    requires NonDecreasing(s)
    ensures NonDecreasing(InsertNat(x, s))
  {
    if s != [] && x > s[0] {
      var t := InsertNat(x, s[1..]);
      InsertNatSorts(x, s[1..]);
      InsertNatSame(x, s[1..]);
      forall i | 0 <= i < |t| ensures s[0] <= t[i] {
        assert t[i] in multiset(t);
        assert t[i] == x || t[i] in s[1..];
      }
    }
  }

  /** `sort_unstable` on numbers. */
  lemma {:induction false} SortNatsSorts(s: seq<nat>)
    ensures NonDecreasing(SortNats(s)) && multiset(SortNats(s)) == multiset(s)
  {
    if s != [] {
      SortNatsSorts(s[1..]);
      InsertNatSorts(s[0], SortNats(s[1..]));
      InsertNatSame(s[0], SortNats(s[1..]));
      assert s == [s[0]] + s[1..];
    }
  }

  lemma {:induction false} SortOfSorted(s: seq<nat>)
    requires NonDecreasing(s)
    ensures SortNats(s) == s
  {
    if s != [] {
      SortOfSorted(s[1..]);
      assert s == [s[0]] + s[1..];
      if |s| > 1 { assert s[0] <= s[1..][0]; }
    }
  }

  lemma {:induction false} DedupIncreases(s: seq<nat>)
    requires NonDecreasing(s)
    ensures Increasing(Dedup(s))
    ensures forall x :: x in Dedup(s) <==> x in s
    ensures s != [] ==> Dedup(s) != [] && Dedup(s)[0] == s[0]
  {
    if |s| >= 2 {
      assert s == [s[0]] + s[1..];
      DedupIncreases(s[1..]);
      var d := Dedup(s[1..]);
      if s[0] != s[1] {
        assert s[0] < s[1];
        forall i | 0 <= i < |d| ensures s[0] < d[i] {
          assert d[0] == s[1..][0] == s[1];
          if i > 0 { assert d[0] < d[i]; }
        }
      }
    }
  }

  /** The first lowered position that comes from original character `orig`, or 0. */
  function FirstFrom(low: seq<Low>, orig: nat, i: nat): nat
    decreases |low| - i
  {
    if i >= |low| then 0 else if low[i].orig == orig then i else FirstFrom(low, orig, i + 1)
  }

  lemma {:induction false} FirstFromIsFirst(low: seq<Low>, orig: nat, i: nat, p: nat)
    requires i <= p < |low| && low[p].orig == orig
    ensures i <= FirstFrom(low, orig, i) <= p && low[FirstFrom(low, orig, i)].orig == orig
    decreases |low| - i
  {
    if low[i].orig != orig { FirstFromIsFirst(low, orig, i + 1, p); }
  }

  datatype Match = Match(indices: seq<nat>, score: int)

  /** How many lowered characters lie between the first and the last hit beyond the needle itself. */
  function Window(low: seq<Low>, ps: seq<nat>, needleLen: nat): int
    requires forall i :: 0 <= i < |ps| ==> ps[i] < |low|
  {
    var first := FirstHit(low, ps);
    var last := if ps == [] then first else ps[|ps| - 1];
    (last - first + 1) - needleLen
  }

  /** Where the window starts. */
  function FirstHit(low: seq<Low>, ps: seq<nat>): nat
    requires forall i :: 0 <= i < |ps| ==> ps[i] < |low|
  {
    if ps == [] then 0 else FirstFrom(low, low[ps[0]].orig, 0)
  }

  /** `as i32`, and the wrap-around of `i32` arithmetic. */
  function AsI32(n: int): int {
    var low := n % TWO_32;
    if low <= I32_MAX then low else low - TWO_32
  }

  /** Where 32 bits end. */
  lemma WidthByExample()
    ensures I32_MAX == 2147483647 && AsI32(2147483647) == 2147483647 && AsI32(2147483648) == -2147483648
    ensures AsI32(4294967295) == -1 && AsI32(4294967296) == 0 && AsI32(-1) == -1
  {
  }

  /** The window as the code computes it, in 32 bits. */
  function Window32(low: seq<Low>, ps: seq<nat>, needleLen: nat): int
    requires forall i :: 0 <= i < |ps| ==> ps[i] < |low|
  {
    var first := FirstHit(low, ps);
    var last := if ps == [] then first else ps[|ps| - 1];
    AsI32(AsI32(AsI32(AsI32(last) - AsI32(first)) + 1) - AsI32(needleLen))
  }

  function ScoreOf(window: int, first: nat): int {
    (if window > 0 then window else 0) - if first == 0 then 100 else 0
  }

  function Score(low: seq<Low>, ps: seq<nat>, needleLen: nat): int
    requires forall i :: 0 <= i < |ps| ==> ps[i] < |low|
  {
    ScoreOf(Window32(low, ps, needleLen), FirstHit(low, ps))
  }

  lemma WrapOnce(a: int, b: int)
    ensures AsI32(AsI32(a) + b) == AsI32(a + b)
    ensures AsI32(a - AsI32(b)) == AsI32(a - b)
  {
    ModShift(a + b, if AsI32(a) == a % TWO_32 then -(a / TWO_32) else -(a / TWO_32) - 1);
    ModShift(a - b, if AsI32(b) == b % TWO_32 then b / TWO_32 else b / TWO_32 + 1);
  }

  lemma ModShift(n: int, k: int)
    ensures (n + k * TWO_32) % TWO_32 == n % TWO_32
  {
    var q, r := n / TWO_32, n % TWO_32;
    assert n + k * TWO_32 == (q + k) * TWO_32 + r;
  }

  /** Wrapping at every operation is wrapping once at the end. */
  lemma WindowWraps(low: seq<Low>, ps: seq<nat>, needleLen: nat)
    requires forall i :: 0 <= i < |ps| ==> ps[i] < |low|
    ensures Window32(low, ps, needleLen) == AsI32(Window(low, ps, needleLen))
  {
    hide AsI32, FirstFrom;
    var first: int := FirstHit(low, ps);
    var last: int := if ps == [] then first else ps[|ps| - 1];
    WrapOnce(last, -AsI32(first));
    WrapOnce(last, first);
    WrapOnce(last - first, 1);
    WrapOnce(last - first + 1, -AsI32(needleLen));
    WrapOnce(last - first + 1, needleLen);
  }

  /** The score is that of the true window exactly when the window fits 32 bits. */
  lemma {:induction false} ScoreIsTrueExactly(low: seq<Low>, needle: string, ps: seq<nat>)
    requires Embedding(low, needle, 0, ps)
    ensures Score(low, ps, |needle|) == ScoreOf(Window(low, ps, |needle|), FirstHit(low, ps))
       <==> Window(low, ps, |needle|) <= I32_MAX
  {
    hide FirstFrom, Window, Window32;
    WindowNotNegative(low, needle, ps);
    WindowWraps(low, ps, |needle|);
  }

  /** In numbers, while the window fits 32 bits: the window, less a hundred for a prefix match. */
  lemma {:induction false} ScoreInNumbers(low: seq<Low>, needle: string, ps: seq<nat>)
    requires Embedding(low, needle, 0, ps) && Window(low, ps, |needle|) <= I32_MAX
    ensures Score(low, ps, |needle|) == Window(low, ps, |needle|) - if FirstHit(low, ps) == 0 then 100 else 0
  {
    hide FirstFrom, Window, Window32;
    WindowNotNegative(low, needle, ps);
    WindowWraps(low, ps, |needle|);
  }

  /** Low scores are good: a prefix match comes before any other match with a window that is not a
      hundred smaller, and of two matches alike in that the one with the smaller window. */
  lemma {:induction false} BetterScores(
      low: seq<Low>, needle: string, ps: seq<nat>, low': seq<Low>, needle': string, ps': seq<nat>)
    requires Embedding(low, needle, 0, ps) && Window(low, ps, |needle|) <= I32_MAX
    requires Embedding(low', needle', 0, ps') && Window(low', ps', |needle'|) <= I32_MAX
    ensures FirstHit(low, ps) == 0 && FirstHit(low', ps') != 0 ==>
      (Score(low, ps, |needle|) < Score(low', ps', |needle'|) <==>
       Window(low, ps, |needle|) < Window(low', ps', |needle'|) + 100)
    ensures (FirstHit(low, ps) == 0 <==> FirstHit(low', ps') == 0) ==>
      (Score(low, ps, |needle|) < Score(low', ps', |needle'|) <==>
       Window(low, ps, |needle|) < Window(low', ps', |needle'|))
  {
    hide Score, Window, FirstHit, Embedding;
    ScoreInNumbers(low, needle, ps);
    ScoreInNumbers(low', needle', ps');
  }

  /** A needle that lowers to nothing hits nothing: it counts as a prefix match of window one. */
  lemma NoHits(low: seq<Low>)
    ensures FirstHit(low, []) == 0 && Window(low, [], 0) == 1 && Score(low, [], 0) == -99
  {
  }

  const HELLO: seq<Low> := [Low('h', 0), Low('e', 1), Low('l', 2), Low('l', 3), Low('o', 4)]

  /** The first and the third letter of `hello`, and the second and the last. */
  lemma ScoreByExample()
    ensures Greedy(HELLO, "hl", 0) == Some([0, 2]) && Score(HELLO, [0, 2], 2) == -99
    ensures Greedy(HELLO, "eo", 0) == Some([1, 4]) && Score(HELLO, [1, 4], 2) == 2
  {
    HelloFinds();
    assert FirstFrom(HELLO, 0, 0) == 0 && FirstFrom(HELLO, 1, 1) == 1 && FirstFrom(HELLO, 1, 0) == 1;
    hide Find;
    assert "hl"[1..] == "l" && "eo"[1..] == "o" && "l"[1..] == "" && "o"[1..] == "";
    assert Greedy(HELLO, "l", 1) == Some([2] + []) && Greedy(HELLO, "o", 2) == Some([4] + []);
    assert [0] + ([2] + []) == [0, 2] && [1] + ([4] + []) == [1, 4];
  }

  lemma HelloFinds()
    ensures Find(HELLO, 'h', 0) == Some(0) && Find(HELLO, 'l', 1) == Some(2)
    ensures Find(HELLO, 'e', 0) == Some(1) && Find(HELLO, 'o', 2) == Some(4)
  {
    assert Find(HELLO, 'l', 2) == Some(2) && Find(HELLO, 'e', 1) == Some(1);
    assert Find(HELLO, 'o', 4) == Some(4) && Find(HELLO, 'o', 3) == Some(4);
  }

  lemma {:induction false} IncreasingSpreads(ps: seq<nat>)
    requires Increasing(ps) && ps != []
    ensures ps[|ps| - 1] - ps[0] >= |ps| - 1
    decreases |ps|
  {
    if |ps| > 1 {
      IncreasingSpreads(ps[..|ps| - 1]);
      assert ps[|ps| - 2] < ps[|ps| - 1];
    }
  }

  /** The window is never negative, so clamping it never changes it. */
  lemma {:induction false} WindowNotNegative(low: seq<Low>, needle: string, ps: seq<nat>)
    requires Embedding(low, needle, 0, ps)
    ensures Window(low, ps, |needle|) >= 0
  {
    if ps != [] {
      FirstFromIsFirst(low, low[ps[0]].orig, 0, ps[0]);
      IncreasingSpreads(ps);
    }
  }

  /** A correct answer for a lowered haystack and a lowered needle. */
  ghost predicate Correct(low: seq<Low>, needle: string, origLen: nat, r: Option<Match>) {
    match r
    case None => forall qs :: !Embedding(low, needle, 0, qs)
    case Some(m) =>
      exists ps ::
        && Embedding(low, needle, 0, ps)
        && (forall qs :: Embedding(low, needle, 0, qs) ==> forall i :: 0 <= i < |ps| ==> ps[i] <= qs[i])
        && Increasing(m.indices)
        && (forall x :: x in m.indices ==> x < origLen)
        && (forall x :: x in m.indices <==> exists i :: 0 <= i < |ps| && low[ps[i]].orig == x)
        && Window(low, ps, |needle|) >= 0
        && m.score == Score(low, ps, |needle|)
  }

  /** `fuzzy_match`. */
  method FuzzyMatch(haystack: string, needle: string, lower: Lowering, lowerAll: string -> string)
    returns (r: Option<Match>)
    ensures needle == "" ==> r == Some(Match([], I32_MAX))
    ensures needle != "" ==> Correct(Lowered(haystack, |haystack|, lower), lowerAll(needle), |haystack|, r)
  {
    if needle == "" {
      return Some(Match([], I32_MAX));
    }
    var low: seq<Low> := [];
    for origIdx := 0 to |haystack|
      invariant low == Lowered(haystack, origIdx, lower)
    {
      low := low + Tag(lower(haystack[origIdx]), origIdx);
    }
    var loweredNeedle := lowerAll(needle);
    var found := Pick(low, loweredNeedle);
    if found.None? {
      NoneIsCorrect(low, loweredNeedle, |haystack|);
      return None;
    }
    var ps := found.value;
    GreedyIsEmbedding(low, loweredNeedle, 0);
    var indices := Dedup(SortNats(Origs(low, ps)));
    r := Some(Match(indices, Score(low, ps, |loweredNeedle|)));
    LoweredOrigs(haystack, |haystack|, lower);
    SomeIsCorrect(low, loweredNeedle, |haystack|, ps, indices);
  }

  /** The nested loops: for each character of the needle the cursor moves to its next hit. */
  method Pick(low: seq<Low>, needle: string) returns (r: Option<seq<nat>>)
    ensures r == Greedy(low, needle, 0)
  {
    var ps: seq<nat> := [];
    var cur, k := 0, 0;
    ghost var goal := Greedy(low, needle, 0);
    assert needle[0..] == needle;
    assert goal.Some? ==> [] + goal.value == goal.value;
    while k < |needle|
      invariant 0 <= k <= |needle|
      invariant Prefixed(ps, Greedy(low, needle[k..], cur)) == goal
    {
      var start := cur;
      while cur < |low| && low[cur].ch != needle[k]
        invariant start <= cur
        invariant Find(low, needle[k], cur) == Find(low, needle[k], start)
      {
        cur := cur + 1;
      }
      GreedyStep(low, needle, k, start, ps);
      if cur >= |low| {
        return None;
      }
      ps := ps + [cur];
      cur := cur + 1;
      k := k + 1;
    }
    assert needle[k..] == "";
    assert ps + [] == ps;
    return Some(ps);
  }

  function Prefixed(ps: seq<nat>, r: Option<seq<nat>>): Option<seq<nat>> {
    if r.None? then None else Some(ps + r.value)
  }

  lemma {:induction false} GreedyStep(low: seq<Low>, needle: string, k: nat, cur: nat, ps: seq<nat>)
    requires k < |needle|
    ensures var p := Find(low, needle[k], cur);
            Prefixed(ps, Greedy(low, needle[k..], cur))
            == if p.None? then None else Prefixed(ps + [p.value], Greedy(low, needle[k + 1..], p.value + 1))
  {
    hide Find;
    assert needle[k..][0] == needle[k] && needle[k..][1..] == needle[k + 1..];
    var p := Find(low, needle[k], cur);
    if p.Some? && Greedy(low, needle[k + 1..], p.value + 1).Some? {
      Reassociate(ps, [p.value], Greedy(low, needle[k + 1..], p.value + 1).value);
    }
  }

  lemma NoneIsCorrect(low: seq<Low>, needle: string, origLen: nat)
    requires Greedy(low, needle, 0).None?
    ensures Correct(low, needle, origLen, None)
  {
    hide Greedy, Embedding;
    forall qs ensures !Embedding(low, needle, 0, qs) {
      if Embedding(low, needle, 0, qs) { GreedyIsEarliest(low, needle, 0, qs); }
    }
  }

  lemma SomeIsCorrect(low: seq<Low>, needle: string, origLen: nat, ps: seq<nat>, indices: seq<nat>)
    requires Greedy(low, needle, 0) == Some(ps) && Embedding(low, needle, 0, ps)
    requires OrigsOrdered(low, origLen)
    requires indices == Dedup(SortNats(Origs(low, ps)))
    ensures Correct(low, needle, origLen, Some(Match(indices, Score(low, ps, |needle|))))
  {
    hide Greedy, SortNats, Dedup, Window, Score, FirstFrom;
    var os := Origs(low, ps);
    SortOfSorted(os);
    DedupIncreases(os);
    WindowNotNegative(low, needle, ps);
    forall qs | Embedding(low, needle, 0, qs) ensures forall i :: 0 <= i < |ps| ==> ps[i] <= qs[i] {
      GreedyIsEarliest(low, needle, 0, qs);
    }
    forall x ensures x in indices <==> exists i :: 0 <= i < |ps| && low[ps[i]].orig == x {
      assert x in indices <==> x in os;
      if x in os {
        var i :| 0 <= i < |os| && os[i] == x;
        assert low[ps[i]].orig == x;
      } else {
        forall i | 0 <= i < |ps| ensures low[ps[i]].orig != x { assert os[i] in os; }
      }
    }
    forall x | x in indices ensures x < origLen {
      assert x in os;
    }
  }
}
