/** The parts of Rust's `str` that the modelled code relies on: white-space trimming,
    splitting on a separator, joining, and iterating over lines. A Dafny `char` is a
    Unicode scalar value, as a Rust `char` is. */
module Text {

  datatype Option<+T> = None | Some(value: T)

  datatype Result<+T, +E> = Ok(value: T) | Err(error: E)

  // ---------------------------------------------------------------- white space

  /** The Unicode property `White_Space`, which `str::trim` uses. */
  predicate IsWhitespace(c: char) {
    || '\U{0009}' <= c <= '\U{000D}'
    || c == ' ' || c == '\U{0085}' || c == '\U{00A0}' || c == '\U{1680}'
    || '\U{2000}' <= c <= '\U{200A}'
    || c == '\U{2028}' || c == '\U{2029}' || c == '\U{202F}' || c == '\U{205F}' || c == '\U{3000}'
  }

  /** The property written out. */
  const WHITE_SPACE: set<char> := {
    '\U{0009}', '\U{000A}', '\U{000B}', '\U{000C}', '\U{000D}', '\U{0020}', '\U{0085}', '\U{00A0}', '\U{1680}',
    '\U{2000}', '\U{2001}', '\U{2002}', '\U{2003}', '\U{2004}', '\U{2005}', '\U{2006}', '\U{2007}', '\U{2008}',
    '\U{2009}', '\U{200A}', '\U{2028}', '\U{2029}', '\U{202F}', '\U{205F}', '\U{3000}'
  }

  lemma WhitespaceExactly(c: char)
    ensures IsWhitespace(c) <==> c in WHITE_SPACE
  {
    var n := c as int;
    if '\U{2000}' <= c <= '\U{200A}' {
      assert n == 0x2000 || n == 0x2001 || n == 0x2002 || n == 0x2003 || n == 0x2004 || n == 0x2005
        || n == 0x2006 || n == 0x2007 || n == 0x2008 || n == 0x2009 || n == 0x200A;
    }
  }

  predicate AllWhitespace(s: string) {
    forall i :: 0 <= i < |s| ==> IsWhitespace(s[i])
  }

  function TrimEnd(s: string): string {
    if s == "" || !IsWhitespace(s[|s| - 1]) then s else TrimEnd(s[..|s| - 1])
  }

  function TrimStart(s: string): string {
    if s == "" || !IsWhitespace(s[0]) then s else TrimStart(s[1..])
  }

  function Trim(s: string): string {
    TrimStart(TrimEnd(s))
  }

  /** Neither end is white space, so trimming has nothing to do. */
  predicate Trimmed(s: string) {
    s == "" || (!IsWhitespace(s[0]) && !IsWhitespace(s[|s| - 1]))
  }

  /** `Trim(s)` is the unique trimmed string left after taking white space off both ends. */
  lemma {:induction false} TrimUnique(pre: string, s: string, post: string)
    requires AllWhitespace(pre) && AllWhitespace(post)
    requires Trimmed(s)
    ensures Trim(pre + s + post) == s
  {
    if s == "" {
      assert forall i :: 0 <= i < |pre + s + post| ==> IsWhitespace((pre + s + post)[i]);
      TrimEndAll(pre + s + post);
    } else {
      TrimEndDrops(pre + s, post);
      TrimStartDrops(pre, s);
    }
  }

  lemma {:induction false} TrimEndAll(s: string)
    requires AllWhitespace(s)
    ensures TrimEnd(s) == ""
  {
    if s != "" {
      TrimEndAll(s[..|s| - 1]);
    }
  }

  lemma {:induction false} TrimEndDrops(s: string, post: string)
    requires AllWhitespace(post)
    requires s != "" ==> !IsWhitespace(s[|s| - 1])
    ensures TrimEnd(s + post) == s
  {
    if post == "" {
      assert s + post == s;
    } else {
      assert (s + post)[..|s + post| - 1] == s + post[..|post| - 1];
      TrimEndDrops(s, post[..|post| - 1]);
    }
  }

  lemma {:induction false} TrimStartDrops(pre: string, s: string)
    requires AllWhitespace(pre)
    requires s != "" ==> !IsWhitespace(s[0])
    ensures TrimStart(pre + s) == s
  {
    if pre == "" {
      assert pre + s == s;
    } else {
      assert (pre + s)[1..] == pre[1..] + s;
      TrimStartDrops(pre[1..], s);
    }
  }

  lemma NothingIsWhitespace()
    ensures AllWhitespace("")
  {
  }

  lemma WhitespaceConcat(a: string, b: string)
    requires AllWhitespace(a) && AllWhitespace(b)
    ensures AllWhitespace(a + b)
  {
    forall i | 0 <= i < |a + b| ensures IsWhitespace((a + b)[i]) {
      if i >= |a| { assert (a + b)[i] == b[i - |a|]; }
    }
  }

  lemma {:induction false} TrimEndParts(s: string) returns (post: string)
    ensures AllWhitespace(post) && s == TrimEnd(s) + post
    ensures TrimEnd(s) != "" ==> !IsWhitespace(TrimEnd(s)[|TrimEnd(s)| - 1])
  {
    if s == "" || !IsWhitespace(s[|s| - 1]) {
      post := "";
    } else {
      var init, last := s[..|s| - 1], [s[|s| - 1]];
      var p := TrimEndParts(init);
      post := p + last;
      WhitespaceConcat(p, last);
      Reassociate(TrimEnd(init), p, last);
      assert s == init + last;
    }
  }

  lemma Reassociate<T>(a: seq<T>, b: seq<T>, c: seq<T>)
    ensures a + b + c == a + (b + c)
  {
  }

  lemma {:induction false} TrimStartParts(s: string) returns (pre: string)
    ensures AllWhitespace(pre) && s == pre + TrimStart(s)
    ensures TrimStart(s) != "" ==> !IsWhitespace(TrimStart(s)[0])
  {
    if s == "" || !IsWhitespace(s[0]) {
      pre := "";
    } else {
      var head, tail := [s[0]], s[1..];
      var p := TrimStartParts(tail);
      pre := head + p;
      WhitespaceConcat(head, p);
      Reassociate(head, p, TrimStart(tail));
      assert s == head + tail;
    }
  }

  /** What trimming removed: white space before and white space after. */
  lemma TrimParts(s: string) returns (pre: string, post: string)
    ensures AllWhitespace(pre) && AllWhitespace(post)
    ensures s == pre + Trim(s) + post
    ensures Trimmed(Trim(s))
  {
    var e := TrimEnd(s);
    post := TrimEndParts(s);
    pre := TrimStartParts(e);
    var t := Trim(s);
    assert e == pre + t;
    if t != "" {
      assert e[|e| - 1] == t[|t| - 1];
    }
  }

  lemma TrimIdentity(s: string)
    requires Trimmed(s)
    ensures Trim(s) == s
  {
    TrimUnique("", s, "");
    assert "" + s + "" == s;
  }

  lemma TrimPadded(pre: string, s: string, post: string)
    requires AllWhitespace(pre) && AllWhitespace(post)
    ensures Trim(pre + s + post) == Trim(s)
  {
    hide Trim, IsWhitespace, AllWhitespace;
    var a, b := TrimParts(s);
    var t := Trim(s);
    WhitespaceConcat(pre, a);
    WhitespaceConcat(b, post);
    assert pre + (a + t + b) + post == (pre + a) + t + (b + post);
    TrimUnique(pre + a, t, b + post);
  }

  // ---------------------------------------------------------------- prefixes

  predicate StartsWith(s: string, prefix: string) {
    prefix <= s
  }

  predicate EndsWith(s: string, suffix: string) {
    |suffix| <= |s| && s[|s| - |suffix|..] == suffix
  }

  function StripPrefix(s: string, prefix: string): Option<string> {
    if StartsWith(s, prefix) then Some(s[|prefix|..]) else None
  }

  // ---------------------------------------------------------------- split and join

  function Split(s: string, sep: char): (r: seq<string>)
    ensures |r| >= 1
  {
    if s == "" then
      [""]
    else
      var rest := Split(s[1..], sep);
      if s[0] == sep then [""] + rest else [[s[0]] + rest[0]] + rest[1..]
  }

  function Join(parts: seq<string>, sep: string): string {
    if parts == [] then ""
    else if |parts| == 1 then parts[0]
    else parts[0] + sep + Join(parts[1..], sep)
  }

  lemma {:induction false} SplitPieces(s: string, sep: char, i: nat)
    requires i < |Split(s, sep)|
    ensures sep !in Split(s, sep)[i]
  {
    if s != "" {
      var rest := Split(s[1..], sep);
      if s[0] == sep {
        if i > 0 { SplitPieces(s[1..], sep, i - 1); }
      } else {
        SplitPieces(s[1..], sep, i);
      }
    }
  }

  lemma {:induction false} SplitHead(a: string, b: string, sep: char)
    requires sep !in a
    ensures Split(a + [sep] + b, sep) == [a] + Split(b, sep)
  {
    var s := a + [sep] + b;
    if a == "" {
      assert s == [sep] + b;
      assert s[1..] == b;
    } else {
      assert s[1..] == a[1..] + [sep] + b;
      SplitHead(a[1..], b, sep);
      assert [a[0]] + a[1..] == a;
    }
  }

  lemma {:induction false} SplitWhole(a: string, sep: char)
    requires sep !in a
    ensures Split(a, sep) == [a]
  {
    if a != "" {
      SplitWhole(a[1..], sep);
      assert [a[0]] + a[1..] == a;
    }
  }

  /** Splitting undoes joining when no part holds the separator. */
  lemma {:induction false} SplitJoin(parts: seq<string>, sep: char)
    requires parts != []
    requires forall i :: 0 <= i < |parts| ==> sep !in parts[i]
    ensures Split(Join(parts, [sep]), sep) == parts
  {
    if |parts| == 1 {
      SplitWhole(parts[0], sep);
    } else {
      SplitHead(parts[0], Join(parts[1..], [sep]), sep);
      SplitJoin(parts[1..], sep);
      assert [parts[0]] + parts[1..] == parts;
    }
  }

  /** Joining undoes splitting, always. */
  lemma {:induction false} JoinSplit(s: string, sep: char)
    ensures Join(Split(s, sep), [sep]) == s
  {
    if s != "" {
      var rest := Split(s[1..], sep);
      JoinSplit(s[1..], sep);
      var all := Split(s, sep);
      if s[0] == sep {
        assert all[1..] == rest;
      } else {
        assert all[1..] == rest[1..];
        if |rest| == 1 {
          assert [s[0]] + rest[0] == s;
        } else {
          assert rest[0] + [sep] + Join(rest[1..], [sep]) == s[1..];
          assert ([s[0]] + rest[0]) + [sep] + Join(rest[1..], [sep]) == s;
        }
      }
    }
  }

  lemma JoinOne(s: string)
    ensures Join([s], "\n") == s
  {
  }

  /** Joining distributes over concatenation of two non-empty lists. */
  lemma {:induction false} JoinConcat(a: seq<string>, b: seq<string>, sep: string)
    requires a != [] && b != []
    ensures Join(a + b, sep) == Join(a, sep) + sep + Join(b, sep)
  {
    if |a| == 1 {
      assert (a + b)[1..] == b;
    } else {
      assert (a + b)[1..] == a[1..] + b;
      JoinConcat(a[1..], b, sep);
      assert (a[0] + sep) + (Join(a[1..], sep) + sep + Join(b, sep))
          == (a[0] + sep + Join(a[1..], sep)) + sep + Join(b, sep);
    }
  }

  // ---------------------------------------------------------------- lines

  function StripCr(s: string): string {
    if s != "" && s[|s| - 1] == '\r' then s[..|s| - 1] else s
  }

  lemma StripCrTrim(s: string)
    ensures Trim(StripCr(s)) == Trim(s)
  {
    hide Trim;
    if s != "" && s[|s| - 1] == '\r' {
      assert "" + StripCr(s) + "\r" == s;
      NothingIsWhitespace();
      TrimPadded("", StripCr(s), "\r");
    }
  }

  function StripCrs(ls: seq<string>): (r: seq<string>)
    ensures |r| == |ls|
    ensures forall i :: 0 <= i < |ls| ==> r[i] == StripCr(ls[i])
  {
    seq(|ls|, i requires 0 <= i < |ls| => StripCr(ls[i]))
  }

  /** `str::lines`: a line ends at `\n`, loses one `\r` in front of that `\n`, and an
      empty remainder after the last `\n` is not a line. */
  function Lines(s: string): seq<string> {
    var parts := Split(s, '\n');
    var ended := StripCrs(parts[..|parts| - 1]);
    var last := parts[|parts| - 1];
    if last == "" then ended else ended + [last]
  }

  /** A line as `str::lines` can return it, unless the input holds a `\r` right before the one that is dropped. */
  predicate PlainLine(s: string) {
    '\n' !in s && (s == "" || s[|s| - 1] != '\r')
  }

  lemma StripCrsPlain(ls: seq<string>)
    requires forall i :: 0 <= i < |ls| ==> PlainLine(ls[i])
    ensures StripCrs(ls) == ls
  {
    forall i | 0 <= i < |ls| ensures StripCr(ls[i]) == ls[i] {
      assert PlainLine(ls[i]);
    }
  }

  lemma LinesJoinGeneral(init: seq<string>, last: string)
    requires last != "" && '\n' !in last
    requires forall i :: 0 <= i < |init| ==> '\n' !in init[i]
    ensures Lines(Join(init + [last], "\n")) == StripCrs(init) + [last]
  {
    var ls := init + [last];
    SplitJoin(ls, '\n');
    assert ls[..|ls| - 1] == init;
  }

  /** `lines` undoes joining plain lines with `\n`, when the last one is not empty. */
  lemma LinesJoin(init: seq<string>, last: string)
    requires last != "" && PlainLine(last)
    requires forall i :: 0 <= i < |init| ==> PlainLine(init[i])
    ensures Lines(Join(init + [last], "\n")) == init + [last]
  {
    LinesJoinGeneral(init, last);
    StripCrsPlain(init);
  }

  lemma LinesHaveNoNewline(s: string, i: nat)
    requires i < |Lines(s)|
    ensures '\n' !in Lines(s)[i]
  {
    var parts := Split(s, '\n');
    SplitPieces(s, '\n', i);
    assert Lines(s)[i] == (if i < |parts| - 1 then StripCr(parts[i]) else parts[i]);
  }

  /** Line ends of both kinds, a carriage return inside a line, and no line after the last end. */
  lemma LinesByExample()
    ensures Lines("a\r\nb\rc\n") == ["a", "b\rc"] && Lines("a\n\nb") == ["a", "", "b"]
  {
    hide Split;
    SplitJoin(["a\r", "b\rc", ""], '\n');
    SplitJoin(["a", "", "b"], '\n');
    JoinThree("a\r", "b\rc", "");
    JoinThree("a", "", "b");
    assert "a\r" + "\n" + ("b\rc" + "\n" + "") == "a\r\nb\rc\n";
    assert "a" + "\n" + ("" + "\n" + "b") == "a\n\nb";
    var first, second := ["a\r", "b\rc", ""], ["a", "", "b"];
    assert "a\r"[..1] == "a";
    assert StripCrs(first[..2]) == ["a", "b\rc"];
    assert StripCrs(second[..2]) == ["a", ""] && ["a", ""] + ["b"] == second;
  }

  lemma JoinThree(a: string, b: string, c: string)
    ensures Join([a, b, c], "\n") == a + "\n" + (b + "\n" + c)
  {
    assert [a, b, c][1..] == [b, c] && [b, c][1..] == [c];
    assert Join([b, c], "\n") == b + "\n" + Join([c], "\n") && Join([c], "\n") == c;
    assert Join([a, b, c], "\n") == a + "\n" + Join([b, c], "\n");
  }
}
