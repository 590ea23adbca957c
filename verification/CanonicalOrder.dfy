/** The order of canonical arrays and objects, from the values alone
    (`crates/app-server-protocol/src/schema_fixtures.rs`, lines 115 to 168). */
module CanonicalOrder {
  import opened Text
  import opened JsonTree
  import opened Sorting
  import opened Canonical

  // ---------------------------------------------------------------- strings

  /** `a` is a prefix of `b`, or smaller at the first place where they differ. */
  ghost predicate Lex(a: string, b: string) {
    a <= b || exists i :: 0 <= i < |a| && i < |b| && a[..i] == b[..i] && a[i] < b[i]
  }

  lemma LexHead(a: string, b: string)
    requires a != "" && b != "" && Lex(a, b)
    ensures a[0] < b[0] || (a[0] == b[0] && Lex(a[1..], b[1..]))
  {
    var s, t := a[1..], b[1..];
    if !(a <= b) {
      var i :| 0 <= i < |a| && i < |b| && a[..i] == b[..i] && a[i] < b[i];
      if i > 0 {
        assert a[..i][0] == a[0] && b[..i][0] == b[0];
        assert s[..i - 1] == a[..i][1..] && t[..i - 1] == b[..i][1..];
        assert s[i - 1] < t[i - 1];
      }
    }
  }

  lemma LexCons(a: string, b: string)
    requires a != "" && b != ""
    requires a[0] < b[0] || (a[0] == b[0] && Lex(a[1..], b[1..]))
    ensures Lex(a, b)
  {
    var s, t := a[1..], b[1..];
    assert a == [a[0]] + s && b == [b[0]] + t;
    if a[0] < b[0] {
      assert a[..0] == b[..0];
    } else if !(s <= t) {
      var i :| 0 <= i < |s| && i < |t| && s[..i] == t[..i] && s[i] < t[i];
      assert a[..i + 1] == [a[0]] + s[..i] && b[..i + 1] == [b[0]] + t[..i];
      assert a[i + 1] < b[i + 1];
    }
  }

  lemma {:induction false} LeExactly(a: string, b: string)
    ensures Le(a, b) <==> Lex(a, b)
    decreases |a|
  {
    if a != "" && b != "" {
      hide Lex;
      if a[0] == b[0] { LeExactly(a[1..], b[1..]); }
      if Lex(a, b) { LexHead(a, b); }
      if Le(a, b) { LexCons(a, b); }
    }
  }

  lemma {:induction false} LePrefixed(p: string, a: string, b: string)
    ensures Le(p + a, p + b) <==> Le(a, b)
    decreases |p|
  {
    if p == "" {
      assert p + a == a && p + b == b;
    } else {
      assert (p + a)[1..] == p[1..] + a && (p + b)[1..] == p[1..] + b;
      LePrefixed(p[1..], a, b);
    }
  }

  // ---------------------------------------------------------------- items

  /** The kinds of sortable items in the order in which they are sorted: booleans, numbers, null,
      references, strings, titled objects. A reference counts before a title. */
  function Kind(v: Json): nat {
    match v
    case Bool(_) => 0
    case Num(_) => 1
    case Null => 2
    case Str(_) => 4
    case Obj(entries) => if HasText(entries, "$ref") then 3 else if HasText(entries, "title") then 5 else 6
    case Arr(_) => 6
  }

  /** The text by which items of one kind are sorted. */
  predicate Sorts(v: Json, text: string) {
    match v
    case Bool(b) => text == if b then "true" else "false"
    case Num(repr) => text == repr
    case Null => text == ""
    case Str(s) => text == s
    case Obj(entries) => Entry(if HasText(entries, "$ref") then "$ref" else "title", Str(text)) in entries
    case Arr(_) => false
  }

  /** Sorted order of two items, with the serialised values to break ties. */
  ghost predicate Before(a: Json, b: Json, ser: Serialiser) {
    || Kind(a) < Kind(b)
    || (Kind(a) == Kind(b)
        && forall s, t :: Sorts(a, s) && Sorts(b, t) ==> if s == t then Lex(ser(a), ser(b)) else Lex(s, t))
  }

  function Prefix(kind: nat): string {
    if kind == 0 then "b:" else if kind == 1 then "n:" else if kind == 2 then "null"
    else if kind == 3 then "ref:" else if kind == 4 then "s:" else "title:"
  }

  lemma KeyForm(v: Json)
    requires WellFormed(v) && SortableItem(v)
    ensures SortKey(v).Some? && Kind(v) < 6
    ensures forall text :: Sorts(v, text) ==> SortKey(v) == Some(Prefix(Kind(v)) + text)
  {
    hide GetText, HasText;
    match v {
      case Obj(entries) =>
        GetTextExactly(entries, "$ref");
        GetTextExactly(entries, "title");
      case Bool(b) =>
        assert "b:" + "true" == "b:true" && "b:" + "false" == "b:false";
      case Null =>
        assert "null" + "" == "null";
      case _ =>
    }
  }

  /** Keys of different kinds are ordered by kind. */
  lemma KindsDecide(k: nat, l: nat, s: string, t: string)
    requires k < l < 6
    ensures !Le(Prefix(l) + t, Prefix(k) + s)
  {
    var p, q := Prefix(l) + t, Prefix(k) + s;
    assert p[0] == Prefix(l)[0] && q[0] == Prefix(k)[0] && p[1] == Prefix(l)[1] && q[1] == Prefix(k)[1];
    assert p[1..][0] == p[1] && q[1..][0] == q[1];
  }

  lemma KeyOrder(a: Json, b: Json, ser: Serialiser)
    requires WellFormed(a) && WellFormed(b) && SortableItem(a) && SortableItem(b)
    requires SortKey(a).Some? && SortKey(b).Some?
    requires KeyLe(Keyed(SortKey(a).value, ser(a), a), Keyed(SortKey(b).value, ser(b), b))
    ensures Before(a, b, ser)
  {
    hide WellFormed, SortKey, Kind, Sorts, Le, Lex, SortableItem, Prefix;
    KeyForm(a);
    KeyForm(b);
    LeExactly(ser(a), ser(b));
    if Kind(b) < Kind(a) {
      HasSortText(a);
      HasSortText(b);
      var s :| Sorts(a, s);
      var t :| Sorts(b, t);
      KindsDecide(Kind(b), Kind(a), t, s);
      LeSelf(Prefix(Kind(a)) + s);
    } else if Kind(a) == Kind(b) {
      forall s, t | Sorts(a, s) && Sorts(b, t) ensures if s == t then Lex(ser(a), ser(b)) else Lex(s, t) {
        var p := Prefix(Kind(a));
        LePrefixed(p, s, t);
        LeExactly(s, t);
        if s != t { assert (p + s)[|p|..] == s && (p + t)[|p|..] == t; }
      }
    }
  }

  lemma HasSortText(v: Json)
    requires SortableItem(v)
    ensures exists text :: Sorts(v, text)
  {
    match v {
      case Obj(entries) =>
        var key := if HasText(entries, "$ref") then "$ref" else "title";
        var i :| 0 <= i < |entries| && entries[i].key == key && entries[i].child.Str?;
        assert entries[i] == Entry(key, Str(entries[i].child.text));
        assert Sorts(v, entries[i].child.text);
      case Bool(b) => assert Sorts(v, if b then "true" else "false");
      case Num(repr) => assert Sorts(v, repr);
      case Null => assert Sorts(v, "");
      case Str(s) => assert Sorts(v, s);
    }
  }

  lemma {:induction false} LeSelf(s: string)
    ensures Le(s, s)
  {
    if s != "" { LeSelf(s[1..]); }
  }

  // ---------------------------------------------------------------- canonical values

  /** The canonical items of a sortable array stand in sorted order: by kind, then by text, then
      by their serialisation. */
  lemma {:induction false} ArrayOrder(items: seq<Json>, ser: Serialiser, i: nat, j: nat)
    requires WellFormed(Arr(items)) && Sortable(items) && i < j < |items|
    ensures var r := Canon(Arr(items), ser); r.Arr? && |r.items| == |items| && Before(r.items[i], r.items[j], ser)
  {
    hide WellFormed, SortKey, Before, KeyLe, SortKeyed, SortableItem, CanonItems;
    assert forall k :: 0 <= k < |items| ==> WellFormed(items[k]) by { ItemsWellFormed(items); }
    var c := CanonItems(items, ser);
    KeyableExactly(items);
    KeyableCanon(items, ser);
    CanonItemsWellFormed(items, ser);
    var d := Decorate(c, ser);
    var k := SortKeyed(d);
    SortKeyedSorts(d);
    assert |multiset(k)| == |k| && |multiset(d)| == |d|;
    assert k[i] in multiset(d) && k[j] in multiset(d);
    assert WellFormed(k[i].value) && WellFormed(k[j].value) by {
      assert exists x :: 0 <= x < |c| && k[i].value == c[x];
      assert exists y :: 0 <= y < |c| && k[j].value == c[y];
    }
    SortKeyExactly(k[i].value);
    SortKeyExactly(k[j].value);
    assert KeyLe(k[i], k[j]);
    KeyOrder(k[i].value, k[j].value, ser);
  }

  lemma ItemsWellFormed(items: seq<Json>)
    requires WellFormed(Arr(items))
    ensures forall k :: 0 <= k < |items| ==> WellFormed(items[k])
  {
  }

  /** In particular arrays of strings come out in ascending order. */
  lemma {:induction false} StringsAscend(texts: seq<string>, items: seq<Json>, ser: Serialiser, i: nat, j: nat)
    requires |items| == |texts| && forall k :: 0 <= k < |items| ==> items[k] == Str(texts[k])
    requires i < j < |items|
    ensures var r := Canon(Arr(items), ser);
            r.Arr? && |r.items| == |items| && r.items[i].Str? && r.items[j].Str?
            && Lex(r.items[i].text, r.items[j].text)
  {
    hide Canon, Lex;
    assert Sortable(items) && WellFormed(Arr(items));
    ArrayOrder(items, ser, i, j);
    StringsStay(items, ser);
    var r := Canon(Arr(items), ser).items;
    assert r[i] in multiset(r) && r[j] in multiset(r);
    assert r[i].Str? && r[j].Str?;
    assert Sorts(r[i], r[i].text) && Sorts(r[j], r[j].text);
    if r[i].text == r[j].text { PrefixIsLex(r[i].text); }
  }

  lemma PrefixIsLex(s: string)
    ensures Lex(s, s)
  {
  }

  lemma {:induction false} StringsStay(items: seq<Json>, ser: Serialiser)
    requires forall k :: 0 <= k < |items| ==> items[k].Str?
    ensures var r := Canon(Arr(items), ser); r.Arr? && multiset(r.items) == multiset(items)
  {
    hide CanonItems, SortItems;
    forall k | 0 <= k < |items| ensures CanonItems(items, ser)[k] == items[k] { CanonItemsAt(items, k, ser); }
    assert CanonItems(items, ser) == items;
    SortItemsSame(items, ser);
  }

  /** The entries of a canonical object stand in ascending order of their keys. */
  lemma {:induction false} ObjectOrder(entries: seq<Entry>, ser: Serialiser, i: nat, j: nat)
    requires i < j < |entries|
    ensures var r := Canon(Obj(entries), ser);
            r.Obj? && |r.entries| == |entries| && Lex(r.entries[i].key, r.entries[j].key)
  {
    hide SortKeyed, CanonEntries, Lex, Le;
    var c := CanonEntries(entries, ser);
    var d := ByKey(c);
    var k := SortKeyed(d);
    SortKeyedSorts(d);
    assert |multiset(k)| == |k| && |multiset(d)| == |d|;
    assert k[i] in multiset(d) && k[j] in multiset(d);
    assert KeyLe(k[i], k[j]);
    LeExactly(k[i].key, k[j].key);
    if k[i].key == k[j].key { PrefixIsLex(k[i].key); }
  }
}
