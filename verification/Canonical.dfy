/** The canonical form used to compare generated schema files (`canonicalize_json` and
    `schema_array_item_sort_key` in `crates/app-server-protocol/src/schema_fixtures.rs`).
    Serialisation of a value to text is a parameter. */
module Canonical {
  import opened Text
  import opened JsonTree
  import opened Sorting

  function GetText(es: seq<Entry>, key: string): Option<string> {
    var v := Get(es, key);
    if v.Some? && v.value.Str? then Some(v.value.text) else None
  }

  /** `schema_array_item_sort_key`. */
  function SortKey(item: Json): Option<string> {
    match item
    case Null => Some("null")
    case Bool(b) => Some(if b then "b:true" else "b:false")
    case Num(n) => Some("n:" + n)
    case Str(s) => Some("s:" + s)
    case Obj(entries) =>
      var reference, title := GetText(entries, "$ref"), GetText(entries, "title");
      if reference.Some? then Some("ref:" + reference.value)
      else if title.Some? then Some("title:" + title.value)
      else None
    case Arr(_) => None
  }

  predicate Keyable(items: seq<Json>) {
    forall i :: 0 <= i < |items| ==> SortKey(items[i]).Some?
  }

  type Serialiser = Json -> string

  /** Items with their sort key and their text. */
  function Decorate(items: seq<Json>, ser: Serialiser): (r: seq<Keyed<Json>>)
    requires Keyable(items)
    ensures |r| == |items|
    ensures forall i :: 0 <= i < |r| ==> r[i] == Keyed(SortKey(items[i]).value, ser(items[i]), items[i])
  {
    if items == [] then []
    else [Keyed(SortKey(items[0]).value, ser(items[0]), items[0])] + Decorate(items[1..], ser)
  }

  function Values<T>(ks: seq<Keyed<T>>): (r: seq<T>)
    ensures |r| == |ks|
    ensures forall i :: 0 <= i < |r| ==> r[i] == ks[i].value
  {
    if ks == [] then [] else [ks[0].value] + Values(ks[1..])
  }

  function ByKey(es: seq<Entry>): (r: seq<Keyed<Entry>>)
    ensures |r| == |es|
    ensures forall i :: 0 <= i < |r| ==> r[i] == Keyed(es[i].key, "", es[i])
  {
    if es == [] then [] else [Keyed(es[0].key, "", es[0])] + ByKey(es[1..])
  }

  /** Sorted when every item has a key, left alone otherwise. */
  function SortItems(items: seq<Json>, ser: Serialiser): seq<Json> {
    if Keyable(items) then Values(SortKeyed(Decorate(items, ser))) else items
  }

  function SortEntries(es: seq<Entry>): seq<Entry> {
    Values(SortKeyed(ByKey(es)))
  }

  function Canon(v: Json, ser: Serialiser): Json
    decreases v, 1
  {
    match v
    case Arr(items) => Arr(SortItems(CanonItems(items, ser), ser))
    case Obj(entries) => Obj(SortEntries(CanonEntries(entries, ser)))
    case _ => v
  }

  function CanonItems(items: seq<Json>, ser: Serialiser): (r: seq<Json>)
    ensures |r| == |items|
    decreases items, 0
  {
    if items == [] then [] else [Canon(items[0], ser)] + CanonItems(items[1..], ser)
  }

  function CanonEntries(es: seq<Entry>, ser: Serialiser): (r: seq<Entry>)
    ensures |r| == |es|
    decreases es, 0
  {
    if es == [] then [] else [Entry(es[0].key, Canon(es[0].child, ser))] + CanonEntries(es[1..], ser)
  }

  // ---------------------------------------------------------------- the procedure

  /** `canonicalize_json`: object entries are sorted first and then canonicalised one by one. */
  method CanonicalizeJson(v: Json, ser: Serialiser) returns (r: Json)
    ensures r == Canon(v, ser)
    decreases v, 1
  {
    hide CanonItems, CanonEntries, SortItems, SortEntries;
    match v {
      case Arr(items) =>
        var done := CanonicalizeItems(v, ser);
        r := Arr(SortItems(done, ser));
      case Obj(entries) =>
        var done := CanonicalizeEntries(v, ser);
        r := Obj(done);
      case _ =>
        r := v;
    }
  }

  method CanonicalizeItems(v: Json, ser: Serialiser) returns (done: seq<Json>)
    requires v.Arr?
    ensures done == CanonItems(v.items, ser)
    decreases v, 0
  {
    hide Canon, CanonItems;
    done := [];
    for i := 0 to |v.items|
      invariant done == CanonItems(v.items, ser)[..i]
    {
      var item := CanonicalizeJson(v.items[i], ser);
      CanonItemsAt(v.items, i, ser);
      done := done + [item];
    }
  }

  method CanonicalizeEntries(v: Json, ser: Serialiser) returns (done: seq<Entry>)
    requires v.Obj?
    ensures done == SortEntries(CanonEntries(v.entries, ser))
    decreases v, 0
  {
    hide Canon, CanonEntries, SortEntries;
    var sorted := SortEntries(v.entries);
    SortEntriesSame(v.entries);
    SortThenCanon(v.entries, ser);
    done := [];
    for i := 0 to |sorted|
      invariant done == CanonEntries(sorted, ser)[..i]
    {
      assert sorted[i] in multiset(v.entries);
      assert sorted[i] in v.entries;
      var child := CanonicalizeJson(sorted[i].child, ser);
      CanonEntriesAt(sorted, i, ser);
      done := done + [Entry(sorted[i].key, child)];
    }
  }

  /** Sorting looks at keys only, so it commutes with canonicalising the children. */
  lemma {:induction false} SortThenCanon(es: seq<Entry>, ser: Serialiser)
    ensures CanonEntries(SortEntries(es), ser) == SortEntries(CanonEntries(es, ser))
  {
    hide Canon;
    SortKeyedCommutes(ByKey(es), ByKey(CanonEntries(es, ser)), ser) by {
      forall i | 0 <= i < |es| ensures CanonEntries(es, ser)[i] == Entry(es[i].key, Canon(es[i].child, ser)) {
        CanonEntriesAt(es, i, ser);
      }
    }
    var a, b := SortKeyed(ByKey(es)), SortKeyed(ByKey(CanonEntries(es, ser)));
    forall i | 0 <= i < |a| ensures CanonEntries(Values(a), ser)[i] == Values(b)[i] {
      CanonEntriesAt(Values(a), i, ser);
    }
  }

  /** `b` is `a` with every child canonicalised. */
  ghost predicate InStep(a: seq<Keyed<Entry>>, b: seq<Keyed<Entry>>, ser: Serialiser) {
    && |a| == |b|
    && forall i :: 0 <= i < |a| ==>
         && b[i].key == a[i].key && b[i].tie == a[i].tie
         && b[i].value == Entry(a[i].value.key, Canon(a[i].value.child, ser))
  }

  lemma {:induction false} SortKeyedCommutes(a: seq<Keyed<Entry>>, b: seq<Keyed<Entry>>, ser: Serialiser)
    requires InStep(a, b, ser)
    ensures InStep(SortKeyed(a), SortKeyed(b), ser)
    decreases |a|
  {
    hide Canon, KeyLe;
    if a != [] {
      SortKeyedCommutes(a[1..], b[1..], ser);
      InsertCommutes(a[0], b[0], SortKeyed(a[1..]), SortKeyed(b[1..]), ser);
    }
  }

  lemma {:induction false} InsertCommutes(
      x: Keyed<Entry>, y: Keyed<Entry>, a: seq<Keyed<Entry>>, b: seq<Keyed<Entry>>, ser: Serialiser)
    requires InStep([x], [y], ser) && InStep(a, b, ser)
    ensures InStep(InsertKeyed(x, a), InsertKeyed(y, b), ser)
    decreases |a|
  {
    hide Canon, Le;
    assert [x][0] == x && [y][0] == y;
    if a != [] && !KeyLe(x, a[0]) {
      InsertCommutes(x, y, a[1..], b[1..], ser);
    }
  }

  // ---------------------------------------------------------------- elements

  lemma {:induction false} CanonItemsAt(items: seq<Json>, i: nat, ser: Serialiser)
    requires i < |items|
    ensures CanonItems(items, ser)[i] == Canon(items[i], ser)
    decreases i
  {
    hide Canon;
    if i > 0 { CanonItemsAt(items[1..], i - 1, ser); }
  }

  lemma {:induction false} CanonEntriesAt(es: seq<Entry>, i: nat, ser: Serialiser)
    requires i < |es|
    ensures CanonEntries(es, ser)[i] == Entry(es[i].key, Canon(es[i].child, ser))
    decreases i
  {
    hide Canon;
    if i > 0 { CanonEntriesAt(es[1..], i - 1, ser); }
  }

  lemma {:induction false} ValuesMultiset<T>(a: seq<Keyed<T>>, b: seq<Keyed<T>>)
    requires multiset(a) == multiset(b)
    ensures multiset(Values(a)) == multiset(Values(b))
  {
    ImagesReorder(a, Values(a), b, Values(b));
  }

  lemma SortItemsSame(items: seq<Json>, ser: Serialiser)
    ensures multiset(SortItems(items, ser)) == multiset(items)
  {
    hide SortKeyed;
    if Keyable(items) {
      var d := Decorate(items, ser);
      SortKeyedSorts(d);
      ValuesMultiset(SortKeyed(d), d);
      assert Values(d) == items;
    }
  }

  lemma SortEntriesSame(es: seq<Entry>)
    ensures multiset(SortEntries(es)) == multiset(es) && |SortEntries(es)| == |es|
  {
    hide SortKeyed;
    var d := ByKey(es);
    SortKeyedSorts(d);
    ValuesMultiset(SortKeyed(d), d);
    assert Values(d) == es;
    assert |multiset(SortEntries(es))| == |multiset(es)|;
  }

  // ---------------------------------------------------------------- sort keys do not change

  lemma {:induction false} GetCanon(es: seq<Entry>, key: string, ser: Serialiser)
    ensures var v := Get(es, key);
            Get(CanonEntries(es, ser), key) == if v.Some? then Some(Canon(v.value, ser)) else None
  {
    hide Canon;
    if es != [] { GetCanon(es[1..], key, ser); }
  }

  /** In an object with distinct keys, an entry is found wherever it is. */
  lemma {:induction false} GetFinds(es: seq<Entry>, i: nat)
    requires DistinctKeys(es) && i < |es|
    ensures Get(es, es[i].key) == Some(es[i].child)
    decreases i
  {
    if i > 0 {
      assert es[0].key != es[i].key;
      GetFinds(es[1..], i - 1);
    }
  }

  lemma {:induction false} GetMisses(es: seq<Entry>, key: string)
    ensures Get(es, key).Some? <==> exists i :: 0 <= i < |es| && es[i].key == key
  {
    if es != [] && es[0].key != key {
      GetMisses(es[1..], key);
      if Get(es[1..], key).Some? {
        var i :| 0 <= i < |es[1..]| && es[1..][i].key == key;
        assert es[i + 1].key == key;
      } else {
        forall i | 0 <= i < |es| ensures es[i].key != key {
          if i > 0 { assert es[i] == es[1..][i - 1]; }
        }
      }
    }
  }

  lemma DistinctKeysSame(a: seq<Entry>, b: seq<Entry>)
    requires multiset(a) == multiset(b) && DistinctKeys(a)
    ensures DistinctKeys(b)
  {
    forall i, j | 0 <= i < j < |b| ensures b[i].key != b[j].key {
      if b[i] == b[j] {
        TwoCopies(b, i, j);
        OneCopy(a, b[i]);
        assert false;
      }
      assert b[i] in multiset(a) && b[j] in multiset(a);
      var x :| 0 <= x < |a| && a[x] == b[i];
      var y :| 0 <= y < |a| && a[y] == b[j];
      assert x != y;
    }
  }

  lemma TwoCopies<T>(s: seq<T>, i: nat, j: nat)
    requires i < j < |s| && s[i] == s[j]
    ensures multiset(s)[s[i]] >= 2
  {
    assert s == s[..j] + [s[j]] + s[j + 1..];
    assert s[i] in multiset(s[..j]) by { assert s[..j][i] == s[i]; }
  }

  lemma {:induction false} OneCopy(es: seq<Entry>, e: Entry)
    requires DistinctKeys(es)
    ensures multiset(es)[e] <= 1
  {
    if es != [] {
      OneCopy(es[1..], e);
      assert es == [es[0]] + es[1..];
      if es[0] == e {
        assert e !in es[1..] by {
          forall i | 0 <= i < |es[1..]| ensures es[1..][i] != e { assert es[1..][i] == es[i + 1]; }
        }
        assert e !in multiset(es[1..]);
      }
    }
  }

  /** Lookup does not depend on the order of the entries. */
  lemma GetSame(a: seq<Entry>, b: seq<Entry>, key: string)
    requires multiset(a) == multiset(b) && DistinctKeys(a)
    ensures Get(a, key) == Get(b, key)
  {
    hide Get;
    DistinctKeysSame(a, b);
    GetMisses(a, key);
    GetMisses(b, key);
    if Get(a, key).Some? {
      var i :| 0 <= i < |a| && a[i].key == key;
      GetFinds(a, i);
      assert a[i] in multiset(b);
      var j :| 0 <= j < |b| && b[j] == a[i];
      GetFinds(b, j);
    } else {
      forall j | 0 <= j < |b| ensures b[j].key != key {
        assert b[j] in multiset(a);
      }
    }
  }

  lemma {:induction false} CanonEntriesDistinct(es: seq<Entry>, ser: Serialiser)
    requires DistinctKeys(es)
    ensures DistinctKeys(CanonEntries(es, ser))
  {
    hide Canon, CanonEntries;
    var c := CanonEntries(es, ser);
    forall i, j | 0 <= i < j < |c| ensures c[i].key != c[j].key {
      CanonEntriesAt(es, i, ser);
      CanonEntriesAt(es, j, ser);
    }
  }

  lemma {:induction false} SortKeyCanon(v: Json, ser: Serialiser)
    requires WellFormed(v)
    ensures SortKey(Canon(v, ser)) == SortKey(v)
  {
    if v.Obj? {
      hide WellFormed, Get;
      ObjectKeys(v, ser, "$ref");
      ObjectKeys(v, ser, "title");
    }
  }

  lemma {:induction false} ObjectKeys(v: Json, ser: Serialiser, key: string)
    requires WellFormed(v) && v.Obj?
    ensures GetText(SortEntries(CanonEntries(v.entries, ser)), key) == GetText(v.entries, key)
  {
    hide CanonEntries, SortEntries, Get;
    var c := CanonEntries(v.entries, ser);
    CanonEntriesDistinct(v.entries, ser);
    SortEntriesSame(c);
    GetSame(c, SortEntries(c), key);
    GetCanon(v.entries, key, ser);
  }

  lemma {:induction false} KeyableCanon(items: seq<Json>, ser: Serialiser)
    requires forall i :: 0 <= i < |items| ==> WellFormed(items[i])
    ensures Keyable(CanonItems(items, ser)) <==> Keyable(items)
  {
    hide WellFormed, Canon, CanonItems, SortKey;
    forall i | 0 <= i < |items| ensures SortKey(CanonItems(items, ser)[i]) == SortKey(items[i]) {
      CanonItemsAt(items, i, ser);
      SortKeyCanon(items[i], ser);
    }
  }

  // ---------------------------------------------------------------- equivalence

  predicate HasText(es: seq<Entry>, key: string) {
    exists i :: 0 <= i < |es| && es[i].key == key && es[i].child.Str?
  }

  /** What an array may hold to be sorted: no arrays, and objects only with a text under `$ref` or
      `title`. */
  predicate SortableItem(v: Json) {
    match v
    case Arr(_) => false
    case Obj(entries) => HasText(entries, "$ref") || HasText(entries, "title")
    case _ => true
  }

  predicate Sortable(items: seq<Json>) {
    forall i :: 0 <= i < |items| ==> SortableItem(items[i])
  }

  lemma GetTextExactly(es: seq<Entry>, key: string)
    requires DistinctKeys(es)
    ensures GetText(es, key).Some? <==> HasText(es, key)
    ensures forall i :: 0 <= i < |es| && es[i].key == key && es[i].child.Str? ==>
      GetText(es, key) == Some(es[i].child.text)
  {
    hide Get;
    GetMisses(es, key);
    forall i | 0 <= i < |es| && es[i].key == key ensures Get(es, key) == Some(es[i].child) {
      GetFinds(es, i);
    }
  }

  /** The items that have a sort key are exactly the sortable ones. */
  lemma SortKeyExactly(v: Json)
    requires WellFormed(v)
    ensures SortKey(v).Some? <==> SortableItem(v)
  {
    hide GetText, HasText;
    if v.Obj? {
      GetTextExactly(v.entries, "$ref");
      GetTextExactly(v.entries, "title");
    }
  }

  lemma KeyableExactly(items: seq<Json>)
    requires forall i :: 0 <= i < |items| ==> WellFormed(items[i])
    ensures Keyable(items) <==> Sortable(items)
  {
    hide WellFormed, SortKey, SortableItem;
    forall i | 0 <= i < |items| ensures SortKey(items[i]).Some? <==> SortableItem(items[i]) {
      SortKeyExactly(items[i]);
    }
  }

  /** Equal up to the order of object entries and the order of the items of sortable arrays; at
      every depth. */
  ghost predicate Equivalent(a: Json, b: Json)
    decreases a, 1
  {
    match (a, b)
    case (Arr(xs), Arr(ys)) =>
      exists zs: seq<Json> ::
        AlignedItems(xs, zs) && (zs == ys || (Sortable(xs) && multiset(zs) == multiset(ys)))
    case (Obj(es), Obj(fs)) =>
      exists gs: seq<Entry> :: AlignedEntries(es, gs) && multiset(gs) == multiset(fs)
    case _ => a == b
  }

  ghost predicate AlignedItems(xs: seq<Json>, zs: seq<Json>)
    decreases xs, 0
  {
    |xs| == |zs| && forall i :: 0 <= i < |xs| ==> Equivalent(xs[i], zs[i])
  }

  ghost predicate AlignedEntries(es: seq<Entry>, gs: seq<Entry>)
    decreases es, 0
  {
    |es| == |gs| && forall i :: 0 <= i < |es| ==> es[i].key == gs[i].key && Equivalent(es[i].child, gs[i].child)
  }

  /** Values with distinct keys are told apart by their text. */
  ghost predicate Injective(ser: Serialiser) {
    forall a: Json, b: Json :: WellFormed(a) && WellFormed(b) && ser(a) == ser(b) ==> a == b
  }

  lemma WellFormedItems(ys: seq<Json>, zs: seq<Json>)
    requires multiset(zs) == multiset(ys)
    requires forall i :: 0 <= i < |ys| ==> WellFormed(ys[i])
    ensures forall i :: 0 <= i < |zs| ==> WellFormed(zs[i])
  {
    hide WellFormed;
    forall i | 0 <= i < |zs| ensures WellFormed(zs[i]) {
      assert zs[i] in multiset(ys);
    }
  }

  lemma WellFormedEntries(fs: seq<Entry>, gs: seq<Entry>)
    requires multiset(gs) == multiset(fs)
    requires forall i :: 0 <= i < |fs| ==> WellFormed(fs[i].child)
    ensures forall i :: 0 <= i < |gs| ==> WellFormed(gs[i].child)
  {
    hide WellFormed;
    forall i | 0 <= i < |gs| ensures WellFormed(gs[i].child) {
      assert gs[i] in multiset(fs);
    }
  }

  lemma CanonItemsReorder(zs: seq<Json>, ys: seq<Json>, ser: Serialiser)
    requires multiset(zs) == multiset(ys)
    ensures multiset(CanonItems(zs, ser)) == multiset(CanonItems(ys, ser))
  {
    hide CanonItems, Canon;
    var cz, cy := CanonItems(zs, ser), CanonItems(ys, ser);
    forall i, j | 0 <= i < |zs| && 0 <= j < |ys| && zs[i] == ys[j] ensures cz[i] == cy[j] {
      CanonItemsAt(zs, i, ser);
      CanonItemsAt(ys, j, ser);
    }
    ImagesReorder(zs, cz, ys, cy);
  }

  lemma CanonEntriesReorder(gs: seq<Entry>, fs: seq<Entry>, ser: Serialiser)
    requires multiset(gs) == multiset(fs)
    ensures multiset(CanonEntries(gs, ser)) == multiset(CanonEntries(fs, ser))
  {
    hide CanonEntries, Canon;
    var cg, cf := CanonEntries(gs, ser), CanonEntries(fs, ser);
    forall i, j | 0 <= i < |gs| && 0 <= j < |fs| && gs[i] == fs[j] ensures cg[i] == cf[j] {
      CanonEntriesAt(gs, i, ser);
      CanonEntriesAt(fs, j, ser);
    }
    ImagesReorder(gs, cg, fs, cf);
  }

  lemma KeyableSame(a: seq<Json>, b: seq<Json>)
    requires multiset(a) == multiset(b) && Keyable(a)
    ensures Keyable(b)
  {
    hide SortKey;
    forall i | 0 <= i < |b| ensures SortKey(b[i]).Some? { assert b[i] in multiset(a); }
  }

  /** With injective serialisation the sort of a keyable array does not depend on its order. */
  lemma SortItemsIgnoresOrder(a: seq<Json>, b: seq<Json>, ser: Serialiser)
    requires multiset(a) == multiset(b) && Keyable(a) && Injective(ser)
    requires forall i :: 0 <= i < |a| ==> WellFormed(a[i])
    ensures SortItems(a, ser) == SortItems(b, ser)
  {
    hide SortKeyed, SortKey, WellFormed;
    KeyableSame(a, b);
    var da, db := Decorate(a, ser), Decorate(b, ser);
    ImagesReorder(a, da, b, db);
    assert KeysDecide(da);
    SortIgnoresOrder(da, db);
  }

  lemma SortEntriesIgnoresOrder(a: seq<Entry>, b: seq<Entry>)
    requires multiset(a) == multiset(b) && DistinctKeys(a)
    ensures SortEntries(a) == SortEntries(b)
  {
    hide SortKeyed;
    var da, db := ByKey(a), ByKey(b);
    ImagesReorder(a, da, b, db);
    assert KeysDecide(da);
    SortIgnoresOrder(da, db);
  }

  /** Equivalent values have one canonical form. */
  lemma {:induction false} EquivalentSameCanon(a: Json, b: Json, ser: Serialiser)
    requires WellFormed(a) && WellFormed(b) && Injective(ser)
    requires Equivalent(a, b)
    ensures Canon(a, ser) == Canon(b, ser)
    decreases a, 1
  {
    match (a, b) {
      case (Arr(xs), Arr(ys)) =>
        hide Injective, Canon, SortItems, CanonItems, AlignedItems;
        var zs :| AlignedItems(xs, zs) && (zs == ys || (Sortable(xs) && multiset(zs) == multiset(ys)));
        KeyableExactly(xs);
        WellFormedItems(ys, zs);
        AlignedItemsCanon(xs, zs, ser);
        if zs != ys {
          KeyableCanon(xs, ser);
          CanonItemsReorder(zs, ys, ser);
          CanonItemsWellFormed(zs, ser);
          SortItemsIgnoresOrder(CanonItems(zs, ser), CanonItems(ys, ser), ser);
        }
      case (Obj(es), Obj(fs)) =>
        hide Injective, Canon, SortEntries, CanonEntries, AlignedEntries;
        var gs :| AlignedEntries(es, gs) && multiset(gs) == multiset(fs);
        WellFormedEntries(fs, gs);
        AlignedEntriesCanon(es, gs, ser);
        CanonEntriesReorder(gs, fs, ser);
        CanonEntriesDistinct(es, ser);
        SortEntriesIgnoresOrder(CanonEntries(gs, ser), CanonEntries(fs, ser));
      case _ =>
    }
  }

  lemma {:induction false} AlignedItemsCanon(xs: seq<Json>, zs: seq<Json>, ser: Serialiser)
    requires forall i :: 0 <= i < |xs| ==> WellFormed(xs[i])
    requires forall i :: 0 <= i < |zs| ==> WellFormed(zs[i])
    requires AlignedItems(xs, zs) && Injective(ser)
    ensures CanonItems(xs, ser) == CanonItems(zs, ser)
    decreases xs, 0
  {
    hide WellFormed, Injective, Canon, CanonItems, Equivalent;
    forall i | 0 <= i < |xs| ensures CanonItems(xs, ser)[i] == CanonItems(zs, ser)[i] {
      EquivalentSameCanon(xs[i], zs[i], ser);
      CanonItemsAt(xs, i, ser);
      CanonItemsAt(zs, i, ser);
    }
  }

  lemma {:induction false} AlignedEntriesCanon(es: seq<Entry>, gs: seq<Entry>, ser: Serialiser)
    requires forall i :: 0 <= i < |es| ==> WellFormed(es[i].child)
    requires forall i :: 0 <= i < |gs| ==> WellFormed(gs[i].child)
    requires AlignedEntries(es, gs) && Injective(ser)
    ensures CanonEntries(es, ser) == CanonEntries(gs, ser)
    decreases es, 0
  {
    hide WellFormed, Injective, Canon, CanonEntries, Equivalent;
    forall i | 0 <= i < |es| ensures CanonEntries(es, ser)[i] == CanonEntries(gs, ser)[i] {
      EquivalentSameCanon(es[i].child, gs[i].child, ser);
      CanonEntriesAt(es, i, ser);
      CanonEntriesAt(gs, i, ser);
    }
  }

  /** Values with one canonical form are equivalent; this half needs nothing of the serialiser. */
  lemma {:induction false} SameCanonEquivalent(a: Json, b: Json, ser: Serialiser)
    requires WellFormed(a) && WellFormed(b)
    requires Canon(a, ser) == Canon(b, ser)
    ensures Equivalent(a, b)
    decreases a, 2
  {
    hide Equivalent, SortItems, SortEntries, CanonItems, CanonEntries;
    match (a, b) {
      case (Arr(xs), Arr(ys)) => SameCanonArrays(a, b, ser);
      case (Obj(es), Obj(fs)) => SameCanonObjects(a, b, ser);
      case _ => SameIsEquivalent(a, b);
    }
  }

  lemma SameIsEquivalent(a: Json, b: Json)
    requires a == b && !a.Arr? && !a.Obj?
    ensures Equivalent(a, b)
  {
  }

  lemma {:induction false} SameCanonArrays(a: Json, b: Json, ser: Serialiser)
    requires a.Arr? && b.Arr? && WellFormed(a) && WellFormed(b)
    requires SortItems(CanonItems(a.items, ser), ser) == SortItems(CanonItems(b.items, ser), ser)
    ensures Equivalent(a, b)
    decreases a, 1
  {
    hide SortItems, CanonItems, AlignedItems, Sortable;
    var zs := SameItems(a.items, b.items, ser);
    WellFormedItems(b.items, zs);
    ItemsAligned(a.items, zs, ser);
  }

  lemma {:induction false} SameCanonObjects(a: Json, b: Json, ser: Serialiser)
    requires a.Obj? && b.Obj? && WellFormed(a) && WellFormed(b)
    requires SortEntries(CanonEntries(a.entries, ser)) == SortEntries(CanonEntries(b.entries, ser))
    ensures Equivalent(a, b)
    decreases a, 1
  {
    hide SortEntries, CanonEntries, AlignedEntries;
    var es, fs := a.entries, b.entries;
    SortEntriesSame(CanonEntries(es, ser));
    SortEntriesSame(CanonEntries(fs, ser));
    var gs := LiftReordering(fs, CanonEntries(fs, ser), CanonEntries(es, ser));
    assert forall i :: 0 <= i < |es| ==> WellFormed(es[i].child);
    assert forall i :: 0 <= i < |fs| ==> WellFormed(fs[i].child);
    WellFormedEntries(fs, gs);
    EntriesAligned(es, fs, gs, CanonEntries(es, ser), CanonEntries(fs, ser), ser);
  }

  /** The reordering of `ys` whose canonical items are those of `xs`. */
  lemma {:induction false} SameItems(xs: seq<Json>, ys: seq<Json>, ser: Serialiser) returns (zs: seq<Json>)
    requires forall i :: 0 <= i < |xs| ==> WellFormed(xs[i])
    requires forall i :: 0 <= i < |ys| ==> WellFormed(ys[i])
    requires SortItems(CanonItems(xs, ser), ser) == SortItems(CanonItems(ys, ser), ser)
    ensures zs == ys || (Sortable(xs) && multiset(zs) == multiset(ys))
    ensures multiset(zs) == multiset(ys)
    ensures CanonItems(zs, ser) == CanonItems(xs, ser)
  {
    hide WellFormed, Canon, CanonItems, SortKey, SortKeyed;
    var cx, cy := CanonItems(xs, ser), CanonItems(ys, ser);
    SortItemsSame(cx, ser);
    SortItemsSame(cy, ser);
    assert multiset(cx) == multiset(cy);
    KeyableCanon(xs, ser);
    KeyableExactly(xs);
    if Keyable(cx) {
      zs := LiftReordering(ys, cy, cx);
      LiftedItems(ys, zs, cx, ser);
    } else {
      if Keyable(cy) { KeyableSame(cy, cx); }
      zs := ys;
    }
  }

  lemma {:induction false} LiftedItems(ys: seq<Json>, zs: seq<Json>, ts: seq<Json>, ser: Serialiser)
    requires |zs| == |ts|
    requires forall i :: 0 <= i < |zs| ==>
      exists j :: 0 <= j < |ys| && zs[i] == ys[j] && ts[i] == CanonItems(ys, ser)[j]
    ensures CanonItems(zs, ser) == ts
  {
    hide Canon, CanonItems;
    forall i | 0 <= i < |zs| ensures CanonItems(zs, ser)[i] == ts[i] {
      var j :| 0 <= j < |ys| && zs[i] == ys[j] && ts[i] == CanonItems(ys, ser)[j];
      CanonItemsAt(zs, i, ser);
      CanonItemsAt(ys, j, ser);
    }
  }

  lemma {:induction false} ItemsAligned(xs: seq<Json>, zs: seq<Json>, ser: Serialiser)
    requires forall i :: 0 <= i < |xs| ==> WellFormed(xs[i])
    requires forall i :: 0 <= i < |zs| ==> WellFormed(zs[i])
    requires CanonItems(zs, ser) == CanonItems(xs, ser)
    ensures AlignedItems(xs, zs)
    decreases xs, 0
  {
    hide WellFormed, Canon, CanonItems, Equivalent;
    forall i | 0 <= i < |xs| ensures Equivalent(xs[i], zs[i]) {
      CanonItemsAt(xs, i, ser);
      CanonItemsAt(zs, i, ser);
      SameCanonEquivalent(xs[i], zs[i], ser);
    }
  }

  lemma {:induction false} EntriesAligned(
      es: seq<Entry>, fs: seq<Entry>, gs: seq<Entry>, ts: seq<Entry>, images: seq<Entry>, ser: Serialiser)
    requires forall i :: 0 <= i < |es| ==> WellFormed(es[i].child)
    requires forall i :: 0 <= i < |gs| ==> WellFormed(gs[i].child)
    requires |gs| == |es| && ts == CanonEntries(es, ser) && images == CanonEntries(fs, ser)
    requires forall i :: 0 <= i < |gs| ==> exists j :: 0 <= j < |fs| && gs[i] == fs[j] && ts[i] == images[j]
    ensures AlignedEntries(es, gs)
    decreases es, 0
  {
    hide WellFormed, Canon, CanonEntries, Equivalent;
    forall i | 0 <= i < |es| ensures es[i].key == gs[i].key && Equivalent(es[i].child, gs[i].child) {
      var j :| 0 <= j < |fs| && gs[i] == fs[j] && ts[i] == images[j];
      CanonEntriesAt(es, i, ser);
      CanonEntriesAt(fs, j, ser);
      SameCanonEquivalent(es[i].child, gs[i].child, ser);
    }
  }

  // ---------------------------------------------------------------- idempotence

  lemma {:induction false} CanonWellFormed(v: Json, ser: Serialiser)
    requires WellFormed(v)
    ensures WellFormed(Canon(v, ser))
    decreases v
  {
    match v {
      case Arr(items) =>
        hide Canon, CanonItems, SortItems;
        var c := CanonItems(items, ser);
        forall i | 0 <= i < |c| ensures WellFormed(c[i]) {
          CanonItemsAt(items, i, ser);
          CanonWellFormed(items[i], ser);
        }
        SortItemsSame(c, ser);
        WellFormedItems(c, SortItems(c, ser));
      case Obj(entries) =>
        hide Canon, CanonEntries, SortEntries;
        var c := CanonEntries(entries, ser);
        forall i | 0 <= i < |c| ensures WellFormed(c[i].child) {
          CanonEntriesAt(entries, i, ser);
          CanonWellFormed(entries[i].child, ser);
        }
        CanonEntriesDistinct(entries, ser);
        SortEntriesSame(c);
        DistinctKeysSame(c, SortEntries(c));
        WellFormedEntries(c, SortEntries(c));
      case _ =>
    }
  }

  lemma {:induction false} CanonItemsWellFormed(items: seq<Json>, ser: Serialiser)
    requires forall i :: 0 <= i < |items| ==> WellFormed(items[i])
    ensures var c := CanonItems(items, ser); forall i :: 0 <= i < |c| ==> WellFormed(c[i])
  {
    hide Canon, CanonItems, WellFormed;
    var c := CanonItems(items, ser);
    forall i | 0 <= i < |c| ensures WellFormed(c[i]) {
      CanonItemsAt(items, i, ser);
      CanonWellFormed(items[i], ser);
    }
  }

  lemma CanonItemsFixed(items: seq<Json>, ser: Serialiser)
    requires forall i :: 0 <= i < |items| ==> Canon(items[i], ser) == items[i]
    ensures CanonItems(items, ser) == items
  {
    hide Canon, CanonItems;
    forall i | 0 <= i < |items| ensures CanonItems(items, ser)[i] == items[i] { CanonItemsAt(items, i, ser); }
  }

  lemma CanonEntriesFixed(es: seq<Entry>, ser: Serialiser)
    requires forall i :: 0 <= i < |es| ==> Canon(es[i].child, ser) == es[i].child
    ensures CanonEntries(es, ser) == es
  {
    hide Canon, CanonEntries;
    forall i | 0 <= i < |es| ensures CanonEntries(es, ser)[i] == es[i] { CanonEntriesAt(es, i, ser); }
  }

  /** A sorted array is sorted again to itself, whatever the serialiser: the sort is stable. */
  lemma SortItemsTwice(items: seq<Json>, ser: Serialiser)
    ensures SortItems(SortItems(items, ser), ser) == SortItems(items, ser)
  {
    hide SortKeyed, SortKey;
    if Keyable(items) {
      var d := Decorate(items, ser);
      var k := SortKeyed(d);
      SortKeyedSorts(d);
      SortItemsSame(items, ser);
      KeyableSame(items, Values(k));
      forall i | 0 <= i < |k| ensures Decorate(Values(k), ser)[i] == k[i] {
        assert k[i] in multiset(d);
      }
      assert Decorate(Values(k), ser) == k;
      OrderedIsSorted(k);
    }
  }

  lemma SortEntriesTwice(es: seq<Entry>)
    ensures SortEntries(SortEntries(es)) == SortEntries(es)
  {
    hide SortKeyed;
    var d := ByKey(es);
    var k := SortKeyed(d);
    SortKeyedSorts(d);
    forall i | 0 <= i < |k| ensures ByKey(Values(k))[i] == k[i] {
      assert k[i] in multiset(d);
    }
    assert ByKey(Values(k)) == k;
    OrderedIsSorted(k);
  }

  /** Canonicalising twice is canonicalising once, for every value and every serialiser. */
  lemma {:induction false} CanonIdempotent(v: Json, ser: Serialiser)
    ensures Canon(Canon(v, ser), ser) == Canon(v, ser)
    decreases v
  {
    match v {
      case Arr(items) =>
        hide Canon, CanonItems, SortItems;
        var c := CanonItems(items, ser);
        forall i | 0 <= i < |c| ensures Canon(c[i], ser) == c[i] {
          CanonItemsAt(items, i, ser);
          CanonIdempotent(items[i], ser);
        }
        SortItemsSame(c, ser);
        FixedItems(c, SortItems(c, ser), ser);
        CanonItemsFixed(SortItems(c, ser), ser);
        SortItemsTwice(c, ser);
      case Obj(entries) =>
        hide Canon, CanonEntries, SortEntries;
        var c := CanonEntries(entries, ser);
        forall i | 0 <= i < |c| ensures Canon(c[i].child, ser) == c[i].child {
          CanonEntriesAt(entries, i, ser);
          CanonIdempotent(entries[i].child, ser);
        }
        SortEntriesSame(c);
        FixedEntries(c, SortEntries(c), ser);
        CanonEntriesFixed(SortEntries(c), ser);
        SortEntriesTwice(c);
      case _ =>
    }
  }

  lemma FixedItems(a: seq<Json>, b: seq<Json>, ser: Serialiser)
    requires multiset(a) == multiset(b)
    requires forall i :: 0 <= i < |a| ==> Canon(a[i], ser) == a[i]
    ensures forall i :: 0 <= i < |b| ==> Canon(b[i], ser) == b[i]
  {
    hide Canon;
    forall i | 0 <= i < |b| ensures Canon(b[i], ser) == b[i] { assert b[i] in multiset(a); }
  }

  lemma FixedEntries(a: seq<Entry>, b: seq<Entry>, ser: Serialiser)
    requires multiset(a) == multiset(b)
    requires forall i :: 0 <= i < |a| ==> Canon(a[i].child, ser) == a[i].child
    ensures forall i :: 0 <= i < |b| ==> Canon(b[i].child, ser) == b[i].child
  {
    hide Canon;
    forall i | 0 <= i < |b| ensures Canon(b[i].child, ser) == b[i].child { assert b[i] in multiset(a); }
  }

  /** Every value is equivalent to its canonical form. */
  lemma {:induction false} CanonIsEquivalent(v: Json, ser: Serialiser)
    requires WellFormed(v)
    ensures WellFormed(Canon(v, ser)) && Equivalent(v, Canon(v, ser))
  {
    hide WellFormed, Canon, Equivalent;
    CanonWellFormed(v, ser);
    CanonIdempotent(v, ser);
    SameCanonEquivalent(v, Canon(v, ser), ser);
  }

  /** The canonical form decides the equivalence. */
  lemma {:induction false} CanonDecidesEquivalence(a: Json, b: Json, ser: Serialiser)
    requires WellFormed(a) && WellFormed(b) && Injective(ser)
    ensures Equivalent(a, b) <==> Canon(a, ser) == Canon(b, ser)
  {
    hide WellFormed, Injective, Canon, Equivalent;
    if Equivalent(a, b) { EquivalentSameCanon(a, b, ser); }
    if Canon(a, ser) == Canon(b, ser) { SameCanonEquivalent(a, b, ser); }
  }
}
