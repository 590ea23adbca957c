/** The schema filters take away no more than they must: their results are the largest clean
    parts of the schema (`crates/app-server-protocol/src/export.rs`, lines 308 to 340 and 427
    to 476). */
module SchemaLargest {
  import opened Text
  import opened JsonTree
  import opened SchemaFilter

  /** What may be left out of a value: any entry and any item, or only items that are objects. */
  datatype Drop = Anything | Objects

  predicate MayDrop(v: Json, drop: Drop) {
    drop.Anything? || v.Obj?
  }

  /** `w` is `v` with parts left out, at any depth. */
  predicate Within(w: Json, v: Json, drop: Drop)
    decreases v, 1
  {
    match v
    case Arr(items) => w.Arr? && ItemsWithin(w.items, items, drop)
    case Obj(entries) => w.Obj? && EntriesWithin(w.entries, entries, drop)
    case _ => w == v
  }

  predicate ItemsWithin(ws: seq<Json>, vs: seq<Json>, drop: Drop)
    decreases vs, 0
  {
    if vs == [] then ws == []
    else
      || (ws != [] && Within(ws[0], vs[0], drop) && ItemsWithin(ws[1..], vs[1..], drop))
      || (MayDrop(vs[0], drop) && ItemsWithin(ws, vs[1..], drop))
  }

  predicate EntryWithin(w: Entry, v: Entry, drop: Drop) {
    w.key == v.key && Within(w.child, v.child, drop)
  }

  predicate EntriesWithin(ws: seq<Entry>, vs: seq<Entry>, drop: Drop)
    decreases vs, 0
  {
    if vs == [] then ws == []
    else
      || (ws != [] && ws[0].key == vs[0].key && Within(ws[0].child, vs[0].child, drop)
          && EntriesWithin(ws[1..], vs[1..], drop))
      || (drop.Anything? && EntriesWithin(ws, vs[1..], drop))
  }

  // ---------------------------------------------------------------- an order

  lemma {:induction false} WithinSelf(v: Json, drop: Drop)
    ensures Within(v, v, drop)
    decreases v, 1
  {
    match v {
      case Arr(items) => ItemsWithinSelf(items, drop);
      case Obj(entries) => EntriesWithinSelf(entries, drop);
      case _ =>
    }
  }

  lemma {:induction false} ItemsWithinSelf(vs: seq<Json>, drop: Drop)
    ensures ItemsWithin(vs, vs, drop)
    decreases vs, 0
  {
    hide Within;
    if vs != [] {
      WithinSelf(vs[0], drop);
      ItemsWithinSelf(vs[1..], drop);
    }
  }

  lemma {:induction false} EntriesWithinSelf(vs: seq<Entry>, drop: Drop)
    ensures EntriesWithin(vs, vs, drop)
    decreases vs, 0
  {
    hide Within;
    if vs != [] {
      WithinSelf(vs[0].child, drop);
      EntriesWithinSelf(vs[1..], drop);
    }
  }

  lemma SameKind(w: Json, v: Json, drop: Drop)
    requires Within(w, v, drop)
    ensures w.Obj? <==> v.Obj?
    ensures w.Arr? <==> v.Arr?
    ensures !v.Obj? && !v.Arr? ==> w == v
  {
    hide ItemsWithin, EntriesWithin;
  }

  lemma {:induction false} WithinTrans(a: Json, b: Json, c: Json, drop: Drop)
    requires Within(a, b, drop) && Within(b, c, drop)
    ensures Within(a, c, drop)
    decreases c, 1
  {
    hide ItemsWithin, EntriesWithin;
    match c {
      case Arr(items) => ItemsTrans(a.items, b.items, items, drop);
      case Obj(entries) => EntriesTrans(a.entries, b.entries, entries, drop);
      case _ =>
    }
  }

  lemma {:induction false} ItemsTrans(a: seq<Json>, b: seq<Json>, c: seq<Json>, drop: Drop)
    requires ItemsWithin(a, b, drop) && ItemsWithin(b, c, drop)
    ensures ItemsWithin(a, c, drop)
    decreases c, 0
  {
    hide Within;
    if c != [] {
      if b != [] && Within(b[0], c[0], drop) && ItemsWithin(b[1..], c[1..], drop) {
        if a != [] && Within(a[0], b[0], drop) && ItemsWithin(a[1..], b[1..], drop) {
          WithinTrans(a[0], b[0], c[0], drop);
          ItemsTrans(a[1..], b[1..], c[1..], drop);
        } else {
          SameKind(b[0], c[0], drop);
          ItemsTrans(a, b[1..], c[1..], drop);
        }
      } else {
        ItemsTrans(a, b, c[1..], drop);
      }
    }
  }

  lemma {:induction false} EntriesTrans(a: seq<Entry>, b: seq<Entry>, c: seq<Entry>, drop: Drop)
    requires EntriesWithin(a, b, drop) && EntriesWithin(b, c, drop)
    ensures EntriesWithin(a, c, drop)
    decreases c, 0
  {
    hide Within;
    if c != [] {
      if b != [] && EntryWithin(b[0], c[0], drop) && EntriesWithin(b[1..], c[1..], drop) {
        if a != [] && EntryWithin(a[0], b[0], drop) && EntriesWithin(a[1..], b[1..], drop) {
          WithinTrans(a[0].child, b[0].child, c[0].child, drop);
          EntriesTrans(a[1..], b[1..], c[1..], drop);
        } else {
          EntriesTrans(a, b[1..], c[1..], drop);
        }
      } else {
        EntriesTrans(a, b, c[1..], drop);
      }
    }
  }

  // ---------------------------------------------------------------- stripping fields

  lemma {:induction false} WithoutFieldsWithin(es: seq<Entry>, fields: set<string>)
    ensures EntriesWithin(WithoutFields(es, fields), es, Anything)
  {
    hide Within;
    if es != [] {
      WithoutFieldsWithin(es[1..], fields);
      WithinSelf(es[0].child, Anything);
    }
  }

  lemma {:induction false} WithoutNamesWithin(items: seq<Json>, fields: set<string>)
    ensures ItemsWithin(WithoutNames(items, fields), items, Anything)
  {
    hide Within;
    if items != [] {
      WithoutNamesWithin(items[1..], fields);
      WithinSelf(items[0], Anything);
    }
  }

  lemma TrimWithin(e: Entry, fields: set<string>)
    ensures Within(TrimEntry(e, fields).child, e.child, Anything)
  {
    hide WithoutFields, WithoutNames, EntriesWithin, ItemsWithin;
    WithinSelf(e.child, Anything);
    if e.child.Obj? { WithoutFieldsWithin(e.child.entries, fields); }
    if e.child.Arr? { WithoutNamesWithin(e.child.items, fields); }
  }

  /** Stripping only leaves out. */
  lemma {:induction false} StripWithin(v: Json, fields: set<string>)
    ensures Within(Strip(v, fields), v, Anything)
    decreases Size(v), 0
  {
    hide EntriesWithin, ItemsWithin;
    match v {
      case Obj(entries) => StripEntriesWithin(entries, fields);
      case Arr(items) => StripItemsWithin(items, fields);
      case _ =>
    }
  }

  lemma {:induction false} StripItemsWithin(items: seq<Json>, fields: set<string>)
    ensures ItemsWithin(StripItems(items, fields), items, Anything)
    decreases ItemsSize(items), |items|
  {
    hide Strip, Within;
    if items != [] {
      StripWithin(items[0], fields);
      StripItemsWithin(items[1..], fields);
    }
  }

  lemma {:induction false} StripEntriesWithin(es: seq<Entry>, fields: set<string>)
    ensures EntriesWithin(StripEntries(es, fields), es, Anything)
    decreases EntriesSize(es), |es|
  {
    hide Strip, Within, TrimEntry;
    if es != [] {
      var e := TrimEntry(es[0], fields);
      TrimWithin(es[0], fields);
      StripWithin(e.child, fields);
      WithinTrans(Strip(e.child, fields), e.child, es[0].child, Anything);
      StripEntriesWithin(es[1..], fields);
    }
  }

  predicate KeysOutside(ws: seq<Entry>, fields: set<string>) {
    forall i :: 0 <= i < |ws| ==> ws[i].key !in fields
  }

  predicate NoneNames(ws: seq<Json>, fields: set<string>) {
    forall i :: 0 <= i < |ws| ==> !Names(ws[i], fields)
  }

  lemma {:induction false} FieldsLargest(ws: seq<Entry>, es: seq<Entry>, fields: set<string>)
    requires EntriesWithin(ws, es, Anything) && KeysOutside(ws, fields)
    ensures EntriesWithin(ws, WithoutFields(es, fields), Anything)
    decreases |es|
  {
    hide Within;
    if es != [] {
      if ws != [] && EntryWithin(ws[0], es[0], Anything) && EntriesWithin(ws[1..], es[1..], Anything) {
        FieldsLargest(ws[1..], es[1..], fields);
      } else {
        FieldsLargest(ws, es[1..], fields);
      }
    }
  }

  lemma {:induction false} NamesLargest(ws: seq<Json>, items: seq<Json>, fields: set<string>)
    requires ItemsWithin(ws, items, Anything) && NoneNames(ws, fields)
    ensures ItemsWithin(ws, WithoutNames(items, fields), Anything)
    decreases |items|
  {
    hide Within;
    if items != [] {
      if ws != [] && Within(ws[0], items[0], Anything) && ItemsWithin(ws[1..], items[1..], Anything) {
        SameKind(ws[0], items[0], Anything);
        assert !Names(ws[0], fields);
        NamesLargest(ws[1..], items[1..], fields);
      } else {
        NamesLargest(ws, items[1..], fields);
      }
    }
  }

  lemma TrimLargest(w: Entry, e: Entry, fields: set<string>)
    requires w.key == e.key && CleanEntry(w, fields) && Within(w.child, e.child, Anything)
    ensures Within(w.child, TrimEntry(e, fields).child, Anything)
  {
    hide WithoutFields, WithoutNames, EntriesWithin, ItemsWithin;
    if e.key == "properties" && e.child.Obj? {
      FieldsLargest(w.child.entries, e.child.entries, fields);
    }
    if e.key == "required" && e.child.Arr? {
      NamesLargest(w.child.items, e.child.items, fields);
    }
  }

  predicate CleanEntries(ws: seq<Entry>, fields: set<string>) {
    forall i :: 0 <= i < |ws| ==> CleanEntry(ws[i], fields) && CleanFields(ws[i].child, fields)
  }

  predicate CleanItems(ws: seq<Json>, fields: set<string>) {
    forall i :: 0 <= i < |ws| ==> CleanFields(ws[i], fields)
  }

  /** Whatever part of a value is free of experimental fields is still there after stripping. */
  lemma {:induction false} StripIsLargest(w: Json, v: Json, fields: set<string>)
    requires CleanFields(w, fields) && Within(w, v, Anything)
    ensures Within(w, Strip(v, fields), Anything)
    decreases Size(v), 0
  {
    hide EntriesWithin, ItemsWithin;
    match v {
      case Obj(entries) =>
        assert CleanEntries(w.entries, fields);
        StripEntriesLargest(w.entries, entries, fields);
      case Arr(items) =>
        assert CleanItems(w.items, fields);
        StripItemsLargest(w.items, items, fields);
      case _ =>
    }
  }

  lemma {:induction false} StripItemsLargest(ws: seq<Json>, items: seq<Json>, fields: set<string>)
    requires CleanItems(ws, fields) && ItemsWithin(ws, items, Anything)
    ensures ItemsWithin(ws, StripItems(items, fields), Anything)
    decreases ItemsSize(items), |items|
  {
    hide Strip, Within, CleanFields;
    if items != [] {
      if ws != [] && Within(ws[0], items[0], Anything) && ItemsWithin(ws[1..], items[1..], Anything) {
        StripIsLargest(ws[0], items[0], fields);
        StripItemsLargest(ws[1..], items[1..], fields);
      } else {
        StripItemsLargest(ws, items[1..], fields);
      }
    }
  }

  lemma {:induction false} StripEntriesLargest(ws: seq<Entry>, es: seq<Entry>, fields: set<string>)
    requires CleanEntries(ws, fields) && EntriesWithin(ws, es, Anything)
    ensures EntriesWithin(ws, StripEntries(es, fields), Anything)
    decreases EntriesSize(es), |es|
  {
    hide Strip, Within, CleanFields, CleanEntry, TrimEntry;
    if es != [] {
      if ws != [] && EntryWithin(ws[0], es[0], Anything) && EntriesWithin(ws[1..], es[1..], Anything) {
        TrimLargest(ws[0], es[0], fields);
        StripIsLargest(ws[0].child, TrimEntry(es[0], fields).child, fields);
        StripEntriesLargest(ws[1..], es[1..], fields);
      } else {
        StripEntriesLargest(ws, es[1..], fields);
      }
    }
  }

  // ---------------------------------------------------------------- pruning methods

  lemma VariantIsObject(v: Json, methods: set<string>)
    requires IsVariant(v, methods)
    ensures v.Obj?
  {
  }

  /** Pruning only leaves out items that are objects. */
  lemma {:induction false} PruneWithin(v: Json, methods: set<string>)
    ensures Within(Prune(v, methods), v, Objects)
    decreases v, 1
  {
    hide ItemsWithin, EntriesWithin, PruneItems, PruneEntries;
    match v {
      case Arr(items) => PruneItemsWithin(items, methods);
      case Obj(entries) => PruneEntriesWithin(entries, methods);
      case _ =>
    }
  }

  lemma {:induction false} PruneItemsWithin(items: seq<Json>, methods: set<string>)
    ensures ItemsWithin(PruneItems(items, methods), items, Objects)
    decreases items, 0
  {
    hide Within, Prune, IsVariant;
    if items != [] {
      PruneItemsWithin(items[1..], methods);
      var all, rest := PruneItems(items, methods), PruneItems(items[1..], methods);
      if IsVariant(items[0], methods) {
        VariantIsObject(items[0], methods);
        assert all == rest;
      } else {
        PruneWithin(items[0], methods);
        assert all[1..] == rest;
      }
    }
  }

  lemma {:induction false} PruneEntriesWithin(es: seq<Entry>, methods: set<string>)
    ensures EntriesWithin(PruneEntries(es, methods), es, Objects)
    decreases es, 0
  {
    hide Within, Prune;
    if es != [] {
      PruneWithin(es[0].child, methods);
      PruneEntriesWithin(es[1..], methods);
    }
  }

  lemma {:induction false} GetWithin(ws: seq<Entry>, es: seq<Entry>, key: string)
    requires EntriesWithin(ws, es, Objects) && Get(es, key).Some?
    ensures Get(ws, key).Some? && Within(Get(ws, key).value, Get(es, key).value, Objects)
  {
    hide Within;
    if es[0].key != key {
      GetWithin(ws[1..], es[1..], key);
    }
  }

  lemma {:induction false} NoneWithin(ws: seq<Entry>, es: seq<Entry>, key: string)
    requires EntriesWithin(ws, es, Objects) && Get(es, key).None?
    ensures Get(ws, key).None?
  {
    hide Within;
    if es != [] {
      NoneWithin(ws[1..], es[1..], key);
    }
  }

  lemma ObjectWithin(ws: seq<Entry>, es: seq<Entry>, key: string)
    requires EntriesWithin(ws, es, Objects) && GetObject(es, key).Some?
    ensures GetObject(ws, key).Some? && EntriesWithin(GetObject(ws, key).value, GetObject(es, key).value, Objects)
  {
    hide Get, EntriesWithin;
    GetWithin(ws, es, key);
  }

  lemma ConstWithin(ws: seq<Entry>, es: seq<Entry>)
    requires EntriesWithin(ws, es, Objects)
    ensures ConstText(ws) == ConstText(es)
  {
    hide Get, EntriesWithin;
    if Get(es, "const").Some? {
      GetWithin(ws, es, "const");
      SameKind(Get(ws, "const").value, Get(es, "const").value, Objects);
    } else {
      NoneWithin(ws, es, "const");
    }
  }

  lemma OneNameWithin(ws: seq<Json>, items: seq<Json>, methods: set<string>)
    requires ItemsWithin(ws, items, Objects) && OnlyNames(items, methods)
    ensures OnlyNames(ws, methods)
  {
    hide Within;
    SameKind(ws[0], items[0], Objects);
    assert items[1..] == [];
  }

  /** No part of an experimental method ceases to be one without losing a name. */
  lemma VariantWithin(w: Json, v: Json, methods: set<string>)
    requires Within(w, v, Objects) && IsVariant(v, methods)
    ensures IsVariant(w, methods)
  {
    hide Get, EntriesWithin, OnlyNames, ItemsWithin, ConstText;
    ObjectWithin(w.entries, v.entries, "properties");
    var properties := GetObject(v.entries, "properties").value;
    ObjectWithin(GetObject(w.entries, "properties").value, properties, "method");
    var schema, schema' := GetObject(properties, "method").value, MethodSchema(w).value;
    ConstWithin(schema', schema);
    if ConstText(schema).None? {
      GetWithin(schema', schema, "enum");
      OneNameWithin(EnumItems(schema').value, EnumItems(schema).value, methods);
    }
  }

  predicate CleanMethodItems(ws: seq<Json>, methods: set<string>) {
    forall i :: 0 <= i < |ws| ==> !IsVariant(ws[i], methods) && CleanMethods(ws[i], methods)
  }

  predicate CleanMethodEntries(ws: seq<Entry>, methods: set<string>) {
    forall i :: 0 <= i < |ws| ==> CleanMethods(ws[i].child, methods)
  }

  /** Whatever can be had from a value by leaving out objects from arrays, and is free of
      experimental methods, is still there after pruning. */
  lemma {:induction false} PruneIsLargest(w: Json, v: Json, methods: set<string>)
    requires CleanMethods(w, methods) && Within(w, v, Objects)
    ensures Within(w, Prune(v, methods), Objects)
    decreases v, 1
  {
    hide EntriesWithin, ItemsWithin, PruneItems, PruneEntries, IsVariant;
    match v {
      case Obj(entries) =>
        assert CleanMethodEntries(w.entries, methods);
        PruneEntriesLargest(w.entries, entries, methods);
      case Arr(items) =>
        assert CleanMethodItems(w.items, methods);
        PruneItemsLargest(w.items, items, methods);
      case _ =>
    }
  }

  lemma {:induction false} PruneItemsLargest(ws: seq<Json>, items: seq<Json>, methods: set<string>)
    requires CleanMethodItems(ws, methods) && ItemsWithin(ws, items, Objects)
    ensures ItemsWithin(ws, PruneItems(items, methods), Objects)
    decreases items, 0
  {
    hide Prune, Within, CleanMethods, IsVariant;
    if items != [] {
      var all, rest := PruneItems(items, methods), PruneItems(items[1..], methods);
      if IsVariant(items[0], methods) {
        assert all == rest;
      } else {
        assert all[0] == Prune(items[0], methods) && all[1..] == rest;
      }
      if ws != [] && Within(ws[0], items[0], Objects) && ItemsWithin(ws[1..], items[1..], Objects) {
        if IsVariant(items[0], methods) {
          VariantWithin(ws[0], items[0], methods);
          assert false;
        }
        PruneIsLargest(ws[0], items[0], methods);
        PruneItemsLargest(ws[1..], items[1..], methods);
      } else {
        PruneShape(items[0], methods);
        PruneItemsLargest(ws, items[1..], methods);
      }
    }
  }

  lemma {:induction false} PruneEntriesLargest(ws: seq<Entry>, es: seq<Entry>, methods: set<string>)
    requires CleanMethodEntries(ws, methods) && EntriesWithin(ws, es, Objects)
    ensures EntriesWithin(ws, PruneEntries(es, methods), Objects)
    decreases es, 0
  {
    hide Prune, Within, CleanMethods;
    if es != [] {
      PruneIsLargest(ws[0].child, es[0].child, methods);
      PruneEntriesLargest(ws[1..], es[1..], methods);
    }
  }

  /** Each pass in one statement: stripping gives the largest part without experimental fields;
      pruning gives, for schemas whose enums hold scalars, the largest part without
      experimental methods. */
  lemma {:induction false} FiltersAreLargest(v: Json, w: Json, fields: set<string>, methods: set<string>)
    ensures Within(Strip(v, fields), v, Anything) && CleanFields(Strip(v, fields), fields)
    ensures CleanFields(w, fields) && Within(w, v, Anything) ==> Within(w, Strip(v, fields), Anything)
    ensures Within(Prune(v, methods), v, Objects) && (ScalarEnums(v) ==> CleanMethods(Prune(v, methods), methods))
    ensures CleanMethods(w, methods) && Within(w, v, Objects) ==> Within(w, Prune(v, methods), Objects)
  {
    hide Within, Strip, Prune, CleanFields, CleanMethods, ScalarEnums, NoLatent;
    StripWithin(v, fields);
    StripCleans(v, fields);
    PruneWithin(v, methods);
    if CleanFields(w, fields) && Within(w, v, Anything) {
      StripIsLargest(w, v, fields);
    }
    if CleanMethods(w, methods) && Within(w, v, Objects) {
      PruneIsLargest(w, v, methods);
    }
    if ScalarEnums(v) {
      ScalarEnumsSuffice(v, methods);
      PruneCleansExactly(v, methods);
    }
  }
}
