/** Removing experimental fields and methods from a generated schema
    (`strip_experimental_fields_recursive`, `prune_experimental_methods_inner` and
    `is_experimental_method_variant` in `crates/app-server-protocol/src/export.rs`). */
module SchemaFilter {
  import opened Text
  import opened JsonTree

  // ---------------------------------------------------------------- sizes, for termination

  function Size(v: Json): nat
    decreases v, 1
  {
    match v
    case Arr(items) => 1 + ItemsSize(items)
    case Obj(entries) => 1 + EntriesSize(entries)
    case _ => 1
  }

  function ItemsSize(items: seq<Json>): nat
    decreases items, 0
  {
    if items == [] then 0 else Size(items[0]) + ItemsSize(items[1..])
  }

  function EntriesSize(es: seq<Entry>): nat
    decreases es, 0
  {
    if es == [] then 0 else Size(es[0].child) + EntriesSize(es[1..])
  }

  // ---------------------------------------------------------------- experimental fields

  /** `props.remove(field)` for every field. */
  function WithoutFields(es: seq<Entry>, fields: set<string>): (r: seq<Entry>)
    ensures EntriesSize(r) <= EntriesSize(es)
  {
    if es == [] then []
    else if es[0].key in fields then WithoutFields(es[1..], fields)
    else [es[0]] + WithoutFields(es[1..], fields)
  }

  predicate Names(v: Json, fields: set<string>) {
    v.Str? && v.text in fields
  }

  /** `required.retain(..)`. */
  function WithoutNames(items: seq<Json>, fields: set<string>): (r: seq<Json>)
    ensures ItemsSize(r) <= ItemsSize(items)
  {
    if items == [] then []
    else if Names(items[0], fields) then WithoutNames(items[1..], fields)
    else [items[0]] + WithoutNames(items[1..], fields)
  }

  /** What a schema object does with one of its own entries before descending. */
  function TrimEntry(e: Entry, fields: set<string>): (r: Entry)
    ensures r.key == e.key && Size(r.child) <= Size(e.child)
  {
    if e.key == "properties" && e.child.Obj? then Entry(e.key, Obj(WithoutFields(e.child.entries, fields)))
    else if e.key == "required" && e.child.Arr? then Entry(e.key, Arr(WithoutNames(e.child.items, fields)))
    else e
  }

  function Strip(v: Json, fields: set<string>): Json
    decreases Size(v), 0
  {
    match v
    case Obj(entries) => Obj(StripEntries(entries, fields))
    case Arr(items) => Arr(StripItems(items, fields))
    case _ => v
  }

  function StripItems(items: seq<Json>, fields: set<string>): (r: seq<Json>)
    ensures |r| == |items|
    decreases ItemsSize(items), |items|
  {
    if items == [] then [] else [Strip(items[0], fields)] + StripItems(items[1..], fields)
  }

  function StripEntries(es: seq<Entry>, fields: set<string>): (r: seq<Entry>)
    ensures |r| == |es|
    decreases EntriesSize(es), |es|
  {
    if es == [] then []
    else
      var e := TrimEntry(es[0], fields);
      [Entry(e.key, Strip(e.child, fields))] + StripEntries(es[1..], fields)
  }

  /** No `properties` object has an experimental key and no `required` array names one, at any depth. */
  predicate CleanFields(v: Json, fields: set<string>)
    decreases v
  {
    match v
    case Obj(entries) =>
      forall i :: 0 <= i < |entries| ==> CleanEntry(entries[i], fields) && CleanFields(entries[i].child, fields)
    case Arr(items) => forall i :: 0 <= i < |items| ==> CleanFields(items[i], fields)
    case _ => true
  }

  predicate CleanEntry(e: Entry, fields: set<string>) {
    && (e.key == "properties" && e.child.Obj? ==>
          forall i :: 0 <= i < |e.child.entries| ==> e.child.entries[i].key !in fields)
    && (e.key == "required" && e.child.Arr? ==>
          forall i :: 0 <= i < |e.child.items| ==> !Names(e.child.items[i], fields))
  }

  lemma {:induction false} WithoutFieldsClean(es: seq<Entry>, fields: set<string>)
    ensures forall i :: 0 <= i < |WithoutFields(es, fields)| ==> WithoutFields(es, fields)[i].key !in fields
  {
    if es != [] { WithoutFieldsClean(es[1..], fields); }
  }

  lemma {:induction false} WithoutNamesClean(items: seq<Json>, fields: set<string>)
    ensures forall i :: 0 <= i < |WithoutNames(items, fields)| ==> !Names(WithoutNames(items, fields)[i], fields)
  {
    if items != [] { WithoutNamesClean(items[1..], fields); }
  }

  lemma TrimmedIsClean(e: Entry, fields: set<string>)
    ensures CleanEntry(TrimEntry(e, fields), fields)
  {
    hide WithoutFields, WithoutNames;
    if e.key == "properties" && e.child.Obj? { WithoutFieldsClean(e.child.entries, fields); }
    if e.key == "required" && e.child.Arr? { WithoutNamesClean(e.child.items, fields); }
  }

  lemma {:induction false} StripItemsAt(items: seq<Json>, fields: set<string>, i: nat)
    requires i < |items|
    ensures StripItems(items, fields)[i] == Strip(items[i], fields)
    decreases i
  {
    hide Strip;
    if i > 0 { StripItemsAt(items[1..], fields, i - 1); }
  }

  lemma {:induction false} StripEntriesAt(es: seq<Entry>, fields: set<string>, i: nat)
    requires i < |es|
    ensures var e := TrimEntry(es[i], fields);
            StripEntries(es, fields)[i] == Entry(e.key, Strip(e.child, fields))
    decreases i
  {
    hide Strip, TrimEntry;
    if i > 0 { StripEntriesAt(es[1..], fields, i - 1); }
  }

  lemma {:induction false} ItemSizeAt(items: seq<Json>, i: nat)
    requires i < |items|
    ensures Size(items[i]) <= ItemsSize(items)
    decreases i
  {
    hide Size;
    if i > 0 { ItemSizeAt(items[1..], i - 1); }
  }

  lemma {:induction false} EntrySizeAt(es: seq<Entry>, i: nat)
    requires i < |es|
    ensures Size(es[i].child) <= EntriesSize(es)
    decreases i
  {
    hide Size;
    if i > 0 { EntrySizeAt(es[1..], i - 1); }
  }

  /** Descending keeps what trimming established: keys and names stay what they are. */
  lemma StripKeepsClean(e: Entry, fields: set<string>)
    requires CleanEntry(e, fields)
    ensures CleanEntry(Entry(e.key, Strip(e.child, fields)), fields)
  {
    if e.child.Obj? {
      hide Strip, StripEntries, TrimEntry;
      forall i | 0 <= i < |e.child.entries|
        ensures StripEntries(e.child.entries, fields)[i].key == e.child.entries[i].key
      {
        StripEntriesAt(e.child.entries, fields, i);
      }
    } else if e.child.Arr? {
      hide Strip, StripItems;
      forall i | 0 <= i < |e.child.items|
        ensures Names(StripItems(e.child.items, fields)[i], fields) <==> Names(e.child.items[i], fields)
      {
        StripItemsAt(e.child.items, fields, i);
      }
    }
  }

  /** Stripping removes every experimental field, at every depth. */
  lemma {:induction false} StripCleans(v: Json, fields: set<string>)
    ensures CleanFields(Strip(v, fields), fields)
    decreases Size(v)
  {
    match v {
      case Obj(entries) =>
        hide Strip, StripEntries, TrimEntry, CleanEntry;
        forall i | 0 <= i < |entries|
          ensures CleanEntry(StripEntries(entries, fields)[i], fields)
               && CleanFields(StripEntries(entries, fields)[i].child, fields)
        {
          var e := TrimEntry(entries[i], fields);
          StripEntriesAt(entries, fields, i);
          EntrySizeAt(entries, i);
          TrimmedIsClean(entries[i], fields);
          StripKeepsClean(e, fields);
          StripCleans(e.child, fields);
        }
      case Arr(items) =>
        hide Strip, StripItems;
        forall i | 0 <= i < |items| ensures CleanFields(StripItems(items, fields)[i], fields) {
          StripItemsAt(items, fields, i);
          ItemSizeAt(items, i);
          StripCleans(items[i], fields);
        }
      case _ =>
    }
  }

  lemma {:induction false} WithoutFieldsFixed(es: seq<Entry>, fields: set<string>)
    requires forall i :: 0 <= i < |es| ==> es[i].key !in fields
    ensures WithoutFields(es, fields) == es
  {
    if es != [] { WithoutFieldsFixed(es[1..], fields); }
  }

  lemma {:induction false} WithoutNamesFixed(items: seq<Json>, fields: set<string>)
    requires forall i :: 0 <= i < |items| ==> !Names(items[i], fields)
    ensures WithoutNames(items, fields) == items
  {
    if items != [] { WithoutNamesFixed(items[1..], fields); }
  }

  lemma TrimFixed(e: Entry, fields: set<string>)
    requires CleanEntry(e, fields)
    ensures TrimEntry(e, fields) == e
  {
    hide WithoutFields, WithoutNames;
    if e.key == "properties" && e.child.Obj? { WithoutFieldsFixed(e.child.entries, fields); }
    if e.key == "required" && e.child.Arr? { WithoutNamesFixed(e.child.items, fields); }
  }

  /** Stripping leaves a clean value as it is. */
  lemma {:induction false} StripFixed(v: Json, fields: set<string>)
    requires CleanFields(v, fields)
    ensures Strip(v, fields) == v
    decreases v
  {
    match v {
      case Obj(entries) =>
        hide Strip, StripEntries, TrimEntry, CleanEntry;
        forall i | 0 <= i < |entries| ensures StripEntries(entries, fields)[i] == entries[i] {
          StripEntriesAt(entries, fields, i);
          TrimFixed(entries[i], fields);
          StripFixed(entries[i].child, fields);
        }
      case Arr(items) =>
        hide Strip, StripItems;
        forall i | 0 <= i < |items| ensures StripItems(items, fields)[i] == items[i] {
          StripItemsAt(items, fields, i);
          StripFixed(items[i], fields);
        }
      case _ =>
    }
  }

  // ---------------------------------------------------------------- experimental methods

  function GetObject(es: seq<Entry>, key: string): Option<seq<Entry>> {
    var v := Get(es, key);
    if v.Some? && v.value.Obj? then Some(v.value.entries) else None
  }

  /** The schema of the `method` property, if the value is an object schema with one. */
  function MethodSchema(v: Json): Option<seq<Entry>> {
    if !v.Obj? then None
    else
      var properties := GetObject(v.entries, "properties");
      if properties.None? then None else GetObject(properties.value, "method")
  }

  function ConstText(schema: seq<Entry>): Option<string> {
    var v := Get(schema, "const");
    if v.Some? && v.value.Str? then Some(v.value.text) else None
  }

  function EnumItems(schema: seq<Entry>): Option<seq<Json>> {
    var v := Get(schema, "enum");
    if v.Some? && v.value.Arr? then Some(v.value.items) else None
  }

  predicate OnlyNames(items: seq<Json>, methods: set<string>) {
    |items| == 1 && Names(items[0], methods)
  }

  /** `is_experimental_method_variant`. */
  predicate IsVariant(v: Json, methods: set<string>) {
    var schema := MethodSchema(v);
    schema.Some? &&
    var text, items := ConstText(schema.value), EnumItems(schema.value);
    if text.Some? then text.value in methods else items.Some? && OnlyNames(items.value, methods)
  }

  function Retain(items: seq<Json>, methods: set<string>): seq<Json> {
    if items == [] then []
    else (if IsVariant(items[0], methods) then [] else [items[0]]) + Retain(items[1..], methods)
  }

  function Prune(v: Json, methods: set<string>): Json
    decreases v, 1
  {
    match v
    case Arr(items) => Arr(PruneItems(items, methods))
    case Obj(entries) => Obj(PruneEntries(entries, methods))
    case _ => v
  }

  /** The items that are kept, each pruned. */
  function PruneItems(items: seq<Json>, methods: set<string>): seq<Json>
    decreases items, 0
  {
    if items == [] then []
    else (if IsVariant(items[0], methods) then [] else [Prune(items[0], methods)]) + PruneItems(items[1..], methods)
  }

  function PruneEntries(es: seq<Entry>, methods: set<string>): (r: seq<Entry>)
    ensures |r| == |es|
    decreases es, 0
  {
    if es == [] then [] else [Entry(es[0].key, Prune(es[0].child, methods))] + PruneEntries(es[1..], methods)
  }

  /** No array at any depth holds an experimental method. */
  predicate CleanMethods(v: Json, methods: set<string>)
    decreases v
  {
    match v
    case Arr(items) => forall i :: 0 <= i < |items| ==> !IsVariant(items[i], methods) && CleanMethods(items[i], methods)
    case Obj(entries) => forall i :: 0 <= i < |entries| ==> CleanMethods(entries[i].child, methods)
    case _ => true
  }

  /** A value that becomes an experimental method by pruning: its `enum` has other items, all
      of them experimental methods themselves, beside one experimental name. */
  predicate Latent(v: Json, methods: set<string>) {
    var schema := MethodSchema(v);
    && schema.Some? && ConstText(schema.value).None?
    && var items := EnumItems(schema.value);
       items.Some? && |items.value| != 1 && OnlyNames(Retain(items.value, methods), methods)
  }

  /** No item that survives is of that kind, at any depth. */
  predicate NoLatent(v: Json, methods: set<string>)
    decreases v
  {
    match v
    case Arr(items) =>
      forall i :: 0 <= i < |items| ==>
        IsVariant(items[i], methods) || (!Latent(items[i], methods) && NoLatent(items[i], methods))
    case Obj(entries) => forall i :: 0 <= i < |entries| ==> NoLatent(entries[i].child, methods)
    case _ => true
  }

  lemma {:induction false} GetPrune(es: seq<Entry>, key: string, methods: set<string>)
    ensures var v := Get(es, key);
            Get(PruneEntries(es, methods), key) == if v.Some? then Some(Prune(v.value, methods)) else None
  {
    hide Prune;
    if es != [] { GetPrune(es[1..], key, methods); }
  }

  lemma PruneShape(v: Json, methods: set<string>)
    ensures Prune(v, methods).Obj? <==> v.Obj?
    ensures Prune(v, methods).Arr? <==> v.Arr?
    ensures v.Obj? ==> Prune(v, methods) == Obj(PruneEntries(v.entries, methods))
    ensures v.Arr? ==> Prune(v, methods) == Arr(PruneItems(v.items, methods))
    ensures !v.Obj? && !v.Arr? ==> Prune(v, methods) == v
  {
  }

  lemma GetObjectPrune(es: seq<Entry>, key: string, methods: set<string>)
    ensures var o := GetObject(es, key);
            GetObject(PruneEntries(es, methods), key) == if o.Some? then Some(PruneEntries(o.value, methods)) else None
  {
    hide Get, Prune, PruneEntries;
    GetPrune(es, key, methods);
    var v := Get(es, key);
    if v.Some? { PruneShape(v.value, methods); }
  }

  lemma MethodSchemaPrune(v: Json, methods: set<string>)
    ensures var schema := MethodSchema(v);
            MethodSchema(Prune(v, methods)) == if schema.Some? then Some(PruneEntries(schema.value, methods)) else None
  {
    hide Prune, PruneEntries, GetObject;
    PruneShape(v, methods);
    if v.Obj? {
      GetObjectPrune(v.entries, "properties", methods);
      var properties := GetObject(v.entries, "properties");
      if properties.Some? { GetObjectPrune(properties.value, "method", methods); }
    }
  }

  lemma SchemaPrune(schema: seq<Entry>, methods: set<string>)
    ensures ConstText(PruneEntries(schema, methods)) == ConstText(schema)
    ensures var items := EnumItems(schema);
            EnumItems(PruneEntries(schema, methods))
            == if items.Some? then Some(PruneItems(items.value, methods)) else None
  {
    hide Get, Prune, PruneEntries;
    GetPrune(schema, "const", methods);
    GetPrune(schema, "enum", methods);
    var c, e := Get(schema, "const"), Get(schema, "enum");
    if c.Some? { PruneShape(c.value, methods); }
    if e.Some? { PruneShape(e.value, methods); }
  }

  lemma {:induction false} PruneItemsNames(items: seq<Json>, methods: set<string>)
    ensures |PruneItems(items, methods)| == |Retain(items, methods)|
    ensures OnlyNames(PruneItems(items, methods), methods) <==> OnlyNames(Retain(items, methods), methods)
    ensures forall i :: 0 <= i < |Retain(items, methods)| ==>
      PruneItems(items, methods)[i] == Prune(Retain(items, methods)[i], methods)
  {
    hide Prune, IsVariant;
    if items != [] {
      PruneItemsNames(items[1..], methods);
    }
    assert |Retain(items, methods)| == 1 ==>
      (Names(PruneItems(items, methods)[0], methods) <==> Names(Retain(items, methods)[0], methods)) by {
      if |Retain(items, methods)| == 1 { PruneShape(Retain(items, methods)[0], methods); }
    }
  }

  lemma OneNameStays(items: seq<Json>, methods: set<string>)
    requires |items| == 1
    ensures OnlyNames(Retain(items, methods), methods) <==> OnlyNames(items, methods)
  {
    hide IsVariant;
    assert items[1..] == [] && Retain(items[1..], methods) == [];
    if items[0].Str? { TextIsNoVariant(items[0], methods); }
  }

  lemma TextIsNoVariant(v: Json, methods: set<string>)
    requires v.Str?
    ensures !IsVariant(v, methods)
  {
  }

  /** Pruning a value that is not an experimental method makes it one exactly in the latent case. */
  lemma PruneMakesVariantExactly(v: Json, methods: set<string>)
    requires !IsVariant(v, methods)
    ensures IsVariant(Prune(v, methods), methods) <==> Latent(v, methods)
  {
    hide Prune, PruneEntries, PruneItems, ConstText, EnumItems, MethodSchema, Retain, OnlyNames;
    MethodSchemaPrune(v, methods);
    var schema := MethodSchema(v);
    if schema.Some? {
      SchemaPrune(schema.value, methods);
      var items := EnumItems(schema.value);
      if items.Some? {
        PruneItemsNames(items.value, methods);
        if |items.value| == 1 { OneNameStays(items.value, methods); }
      }
    }
  }

  lemma {:induction false} PruneEntriesAt(es: seq<Entry>, methods: set<string>, i: nat)
    requires i < |es|
    ensures PruneEntries(es, methods)[i] == Entry(es[i].key, Prune(es[i].child, methods))
    decreases i
  {
    hide Prune;
    if i > 0 { PruneEntriesAt(es[1..], methods, i - 1); }
  }

  /** Where a kept item ends up. */
  lemma {:induction false} KeptItem(items: seq<Json>, methods: set<string>, i: nat) returns (k: nat)
    requires i < |items| && !IsVariant(items[i], methods)
    ensures k < |PruneItems(items, methods)| && PruneItems(items, methods)[k] == Prune(items[i], methods)
    decreases i
  {
    hide Prune, IsVariant;
    if i == 0 {
      k := 0;
    } else {
      k := KeptItem(items[1..], methods, i - 1);
      k := k + if IsVariant(items[0], methods) then 0 else 1;
    }
  }

  /** Where an item of the result comes from. */
  lemma {:induction false} ItemSource(items: seq<Json>, methods: set<string>, k: nat) returns (i: nat)
    requires k < |PruneItems(items, methods)|
    ensures i < |items| && !IsVariant(items[i], methods) && PruneItems(items, methods)[k] == Prune(items[i], methods)
    decreases |items|
  {
    hide Prune, IsVariant;
    if !IsVariant(items[0], methods) && k == 0 {
      i := 0;
    } else {
      i := ItemSource(items[1..], methods, k - if IsVariant(items[0], methods) then 0 else 1);
      i := i + 1;
    }
  }

  /** The result holds no experimental method exactly when nothing latent survived. */
  lemma {:induction false} PruneCleansExactly(v: Json, methods: set<string>)
    ensures CleanMethods(Prune(v, methods), methods) <==> NoLatent(v, methods)
    decreases v
  {
    PruneShape(v, methods);
    match v {
      case Arr(items) =>
        hide Prune, PruneItems, IsVariant, Latent;
        PruneArrayCleans(v, methods);
      case Obj(entries) =>
        hide Prune, PruneEntries;
        forall i | 0 <= i < |entries|
          ensures CleanMethods(PruneEntries(entries, methods)[i].child, methods)
             <==> NoLatent(entries[i].child, methods)
        {
          PruneEntriesAt(entries, methods, i);
          PruneCleansExactly(entries[i].child, methods);
        }
      case _ =>
    }
  }

  lemma {:induction false} PruneArrayCleans(v: Json, methods: set<string>)
    requires v.Arr?
    ensures CleanMethods(Arr(PruneItems(v.items, methods)), methods) <==> NoLatent(v, methods)
    decreases v, 0
  {
    hide Prune, PruneItems, IsVariant, Latent;
    var items, pruned := v.items, PruneItems(v.items, methods);
    if NoLatent(v, methods) {
      forall k | 0 <= k < |pruned| ensures !IsVariant(pruned[k], methods) && CleanMethods(pruned[k], methods) {
        var i := ItemSource(items, methods, k);
        PruneMakesVariantExactly(items[i], methods);
        PruneCleansExactly(items[i], methods);
      }
    }
    if CleanMethods(Arr(pruned), methods) {
      forall i | 0 <= i < |items| && !IsVariant(items[i], methods)
        ensures !Latent(items[i], methods) && NoLatent(items[i], methods)
      {
        var k := KeptItem(items, methods, i);
        PruneMakesVariantExactly(items[i], methods);
        PruneCleansExactly(items[i], methods);
      }
    }
  }

  predicate ItemsFixed(items: seq<Json>, methods: set<string>) {
    forall i :: 0 <= i < |items| ==> !IsVariant(items[i], methods) && Prune(items[i], methods) == items[i]
  }

  lemma {:induction false} PruneShortens(items: seq<Json>, methods: set<string>)
    ensures |PruneItems(items, methods)| <= |items|
  {
    hide Prune, IsVariant;
    if items != [] { PruneShortens(items[1..], methods); }
  }

  /** An array survives pruning as it is exactly when it holds no variant and its items do. */
  lemma {:induction false} PruneItemsFixed(items: seq<Json>, methods: set<string>)
    ensures PruneItems(items, methods) == items <==> ItemsFixed(items, methods)
  {
    hide Prune, IsVariant;
    if items != [] {
      var rest := items[1..];
      PruneItemsFixed(rest, methods);
      PruneShortens(rest, methods);
      assert items == [items[0]] + rest;
      if PruneItems(items, methods) == items {
        assert !IsVariant(items[0], methods);
        assert PruneItems(items, methods)[0] == Prune(items[0], methods);
        assert PruneItems(items, methods)[1..] == PruneItems(rest, methods);
        forall i | 0 <= i < |items| ensures !IsVariant(items[i], methods) && Prune(items[i], methods) == items[i] {
          if i > 0 { assert items[i] == rest[i - 1]; }
        }
      }
      if ItemsFixed(items, methods) {
        assert ItemsFixed(rest, methods);
      }
    }
  }

  /** Pruning leaves exactly the clean values as they are. */
  lemma {:induction false} PruneFixed(v: Json, methods: set<string>)
    ensures Prune(v, methods) == v <==> CleanMethods(v, methods)
    decreases v
  {
    PruneShape(v, methods);
    match v {
      case Arr(items) =>
        hide Prune, PruneItems, IsVariant;
        PruneItemsFixed(items, methods);
        forall i | 0 <= i < |items| ensures Prune(items[i], methods) == items[i] <==> CleanMethods(items[i], methods) {
          PruneFixed(items[i], methods);
        }
      case Obj(entries) =>
        hide Prune, PruneEntries;
        var pruned := PruneEntries(entries, methods);
        forall i | 0 <= i < |entries| ensures pruned[i] == entries[i] <==> CleanMethods(entries[i].child, methods) {
          PruneEntriesAt(entries, methods, i);
          PruneFixed(entries[i].child, methods);
        }
        assert pruned == entries <==> forall i :: 0 <= i < |entries| ==> pruned[i] == entries[i];
      case _ =>
    }
  }

  /** Pruning brings no experimental field back. */
  lemma {:induction false} PruneKeepsCleanFields(v: Json, fields: set<string>, methods: set<string>)
    requires CleanFields(v, fields)
    ensures CleanFields(Prune(v, methods), fields)
    decreases v
  {
    PruneShape(v, methods);
    match v {
      case Arr(items) =>
        hide Prune, PruneItems, IsVariant;
        forall k | 0 <= k < |PruneItems(items, methods)| ensures CleanFields(PruneItems(items, methods)[k], fields) {
          var i := ItemSource(items, methods, k);
          PruneKeepsCleanFields(items[i], fields, methods);
        }
      case Obj(entries) =>
        hide Prune, PruneEntries, CleanEntry;
        forall i | 0 <= i < |entries|
          ensures CleanEntry(PruneEntries(entries, methods)[i], fields)
               && CleanFields(PruneEntries(entries, methods)[i].child, fields)
        {
          PruneEntriesAt(entries, methods, i);
          PruneKeepsCleanEntry(entries[i], fields, methods);
          PruneKeepsCleanFields(entries[i].child, fields, methods);
        }
      case _ =>
    }
  }

  lemma PruneKeepsCleanEntry(e: Entry, fields: set<string>, methods: set<string>)
    requires CleanEntry(e, fields)
    ensures CleanEntry(Entry(e.key, Prune(e.child, methods)), fields)
  {
    hide Prune, PruneEntries, PruneItems, IsVariant;
    PruneShape(e.child, methods);
    if e.child.Obj? {
      forall i | 0 <= i < |e.child.entries|
        ensures PruneEntries(e.child.entries, methods)[i].key == e.child.entries[i].key
      {
        PruneEntriesAt(e.child.entries, methods, i);
      }
    } else if e.child.Arr? && e.key == "required" {
      forall k | 0 <= k < |PruneItems(e.child.items, methods)|
        ensures !Names(PruneItems(e.child.items, methods)[k], fields)
      {
        var i := ItemSource(e.child.items, methods, k);
        PruneShape(e.child.items[i], methods);
      }
    }
  }

  // ---------------------------------------------------------------- both passes

  /** The two recursive passes; empty method names are ignored. */
  function FilterSchema(v: Json, fields: set<string>, methods: set<string>): Json {
    Prune(Strip(v, fields), methods - {""})
  }

  /** After both passes no experimental field is left. No experimental method is left, and a
      second run changes nothing, each exactly when nothing latent was among the items kept. */
  lemma {:induction false} FilterSchemaExactly(v: Json, fields: set<string>, methods: set<string>)
    ensures var w := FilterSchema(v, fields, methods);
            && CleanFields(w, fields)
            && (CleanMethods(w, methods - {""}) <==> NoLatent(Strip(v, fields), methods - {""}))
            && (FilterSchema(w, fields, methods) == w <==> NoLatent(Strip(v, fields), methods - {""}))
  {
    hide Strip, Prune, CleanFields, CleanMethods, NoLatent;
    var ms := methods - {""};
    var w := FilterSchema(v, fields, methods);
    StripCleans(v, fields);
    PruneKeepsCleanFields(Strip(v, fields), fields, ms);
    PruneCleansExactly(Strip(v, fields), ms);
    StripFixed(w, fields);
    PruneFixed(w, ms);
  }

  // ---------------------------------------------------------------- a method one run leaves behind

  /** An object schema with one `method` property. */
  function Variant(e: Entry): Json {
    Obj([Entry("properties", Obj([Entry("method", Obj([e]))]))])
  }

  lemma VariantSchema(e: Entry)
    ensures MethodSchema(Variant(e)) == Some([e])
  {
    assert Get([Entry("method", Obj([e]))], "method") == Some(Obj([e]));
  }

  lemma GetOther(e: Entry, key: string)
    ensures Get([e], key) == if e.key == key then Some(e.child) else None
  {
    assert [e][1..] == [];
  }

  lemma EnumVariant(items: seq<Json>, methods: set<string>)
    ensures IsVariant(Variant(Entry("enum", Arr(items))), methods) <==> OnlyNames(items, methods)
  {
    hide Get, Variant, OnlyNames;
    var e := Entry("enum", Arr(items));
    VariantSchema(e);
    assert "enum"[0] != "const"[0];
    GetOther(e, "const");
    GetOther(e, "enum");
  }

  lemma ConstVariant(m: string, methods: set<string>)
    ensures IsVariant(Variant(Entry("const", Str(m))), methods) <==> m in methods
  {
    hide Get, Variant;
    VariantSchema(Entry("const", Str(m)));
    GetOther(Entry("const", Str(m)), "const");
  }

  lemma PruneOneEntry(e: Entry, methods: set<string>)
    ensures PruneEntries([e], methods) == [Entry(e.key, Prune(e.child, methods))]
  {
    assert [e][1..] == [];
  }

  lemma PruneVariant(items: seq<Json>, methods: set<string>)
    ensures Prune(Variant(Entry("enum", Arr(items))), methods)
         == Variant(Entry("enum", Arr(PruneItems(items, methods))))
  {
    hide PruneItems, PruneEntries;
    var e := Entry("enum", Arr(items));
    PruneOneEntry(e, methods);
    PruneOneEntry(Entry("method", Obj([e])), methods);
    PruneOneEntry(Entry("properties", Obj([Entry("method", Obj([e]))])), methods);
  }

  /** Items are dropped before their own enums are pruned, so an enum can shrink to a single
      experimental name too late; a second run then removes the item. */
  lemma OneRunCanLeaveMethod(m: string, methods: set<string>)
    requires m in methods
    ensures var hidden := Variant(Entry("enum", Arr([Str(m), Variant(Entry("const", Str(m)))])));
            var left := Arr([Variant(Entry("enum", Arr([Str(m)])))]);
            && Prune(Arr([hidden]), methods) == left
            && !CleanMethods(left, methods)
            && Prune(left, methods) == Arr([])
  {
    hide Prune, Variant, IsVariant;
    var inner := Variant(Entry("const", Str(m)));
    var items := [Str(m), inner];
    var hidden, bare := Variant(Entry("enum", Arr(items))), Variant(Entry("enum", Arr([Str(m)])));
    ConstVariant(m, methods);
    EnumVariant(items, methods);
    EnumVariant([Str(m)], methods);
    assert items[1..] == [inner] && [inner][1..] == [];
    assert PruneItems([inner], methods) == [];
    ScalarKept(m, methods);
    assert PruneItems(items, methods) == [Str(m)];
    PruneVariant(items, methods);
    assert [hidden][1..] == [] && [bare][1..] == [];
    PruneShape(Arr([hidden]), methods);
    PruneShape(Arr([bare]), methods);
    assert PruneItems([hidden], methods) == [bare];
    assert PruneItems([bare], methods) == [];
  }

  lemma ScalarKept(m: string, methods: set<string>)
    ensures !IsVariant(Str(m), methods) && Prune(Str(m), methods) == Str(m)
  {
  }

  // ---------------------------------------------------------------- enums of scalars

  /** Every array under an `enum` key holds scalars only, as schema generation emits them. */
  predicate ScalarEnums(v: Json)
    decreases v
  {
    match v
    case Arr(items) => forall i :: 0 <= i < |items| ==> ScalarEnums(items[i])
    case Obj(entries) =>
      forall i :: 0 <= i < |entries| ==>
        && ScalarEnums(entries[i].child)
        && (entries[i].key == "enum" && entries[i].child.Arr? ==> Scalars(entries[i].child.items))
    case _ => true
  }

  predicate Scalars(items: seq<Json>) {
    forall i :: 0 <= i < |items| ==> !items[i].Obj? && !items[i].Arr?
  }

  lemma {:induction false} GetIsEntry(es: seq<Entry>, key: string) returns (i: nat)
    requires Get(es, key).Some?
    ensures i < |es| && es[i] == Entry(key, Get(es, key).value)
  {
    if es[0].key == key { i := 0; } else { i := GetIsEntry(es[1..], key); i := i + 1; }
  }

  lemma {:induction false} RetainScalars(items: seq<Json>, methods: set<string>)
    requires Scalars(items)
    ensures Retain(items, methods) == items
  {
    if items != [] { RetainScalars(items[1..], methods); }
  }

  lemma ScalarEnumsNotLatent(v: Json, methods: set<string>)
    requires ScalarEnums(v)
    ensures !Latent(v, methods)
  {
    hide Retain, OnlyNames, Get, Scalars;
    if Latent(v, methods) {
      var p := GetIsEntry(v.entries, "properties");
      var properties := v.entries[p].child;
      assert ScalarEnums(properties);
      var m := GetIsEntry(properties.entries, "method");
      var schema := properties.entries[m].child;
      assert ScalarEnums(schema);
      var e := GetIsEntry(schema.entries, "enum");
      RetainScalars(schema.entries[e].child.items, methods);
      OneOnly(schema.entries[e].child.items, methods);
      assert false;
    }
  }

  lemma OneOnly(items: seq<Json>, methods: set<string>)
    ensures OnlyNames(items, methods) ==> |items| == 1
  {
  }

  /** Schemas whose enums hold scalars are filtered completely, in one run. */
  lemma {:induction false} ScalarEnumsSuffice(v: Json, methods: set<string>)
    requires ScalarEnums(v)
    ensures NoLatent(v, methods)
    decreases v
  {
    hide Latent, IsVariant, Scalars;
    match v {
      case Arr(items) =>
        forall i | 0 <= i < |items| ensures !Latent(items[i], methods) && NoLatent(items[i], methods) {
          ScalarEnumsNotLatent(items[i], methods);
          ScalarEnumsSuffice(items[i], methods);
        }
      case Obj(entries) =>
        forall i | 0 <= i < |entries| ensures NoLatent(entries[i].child, methods) {
          ScalarEnumsSuffice(entries[i].child, methods);
        }
      case _ =>
    }
  }

  lemma {:induction false} WithoutFieldsSource(es: seq<Entry>, fields: set<string>, k: nat) returns (i: nat)
    requires k < |WithoutFields(es, fields)|
    ensures i < |es| && WithoutFields(es, fields)[k] == es[i]
  {
    if es[0].key !in fields && k == 0 {
      i := 0;
    } else {
      i := WithoutFieldsSource(es[1..], fields, k - if es[0].key in fields then 0 else 1);
      i := i + 1;
    }
  }

  lemma {:induction false} WithoutNamesSource(items: seq<Json>, fields: set<string>, k: nat) returns (i: nat)
    requires k < |WithoutNames(items, fields)|
    ensures i < |items| && WithoutNames(items, fields)[k] == items[i]
  {
    if !Names(items[0], fields) && k == 0 {
      i := 0;
    } else {
      i := WithoutNamesSource(items[1..], fields, k - if Names(items[0], fields) then 0 else 1);
      i := i + 1;
    }
  }

  lemma TrimKeepsScalarEnums(e: Entry, fields: set<string>)
    requires ScalarEnums(e.child)
    ensures ScalarEnums(TrimEntry(e, fields).child)
    ensures e.key == "enum" ==> TrimEntry(e, fields) == e
  {
    hide WithoutFields, WithoutNames;
    if e.key == "properties" && e.child.Obj? {
      var es := WithoutFields(e.child.entries, fields);
      forall k | 0 <= k < |es|
        ensures ScalarEnums(es[k].child) && (es[k].key == "enum" && es[k].child.Arr? ==> Scalars(es[k].child.items))
      {
        var i := WithoutFieldsSource(e.child.entries, fields, k);
      }
    } else if e.key == "required" && e.child.Arr? {
      var items := WithoutNames(e.child.items, fields);
      forall k | 0 <= k < |items| ensures ScalarEnums(items[k]) {
        var i := WithoutNamesSource(e.child.items, fields, k);
      }
    }
  }

  lemma ScalarsStripped(items: seq<Json>, fields: set<string>)
    requires Scalars(items)
    ensures StripItems(items, fields) == items
  {
    hide StripItems;
    forall i | 0 <= i < |items| ensures StripItems(items, fields)[i] == items[i] {
      StripItemsAt(items, fields, i);
    }
  }

  lemma {:induction false} StripKeepsScalarEnums(v: Json, fields: set<string>)
    requires ScalarEnums(v)
    ensures ScalarEnums(Strip(v, fields))
    decreases Size(v)
  {
    match v {
      case Obj(entries) =>
        hide Strip, StripEntries, TrimEntry, Scalars, StripItems;
        var stripped := StripEntries(entries, fields);
        forall i | 0 <= i < |entries|
          ensures ScalarEnums(stripped[i].child)
               && (stripped[i].key == "enum" && stripped[i].child.Arr? ==> Scalars(stripped[i].child.items))
        {
          var e := TrimEntry(entries[i], fields);
          StripEntriesAt(entries, fields, i);
          EntrySizeAt(entries, i);
          TrimKeepsScalarEnums(entries[i], fields);
          StripKeepsScalarEnums(e.child, fields);
          if e.key == "enum" { StripKeepsEnum(e.child, fields); }
        }
      case Arr(items) =>
        hide Strip, StripItems;
        forall i | 0 <= i < |items| ensures ScalarEnums(StripItems(items, fields)[i]) {
          StripItemsAt(items, fields, i);
          ItemSizeAt(items, i);
          StripKeepsScalarEnums(items[i], fields);
        }
      case _ =>
    }
  }

  lemma StripKeepsEnum(v: Json, fields: set<string>)
    ensures Strip(v, fields).Arr? ==> v.Arr?
    ensures v.Arr? && Scalars(v.items) ==> Strip(v, fields) == v
  {
    if v.Arr? && Scalars(v.items) { ScalarsStripped(v.items, fields); }
  }

  /** Schemas whose enums hold scalars lose every experimental field and method, and a second
      run changes nothing. */
  lemma {:induction false} FilterSchemaComplete(v: Json, fields: set<string>, methods: set<string>)
    requires ScalarEnums(v)
    ensures var w := FilterSchema(v, fields, methods);
            && CleanFields(w, fields)
            && CleanMethods(w, methods - {""})
            && FilterSchema(w, fields, methods) == w
  {
    hide Strip, Prune, CleanFields, CleanMethods, NoLatent, ScalarEnums, FilterSchema;
    StripKeepsScalarEnums(v, fields);
    ScalarEnumsSuffice(Strip(v, fields), methods - {""});
    FilterSchemaExactly(v, fields, methods);
  }

  // ---------------------------------------------------------------- the procedures

  lemma {:induction false} RetainedItem(items: seq<Json>, methods: set<string>, k: nat)
    requires k < |Retain(items, methods)|
    ensures Retain(items, methods)[k] in items
  {
    hide IsVariant;
    if items != [] {
      if IsVariant(items[0], methods) {
        RetainedItem(items[1..], methods, k);
      } else if k > 0 {
        RetainedItem(items[1..], methods, k - 1);
      }
    }
  }

  /** `prune_experimental_methods_inner`: retain, then descend into what is left. */
  method PruneMethods(v: Json, methods: set<string>) returns (r: Json)
    ensures r == Prune(v, methods)
    decreases v
  {
    hide Prune, PruneItems, PruneEntries, Retain;
    PruneShape(v, methods);
    match v {
      case Arr(items) =>
        var kept := Retain(items, methods);
        PruneItemsNames(items, methods);
        var done: seq<Json> := [];
        for k := 0 to |kept|
          invariant done == PruneItems(items, methods)[..k]
        {
          RetainedItem(items, methods, k);
          var item := PruneMethods(kept[k], methods);
          assert PruneItems(items, methods)[k] == item;
          done := done + [item];
        }
        assert PruneItems(items, methods)[..|kept|] == PruneItems(items, methods);
        r := Arr(done);
      case Obj(entries) =>
        var done: seq<Entry> := [];
        for k := 0 to |entries|
          invariant done == PruneEntries(entries, methods)[..k]
        {
          PruneEntriesAt(entries, methods, k);
          var child := PruneMethods(entries[k].child, methods);
          done := done + [Entry(entries[k].key, child)];
        }
        assert PruneEntries(entries, methods)[..|entries|] == PruneEntries(entries, methods);
        r := Obj(done);
      case _ =>
        r := v;
    }
  }

  /** `strip_experimental_fields_recursive`: trim the object's own entries, then descend. */
  method StripFields(v: Json, fields: set<string>) returns (r: Json)
    ensures r == Strip(v, fields)
    decreases Size(v)
  {
    match v {
      case Obj(entries) =>
        hide Strip, StripEntries, TrimEntry;
        var done: seq<Entry> := [];
        for k := 0 to |entries|
          invariant done == StripEntries(entries, fields)[..k]
        {
          StripEntriesAt(entries, fields, k);
          EntrySizeAt(entries, k);
          var e := TrimEntry(entries[k], fields);
          var child := StripFields(e.child, fields);
          done := done + [Entry(e.key, child)];
        }
        assert StripEntries(entries, fields)[..|entries|] == StripEntries(entries, fields);
        r := Obj(done);
      case Arr(items) =>
        hide Strip, StripItems;
        var done: seq<Json> := [];
        for k := 0 to |items|
          invariant done == StripItems(items, fields)[..k]
        {
          StripItemsAt(items, fields, k);
          ItemSizeAt(items, k);
          var item := StripFields(items[k], fields);
          done := done + [item];
        }
        assert StripItems(items, fields)[..|items|] == StripItems(items, fields);
        r := Arr(done);
      case _ =>
        r := v;
    }
  }
}
