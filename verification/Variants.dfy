/** Which schemas are experimental methods, read off their entries
    (`is_experimental_method_variant` in `crates/app-server-protocol/src/export.rs`). */
module Variants {
  import opened Text
  import opened JsonTree
  import opened SchemaFilter

  /** The schema of a method names `m`: by a text `const`, or without one by an `enum` of that
      single text. */
  ghost predicate NamedBy(schema: seq<Entry>, m: string) {
    || Entry("const", Str(m)) in schema
    || ((forall text :: Entry("const", Str(text)) !in schema) && Entry("enum", Arr([Str(m)])) in schema)
  }

  /** An object schema whose `method` property names `m`. */
  ghost predicate NamesMethod(v: Json, m: string) {
    v.Obj? &&
    exists properties, schema ::
      && Entry("properties", Obj(properties)) in v.entries
      && Entry("method", Obj(schema)) in properties
      && NamedBy(schema, m)
  }

  lemma {:induction false} GetExactly(es: seq<Entry>, key: string)
    requires DistinctKeys(es)
    ensures forall child :: Get(es, key) == Some(child) <==> Entry(key, child) in es
    decreases |es|
  {
    if es != [] {
      GetExactly(es[1..], key);
      assert es == [es[0]] + es[1..];
      if es[0].key == key {
        forall child ensures Entry(key, child) in es ==> child == es[0].child {
          if Entry(key, child) in es {
            var i :| 0 <= i < |es| && es[i] == Entry(key, child);
            assert i == 0;
          }
        }
      }
    }
  }

  lemma GetObjectExactly(es: seq<Entry>, key: string)
    requires DistinctKeys(es)
    ensures forall inner :: GetObject(es, key) == Some(inner) <==> Entry(key, Obj(inner)) in es
  {
    hide Get;
    GetExactly(es, key);
    forall inner ensures GetObject(es, key) == Some(inner) <==> Entry(key, Obj(inner)) in es {
      assert Get(es, key) == Some(Obj(inner)) <==> Entry(key, Obj(inner)) in es;
    }
  }

  lemma ConstExactly(schema: seq<Entry>)
    requires DistinctKeys(schema)
    ensures forall m :: ConstText(schema) == Some(m) <==> Entry("const", Str(m)) in schema
  {
    hide Get;
    GetExactly(schema, "const");
    forall m ensures ConstText(schema) == Some(m) <==> Entry("const", Str(m)) in schema {
      assert Get(schema, "const") == Some(Str(m)) <==> Entry("const", Str(m)) in schema;
    }
  }

  lemma EnumExactly(schema: seq<Entry>)
    requires DistinctKeys(schema)
    ensures forall items :: EnumItems(schema) == Some(items) <==> Entry("enum", Arr(items)) in schema
  {
    hide Get;
    GetExactly(schema, "enum");
    forall items ensures EnumItems(schema) == Some(items) <==> Entry("enum", Arr(items)) in schema {
      assert Get(schema, "enum") == Some(Arr(items)) <==> Entry("enum", Arr(items)) in schema;
    }
  }

  lemma NamedByExactly(schema: seq<Entry>, methods: set<string>)
    requires DistinctKeys(schema)
    ensures var text, items := ConstText(schema), EnumItems(schema);
            (if text.Some? then text.value in methods else items.Some? && OnlyNames(items.value, methods))
            <==> exists m :: m in methods && NamedBy(schema, m)
  {
    ConstExactly(schema);
    EnumExactly(schema);
    hide ConstText, EnumItems;
    var text, items := ConstText(schema), EnumItems(schema);
    if text.Some? {
      assert Entry("const", Str(text.value)) in schema;
      assert forall m :: NamedBy(schema, m) <==> m == text.value;
    } else {
      if items.Some? && OnlyNames(items.value, methods) {
        var m := items.value[0].text;
        assert items.value == [Str(m)];
        assert NamedBy(schema, m);
      }
      forall m | m in methods && NamedBy(schema, m) ensures items.Some? && OnlyNames(items.value, methods) {
        assert EnumItems(schema) == Some([Str(m)]);
      }
    }
  }

  lemma EntryWellFormed(es: seq<Entry>, e: Entry)
    requires WellFormed(Obj(es)) && e in es && e.child.Obj?
    ensures DistinctKeys(es) && WellFormed(Obj(e.child.entries))
  {
    var i :| 0 <= i < |es| && es[i] == e;
    assert WellFormed(es[i].child);
  }

  /** The variants that are pruned are exactly the object schemas that name one of the methods. */
  lemma VariantExactly(v: Json, methods: set<string>)
    requires WellFormed(v)
    ensures IsVariant(v, methods) <==> exists m :: m in methods && NamesMethod(v, m)
  {
    hide WellFormed, GetObject, ConstText, EnumItems, OnlyNames, NamedBy;
    if v.Obj? {
      assert DistinctKeys(v.entries) by { ObjectKeys(v); }
      GetObjectExactly(v.entries, "properties");
      var properties := GetObject(v.entries, "properties");
      if properties.Some? {
        EntryWellFormed(v.entries, Entry("properties", Obj(properties.value)));
        assert DistinctKeys(properties.value) by { ObjectKeys(Obj(properties.value)); }
        GetObjectExactly(properties.value, "method");
        var schema := GetObject(properties.value, "method");
        if schema.Some? {
          EntryWellFormed(properties.value, Entry("method", Obj(schema.value)));
          assert DistinctKeys(schema.value) by { ObjectKeys(Obj(schema.value)); }
          NamedByExactly(schema.value, methods);
          assert forall m :: NamesMethod(v, m) <==> NamedBy(schema.value, m);
        }
      }
    }
  }

  lemma ObjectKeys(v: Json)
    requires v.Obj? && WellFormed(v)
    ensures DistinctKeys(v.entries)
  {
  }
}
