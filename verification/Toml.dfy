/** Layered configuration values: merging one onto another (`crates/config/src/merge.rs`) and
    building a layer from dotted-path overrides (`crates/config/src/overrides.rs`). A table is
    a map, so nothing below depends on the order in which its entries are visited. */
module Toml {
  import opened Text

  datatype Value = Scalar(text: string) | Array(items: seq<Value>) | Table(entries: map<string, Value>)

  const EMPTY := Table(map[])

  // ---------------------------------------------------------------- merge

  /** `overlay` onto `base`: tables are merged key by key, anything else is replaced. */
  function Merge(base: Value, overlay: Value): Value
    decreases overlay
  {
    if base.Table? && overlay.Table? then
      Table(map k | k in base.entries.Keys + overlay.entries.Keys ::
              if k !in overlay.entries then base.entries[k]
              else if k in base.entries then Merge(base.entries[k], overlay.entries[k])
              else overlay.entries[k])
    else
      overlay
  }

  /** `merge_toml_values`: the loop over the overlay's entries. */
  method MergeValues(base: Value, overlay: Value) returns (merged: Value)
    ensures merged == Merge(base, overlay)
    decreases overlay
  {
    if !(base.Table? && overlay.Table?) {
      return overlay;
    }
    var table, rest := base.entries, overlay.entries.Keys;
    while rest != {}
      invariant rest <= overlay.entries.Keys
      invariant table.Keys == base.entries.Keys + (overlay.entries.Keys - rest)
      invariant forall k :: k in table ==>
        table[k] == if k in rest then base.entries[k] else Merge(base, overlay).entries[k]
    {
      var key :| key in rest;
      var value := overlay.entries[key];
      if key in table {
        var existing := MergeValues(table[key], value);
        table := table[key := existing];
      } else {
        table := table[key := value];
      }
      rest := rest - {key};
    }
    assert table == Merge(base, overlay).entries;
    return Table(table);
  }

  lemma {:induction false} MergeIdempotent(v: Value)
    ensures Merge(v, v) == v
    decreases v
  {
    if v.Table? {
      forall k | k in v.entries ensures Merge(v.entries[k], v.entries[k]) == v.entries[k] {
        MergeIdempotent(v.entries[k]);
      }
    }
  }

  /** Every key of `base`, at every depth where both are tables, is also a key of `overlay`. */
  predicate Covers(overlay: Value, base: Value)
    decreases overlay
  {
    base.Table? && overlay.Table? ==>
      && base.entries.Keys <= overlay.entries.Keys
      && forall k :: k in base.entries ==> Covers(overlay.entries[k], base.entries[k])
  }

  /** Merging leaves nothing of `base` exactly when `overlay` covers it. */
  lemma {:induction false} MergeReplacesExactly(base: Value, overlay: Value)
    ensures Merge(base, overlay) == overlay <==> Covers(overlay, base)
    decreases overlay
  {
    if base.Table? && overlay.Table? {
      var m := Merge(base, overlay);
      forall k | k in base.entries && k in overlay.entries
        ensures Merge(base.entries[k], overlay.entries[k]) == overlay.entries[k]
           <==> Covers(overlay.entries[k], base.entries[k])
      {
        MergeReplacesExactly(base.entries[k], overlay.entries[k]);
      }
      if m == overlay {
        forall k | k in base.entries ensures k in overlay.entries && Covers(overlay.entries[k], base.entries[k]) {
          assert k in m.entries;
          assert k in overlay.entries && m.entries[k] == overlay.entries[k];
        }
      }
      if Covers(overlay, base) {
        assert m.entries == overlay.entries;
      }
    }
  }

  /** Where both outer layers have a table and the middle one does not, the middle one hides
      the lowest from the highest; grouping the other way does not. */
  predicate Associates(a: Value, b: Value, c: Value)
    decreases c
  {
    a.Table? && c.Table? ==>
      if b.Table? then
        forall k :: k in a.entries && k in b.entries && k in c.entries ==>
          Associates(a.entries[k], b.entries[k], c.entries[k])
      else
        Covers(c, a)
  }

  /** Merging is associative on exactly these triples. */
  lemma {:induction false} MergeAssociatesExactly(a: Value, b: Value, c: Value)
    ensures Merge(Merge(a, b), c) == Merge(a, Merge(b, c)) <==> Associates(a, b, c)
    decreases c
  {
    if a.Table? && c.Table? {
      if b.Table? {
        AssociatesByKey(a, b, c);
      } else {
        assert Merge(a, b) == b && Merge(b, c) == c;
        MergeReplacesExactly(a, c);
      }
    }
  }

  lemma {:induction false} AssociatesByKey(a: Value, b: Value, c: Value)
    requires a.Table? && b.Table? && c.Table?
    ensures Merge(Merge(a, b), c) == Merge(a, Merge(b, c)) <==> Associates(a, b, c)
    decreases c, 0
  {
    var left, right := Merge(Merge(a, b), c).entries, Merge(a, Merge(b, c)).entries;
    assert left.Keys == right.Keys;
    forall k | k in left
      ensures left[k] == right[k] <==>
        (k in a.entries && k in b.entries && k in c.entries ==> Associates(a.entries[k], b.entries[k], c.entries[k]))
    {
      if k in a.entries && k in b.entries && k in c.entries {
        MergeAssociatesExactly(a.entries[k], b.entries[k], c.entries[k]);
      }
    }
    if left == right {
      forall k | k in a.entries && k in b.entries && k in c.entries
        ensures Associates(a.entries[k], b.entries[k], c.entries[k])
      {
        assert k in left && left[k] == right[k];
      }
    }
  }

  /** A value between two tables hides the lower one only if it is merged onto it first. */
  lemma MergeCanNotAssociate()
    ensures var low, middle, high := Table(map["a" := Scalar("1")]), Scalar("2"), Table(map["b" := Scalar("3")]);
            && Merge(Merge(low, middle), high) == Table(map["b" := Scalar("3")])
            && Merge(low, Merge(middle, high)) == Table(map["a" := Scalar("1"), "b" := Scalar("3")])
            && Merge(Merge(low, middle), high) != Merge(low, Merge(middle, high))
  {
    var low, high := Table(map["a" := Scalar("1")]), Table(map["b" := Scalar("3")]);
    assert "a"[0] != "b"[0];
    assert Merge(low, high).entries == map["a" := Scalar("1"), "b" := Scalar("3")];
    assert "a" !in high.entries;
  }

  // ---------------------------------------------------------------- overrides

  function TableOf(v: Value): map<string, Value> {
    if v.Table? then v.entries else map[]
  }

  /** `apply_toml_override`: walk down, making tables where there are none, and set the last key. */
  function Override(root: Value, path: seq<string>, value: Value): Value
    requires path != []
    decreases |path|
  {
    var table, key := TableOf(root), path[0];
    if |path| == 1 then
      Table(table[key := value])
    else
      var child := if key in table then table[key] else EMPTY;
      Table(table[key := Override(child, path[1..], value)])
  }

  datatype CliOverride = CliOverride(path: string, value: Value)

  function Segments(path: string): (r: seq<string>)
    ensures r != []
  {
    Split(path, '.')
  }

  /** `build_cli_overrides_layer` on the first `|overrides|` entries. */
  function OverridesLayer(overrides: seq<CliOverride>): Value {
    if overrides == [] then EMPTY
    else
      var last := overrides[|overrides| - 1];
      Override(OverridesLayer(overrides[..|overrides| - 1]), Segments(last.path), last.value)
  }

  method BuildCliOverridesLayer(overrides: seq<CliOverride>) returns (root: Value)
    ensures root == OverridesLayer(overrides)
  {
    root := EMPTY;
    for i := 0 to |overrides|
      invariant root == OverridesLayer(overrides[..i])
    {
      assert overrides[..i + 1][..i] == overrides[..i];
      root := Override(root, Segments(overrides[i].path), overrides[i].value);
    }
    assert overrides[..|overrides|] == overrides;
  }

  /** What is at a path now, if the tables on the way exist. */
  function At(root: Value, path: seq<string>): Option<Value>
    decreases |path|
  {
    if path == [] then Some(root)
    else if root.Table? && path[0] in root.entries then At(root.entries[path[0]], path[1..])
    else None
  }

  /** The layer that holds one override and nothing else. */
  function SingleOverride(path: seq<string>, value: Value): Value
    requires path != []
  {
    Override(EMPTY, path, value)
  }

  /** An override sets its path, and only replaces what is on the way to it. */
  lemma {:induction false} OverrideSets(root: Value, path: seq<string>, value: Value)
    requires path != []
    ensures At(Override(root, path, value), path) == Some(value)
    decreases |path|
  {
    if |path| == 1 {
      assert path[1..] == [];
    } else {
      var table := TableOf(root);
      OverrideSets(if path[0] in table then table[path[0]] else EMPTY, path[1..], value);
    }
  }

  /** And leaves alone every path that neither lies on the way nor goes on from it. */
  lemma {:induction false} OverrideFrame(root: Value, path: seq<string>, value: Value, other: seq<string>)
    requires path != [] && !(path <= other) && !(other <= path)
    ensures At(Override(root, path, value), other) == At(root, other)
    decreases |path|
  {
    assert path == [path[0]] + path[1..] && other == [other[0]] + other[1..];
    if path[0] == other[0] {
      var table := TableOf(root);
      var child := if path[0] in table then table[path[0]] else EMPTY;
      OverrideFrame(child, path[1..], value, other[1..]);
    }
  }

  /** On the way to it there are tables afterwards. */
  lemma {:induction false} OverrideMakesTables(root: Value, path: seq<string>, value: Value, n: nat)
    requires n < |path|
    ensures var at := At(Override(root, path, value), path[..n]); at.Some? && at.value.Table?
    decreases |path|
  {
    if n > 0 {
      var table := TableOf(root);
      OverrideMakesTables(if path[0] in table then table[path[0]] else EMPTY, path[1..], value, n - 1);
      assert path[..n] == [path[0]] + path[1..][..n - 1];
    }
  }

  /** The value at the path is not a table that would be merged instead of replaced. */
  predicate ReplacedAt(root: Value, path: seq<string>, value: Value) {
    At(root, path).Some? ==> Covers(value, At(root, path).value)
  }

  /** Setting one path in place is merging the single-override layer, exactly when the value
      covers what was at the path; a value that is not a table always does. */
  lemma {:induction false} OverrideIsMergeExactly(root: Value, path: seq<string>, value: Value)
    requires path != []
    ensures Override(root, path, value) == Merge(root, SingleOverride(path, value)) <==> ReplacedAt(root, path, value)
    decreases |path|
  {
    var key, table := path[0], TableOf(root);
    var single := SingleOverride(path, value);
    if |path| == 1 {
      assert single == Table(map[key := value]);
      assert path[1..] == [];
      assert At(root, path) == if key in table then Some(table[key]) else None;
      assert Override(root, path, value) == Table(table[key := value]);
      if key in table {
        MergeReplacesExactly(table[key], value);
      }
      OneKeyMerge(root, key, value, value);
    } else {
      var rest := path[1..];
      var child := if key in table then table[key] else EMPTY;
      assert single == Table(map[key := SingleOverride(rest, value)]);
      OverrideIsMergeExactly(child, rest, value);
      OneKeyMerge(root, key, SingleOverride(rest, value), Override(child, rest, value));
    }
  }

  /** A table as override value replaces what a layer with the same value would add to. */
  lemma TableOverrideIsNoLayer()
    ensures var root, value := Table(map["a" := Table(map["b" := Scalar("1")])]), Table(map["c" := Scalar("2")]);
            && Override(root, ["a"], value) == Table(map["a" := value])
            && Merge(root, SingleOverride(["a"], value)) != Override(root, ["a"], value)
  {
    var root, value := Table(map["a" := Table(map["b" := Scalar("1")])]), Table(map["c" := Scalar("2")]);
    assert "b"[0] != "c"[0];
    assert root.entries["a" := value] == map["a" := value];
    assert ["a"][1..] == [];
    assert At(root, ["a"]) == Some(Table(map["b" := Scalar("1")]));
    assert "b" !in value.entries;
    OverrideIsMergeExactly(root, ["a"], value);
  }

  /** Merging a one-entry table changes that entry only. */
  lemma OneKeyMerge(root: Value, key: string, entry: Value, result: Value)
    ensures Merge(root, Table(map[key := entry])) == Table(TableOf(root)[key := result]) <==>
      result == if key in TableOf(root) then Merge(TableOf(root)[key], entry) else entry
  {
    var merged := Merge(root, Table(map[key := entry]));
    var table := TableOf(root);
    var here := if key in table then Merge(table[key], entry) else entry;
    assert merged.Table? && merged.entries == table[key := here];
    assert table[key := here][key] == here && table[key := result][key] == result;
  }

  /** A dotted path nests. */
  lemma DottedPathNests(value: Value)
    ensures OverridesLayer([CliOverride("a.b", value)]) == Table(map["a" := Table(map["b" := value])])
  {
    var os := [CliOverride("a.b", value)];
    assert os[..0] == [];
    SplitHead("a", "b", '.');
    SplitWhole("b", '.');
    assert "a" + ['.'] + "b" == "a.b";
    assert Segments("a.b") == ["a", "b"];
    assert ["a", "b"][1..] == ["b"];
    assert Override(EMPTY, ["b"], value) == Table(map["b" := value]);
  }

  /** Of two overrides of one path the later one counts. */
  lemma LaterOverrideWins(overrides: seq<CliOverride>, last: CliOverride)
    ensures At(OverridesLayer(overrides + [last]), Segments(last.path)) == Some(last.value)
  {
    hide Override, At;
    assert (overrides + [last])[..|overrides|] == overrides;
    OverrideSets(OverridesLayer(overrides), Segments(last.path), last.value);
  }

  function SingleLayers(overrides: seq<CliOverride>): Value {
    if overrides == [] then EMPTY
    else
      var last := overrides[|overrides| - 1];
      Merge(SingleLayers(overrides[..|overrides| - 1]), SingleOverride(Segments(last.path), last.value))
  }

  /** A list of overrides with no table among its values is a stack of one-override layers. */
  lemma {:induction false} OverridesAreLayers(overrides: seq<CliOverride>)
    requires forall i :: 0 <= i < |overrides| ==> !overrides[i].value.Table?
    ensures OverridesLayer(overrides) == SingleLayers(overrides)
    decreases |overrides|
  {
    if overrides != [] {
      var init, last := overrides[..|overrides| - 1], overrides[|overrides| - 1];
      OverridesAreLayers(init);
      OverrideIsMergeExactly(OverridesLayer(init), Segments(last.path), last.value);
    }
  }
}
