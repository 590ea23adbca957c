/** Which layer each effective setting comes from (`record_origins` in
    `crates/config/src/fingerprint.rs`, folded together with the merge as in
    `crates/core/src/config_loader/state.rs`). */
module Origins {
  import opened Text
  import opened Toml

  // ---------------------------------------------------------------- array indices as path segments

  const DIGITS := "0123456789"

  function Decimal(n: nat): (s: string)
    ensures s != ""
  {
    if n < 10 then [DIGITS[n]] else Decimal(n / 10) + [DIGITS[n % 10]]
  }

  lemma {:induction false} DecimalInjective(a: nat, b: nat)
    requires Decimal(a) == Decimal(b)
    ensures a == b
  {
    var s := Decimal(a);
    assert s[|s| - 1] == DIGITS[a % 10] && s[|s| - 1] == DIGITS[b % 10];
    assert a % 10 == b % 10;
    if a >= 10 && b >= 10 {
      assert s[..|s| - 1] == Decimal(a / 10) && s[..|s| - 1] == Decimal(b / 10);
      DecimalInjective(a / 10, b / 10);
    }
  }

  /** The number a string of digits stands for. */
  function NumberOf(s: string): int {
    if s == "" then 0 else 10 * NumberOf(s[..|s| - 1]) + (s[|s| - 1] as int - '0' as int)
  }

  predicate IsDigits(s: string) {
    forall i :: 0 <= i < |s| ==> '0' <= s[i] <= '9'
  }

  /** Digits of the number itself, without leading zeros. */
  lemma {:induction false} DecimalExactly(n: nat)
    ensures IsDigits(Decimal(n)) && NumberOf(Decimal(n)) == n
    ensures n > 0 ==> Decimal(n)[0] != '0'
    ensures n == 0 ==> Decimal(n) == "0"
  {
    var s := Decimal(n);
    DigitValue(n % 10);
    if n < 10 {
      assert s[..|s| - 1] == "" && NumberOf("") == 0;
    } else {
      DecimalExactly(n / 10);
      assert s[..|s| - 1] == Decimal(n / 10);
    }
  }

  lemma DigitValue(d: nat)
    requires d < 10
    ensures DIGITS[d] as int == '0' as int + d
  {
    assert d == 0 || d == 1 || d == 2 || d == 3 || d == 4 || d == 5 || d == 6 || d == 7 || d == 8 || d == 9;
  }

  lemma {:induction false} DecimalHasNoDot(n: nat)
    ensures '.' !in Decimal(n)
  {
    if n >= 10 { DecimalHasNoDot(n / 10); }
  }

  /** The index below `n` that is written `key`. */
  function IndexNamed(n: nat, key: string): (r: Option<nat>)
    ensures r.Some? ==> r.value < n && Decimal(r.value) == key
  {
    if n == 0 then None
    else if Decimal(n - 1) == key then Some(n - 1)
    else IndexNamed(n - 1, key)
  }

  lemma {:induction false} IndexNamedFinds(n: nat, i: nat)
    requires i < n
    ensures IndexNamed(n, Decimal(i)) == Some(i)
  {
    if Decimal(n - 1) == Decimal(i) {
      DecimalInjective(n - 1, i);
    } else {
      IndexNamedFinds(n - 1, i);
    }
  }

  // ---------------------------------------------------------------- leaves

  /** The scalar at a path, through tables by key and through arrays by index. */
  function LeafAt(v: Value, path: seq<string>): Option<string>
    decreases |path|
  {
    match v
    case Scalar(text) => if path == [] then Some(text) else None
    case Table(entries) =>
      if path != [] && path[0] in entries then LeafAt(entries[path[0]], path[1..]) else None
    case Array(items) =>
      if path == [] then None
      else
        var i := IndexNamed(|items|, path[0]);
        if i.None? then None else LeafAt(items[i.value], path[1..])
  }

  function DottedName(path: seq<string>): string {
    Join(path, ".")
  }

  /** The dotted names recorded for a value found under `path`. */
  function Names(v: Value, path: seq<string>): set<string>
    decreases v
  {
    match v
    case Scalar(_) => if path == [] then {} else {DottedName(path)}
    case Table(entries) => set k, n | k in entries && n in Names(entries[k], path + [k]) :: n
    case Array(items) => set i, n | 0 <= i < |items| && n in Names(items[i], path + [Decimal(i)]) :: n
  }

  /** The origins after `meta` has been inserted for each name. */
  function Mark<M>(origins: map<string, M>, names: set<string>, meta: M): map<string, M> {
    origins + map n | n in names :: meta
  }

  lemma MarkTwice<M>(origins: map<string, M>, a: set<string>, b: set<string>, meta: M)
    ensures Mark(Mark(origins, a, meta), b, meta) == Mark(origins, a + b, meta)
    ensures Mark(origins, {}, meta) == origins
  {
  }

  /** `record_origins`, with the path pushed and popped around each entry. */
  method RecordOrigins<M>(v: Value, meta: M, path: seq<string>, origins: map<string, M>) returns (r: map<string, M>)
    ensures r == Mark(origins, Names(v, path), meta)
    decreases v, 1
  {
    match v {
      case Scalar(_) =>
        r := if path == [] then origins else origins[DottedName(path) := meta];
      case Table(entries) =>
        r := RecordTable(v, meta, path, origins);
      case Array(items) =>
        r := RecordArray(v, meta, path, origins);
    }
  }

  method RecordTable<M>(v: Value, meta: M, path: seq<string>, origins: map<string, M>) returns (r: map<string, M>)
    requires v.Table?
    ensures r == Mark(origins, Names(v, path), meta)
    decreases v, 0
  {
    hide Mark;
    MarkTwice(origins, {}, {}, meta);
    r := origins;
    var rest := v.entries.Keys;
    ghost var seen: set<string> := {};
    while rest != {}
      invariant rest <= v.entries.Keys
      invariant seen == NamesOfKeys(v.entries, path, v.entries.Keys - rest)
      invariant r == Mark(origins, seen, meta)
    {
      var key :| key in rest;
      r := RecordOrigins(v.entries[key], meta, path + [key], r);
      MarkTwice(origins, seen, Names(v.entries[key], path + [key]), meta);
      seen := seen + Names(v.entries[key], path + [key]);
      assert v.entries.Keys - (rest - {key}) == (v.entries.Keys - rest) + {key};
      rest := rest - {key};
    }
    assert v.entries.Keys - rest == v.entries.Keys;
  }

  method RecordArray<M>(v: Value, meta: M, path: seq<string>, origins: map<string, M>) returns (r: map<string, M>)
    requires v.Array?
    ensures r == Mark(origins, Names(v, path), meta)
    decreases v, 0
  {
    hide Mark;
    MarkTwice(origins, {}, {}, meta);
    r := origins;
    ghost var seen: set<string> := {};
    for i := 0 to |v.items|
      invariant seen == NamesOfFirst(v.items, path, i)
      invariant r == Mark(origins, seen, meta)
    {
      r := RecordOrigins(v.items[i], meta, path + [Decimal(i)], r);
      MarkTwice(origins, seen, Names(v.items[i], path + [Decimal(i)]), meta);
      seen := seen + Names(v.items[i], path + [Decimal(i)]);
    }
    assert seen == Names(v, path);
  }

  ghost function NamesOfKeys(entries: map<string, Value>, path: seq<string>, keys: set<string>): set<string>
    requires keys <= entries.Keys
  {
    set k, n | k in keys && n in Names(entries[k], path + [k]) :: n
  }

  ghost function NamesOfFirst(items: seq<Value>, path: seq<string>, count: nat): set<string>
    requires count <= |items|
  {
    set i, n | 0 <= i < count && n in Names(items[i], path + [Decimal(i)]) :: n
  }

  /** A recorded name is the dotted name of a leaf. */
  lemma {:induction false} NameHasLeaf(v: Value, path: seq<string>, name: string) returns (p: seq<string>)
    requires name in Names(v, path)
    ensures LeafAt(v, p).Some? && path + p != [] && DottedName(path + p) == name
    decreases v
  {
    match v {
      case Scalar(_) =>
        p := [];
        assert path + p == path;
      case Table(entries) =>
        var k :| k in entries && name in Names(entries[k], path + [k]);
        var rest := NameHasLeaf(entries[k], path + [k], name);
        p := [k] + rest;
        Reassociate(path, [k], rest);
        assert p[1..] == rest;
      case Array(items) =>
        var i :| 0 <= i < |items| && name in Names(items[i], path + [Decimal(i)]);
        var rest := NameHasLeaf(items[i], path + [Decimal(i)], name);
        p := [Decimal(i)] + rest;
        Reassociate(path, [Decimal(i)], rest);
        IndexNamedFinds(|items|, i);
        assert p[1..] == rest;
    }
  }

  /** The dotted name of every leaf is recorded. */
  lemma {:induction false} LeafHasName(v: Value, path: seq<string>, p: seq<string>)
    requires LeafAt(v, p).Some? && path + p != []
    ensures DottedName(path + p) in Names(v, path)
    decreases v
  {
    if p == [] {
      assert path + p == path;
    } else {
      Reassociate(path, [p[0]], p[1..]);
      assert p == [p[0]] + p[1..];
      assert path + [p[0]] + p[1..] != [];
      match v {
        case Table(entries) =>
          LeafHasName(entries[p[0]], path + [p[0]], p[1..]);
        case Array(items) =>
          var i := IndexNamed(|items|, p[0]).value;
          LeafHasName(items[i], path + [p[0]], p[1..]);
      }
    }
  }

  // ---------------------------------------------------------------- merging leaves

  /** The overlay's leaves are all in the merge. */
  lemma {:induction false} OverlayLeafWins(base: Value, overlay: Value, p: seq<string>)
    requires LeafAt(overlay, p).Some?
    ensures LeafAt(Merge(base, overlay), p) == LeafAt(overlay, p)
    decreases |p|
  {
    if base.Table? && overlay.Table? && p[0] in base.entries {
      OverlayLeafWins(base.entries[p[0]], overlay.entries[p[0]], p[1..]);
    }
  }

  /** Every leaf of the merge is the overlay's or, where the overlay has none, the base's. */
  lemma {:induction false} MergedLeafSource(base: Value, overlay: Value, p: seq<string>)
    requires LeafAt(Merge(base, overlay), p).Some?
    ensures LeafAt(Merge(base, overlay), p)
         == if LeafAt(overlay, p).Some? then LeafAt(overlay, p) else LeafAt(base, p)
    decreases |p|
  {
    if base.Table? && overlay.Table? && p[0] in base.entries && p[0] in overlay.entries {
      MergedLeafSource(base.entries[p[0]], overlay.entries[p[0]], p[1..]);
    }
  }

  // ---------------------------------------------------------------- layers

  datatype Layer<M> = Layer(config: Value, meta: M)

  /** Layers from the lowest precedence to the highest, merged onto an empty table. */
  function EffectiveConfig<M>(layers: seq<Layer<M>>): Value {
    if layers == [] then EMPTY
    else Merge(EffectiveConfig(layers[..|layers| - 1]), layers[|layers| - 1].config)
  }

  function RecordedOrigins<M>(layers: seq<Layer<M>>): map<string, M> {
    if layers == [] then map[]
    else
      var last := layers[|layers| - 1];
      Mark(RecordedOrigins(layers[..|layers| - 1]), Names(last.config, []), last.meta)
  }

  method ComputeEffective<M>(layers: seq<Layer<M>>) returns (merged: Value, origins: map<string, M>)
    ensures merged == EffectiveConfig(layers) && origins == RecordedOrigins(layers)
  {
    merged, origins := EMPTY, map[];
    for i := 0 to |layers|
      invariant merged == EffectiveConfig(layers[..i])
      invariant origins == RecordedOrigins(layers[..i])
    {
      assert layers[..i + 1][..i] == layers[..i];
      merged := MergeValues(merged, layers[i].config);
      origins := RecordOrigins(layers[i].config, layers[i].meta, [], origins);
    }
    assert layers[..|layers|] == layers;
  }

  /** The last layer with a leaf at `p`. */
  function LastLeaf<M>(layers: seq<Layer<M>>, p: seq<string>): (r: Option<nat>)
    ensures r.Some? ==> r.value < |layers| && LeafAt(layers[r.value].config, p).Some?
    ensures r.Some? ==> forall i :: r.value < i < |layers| ==> LeafAt(layers[i].config, p).None?
    ensures r.None? ==> forall i :: 0 <= i < |layers| ==> LeafAt(layers[i].config, p).None?
  {
    if layers == [] then None
    else if LeafAt(layers[|layers| - 1].config, p).Some? then Some(|layers| - 1)
    else LastLeaf(layers[..|layers| - 1], p)
  }

  /** The last layer with a leaf, at whatever path, whose dotted name is `name`. */
  function LastNamed<M>(layers: seq<Layer<M>>, name: string): (r: Option<nat>)
    ensures r.Some? ==> r.value < |layers| && name in Names(layers[r.value].config, [])
    ensures r.Some? ==> forall i :: r.value < i < |layers| ==> name !in Names(layers[i].config, [])
    ensures r.None? ==> forall i :: 0 <= i < |layers| ==> name !in Names(layers[i].config, [])
  {
    if layers == [] then None
    else if name in Names(layers[|layers| - 1].config, []) then Some(|layers| - 1)
    else LastNamed(layers[..|layers| - 1], name)
  }

  /** A leaf of the effective configuration is the leaf of the last layer that has one there. */
  lemma {:induction false} EffectiveLeaf<M>(layers: seq<Layer<M>>, p: seq<string>)
    requires LeafAt(EffectiveConfig(layers), p).Some?
    ensures var owner := LastLeaf(layers, p);
            owner.Some? && LeafAt(EffectiveConfig(layers), p) == LeafAt(layers[owner.value].config, p)
  {
    if layers != [] {
      var init, last := layers[..|layers| - 1], layers[|layers| - 1];
      MergedLeafSource(EffectiveConfig(init), last.config, p);
      if LeafAt(last.config, p).None? {
        EffectiveLeaf(init, p);
      }
    }
  }

  /** The recorded origin of a name is the last layer that has a leaf of that name. */
  lemma {:induction false} OriginIsLastNamed<M>(layers: seq<Layer<M>>, name: string)
    ensures var last := LastNamed(layers, name);
            && (name in RecordedOrigins(layers) <==> last.Some?)
            && (last.Some? ==> RecordedOrigins(layers)[name] == layers[last.value].meta)
  {
    if layers != [] {
      OriginIsLastNamed(layers[..|layers| - 1], name);
    }
  }

  /** For every effective leaf: its name is recorded, and the recorded layer is the owner of
      the leaf exactly when no layer above the owner has another leaf of the same dotted name. */
  lemma {:induction false} OriginExactly<M>(layers: seq<Layer<M>>, p: seq<string>)
    requires p != [] && LeafAt(EffectiveConfig(layers), p).Some?
    ensures LastLeaf(layers, p).Some? && LastNamed(layers, DottedName(p)).Some?
    ensures var owner, recorded := LastLeaf(layers, p).value, LastNamed(layers, DottedName(p)).value;
            && LeafAt(layers[owner].config, p) == LeafAt(EffectiveConfig(layers), p)
            && DottedName(p) in RecordedOrigins(layers)
            && RecordedOrigins(layers)[DottedName(p)] == layers[recorded].meta
            && (recorded == owner <==>
                  forall i :: owner < i < |layers| ==> DottedName(p) !in Names(layers[i].config, []))
  {
    EffectiveLeaf(layers, p);
    var owner := LastLeaf(layers, p).value;
    assert [] + p == p;
    LeafHasName(layers[owner].config, [], p);
    OriginIsLastNamed(layers, DottedName(p));
  }

  // ---------------------------------------------------------------- keys without dots

  /** No table key at any depth holds a dot. */
  predicate Dotless(v: Value)
    decreases v
  {
    match v
    case Scalar(_) => true
    case Array(items) => forall i :: 0 <= i < |items| ==> Dotless(items[i])
    case Table(entries) => forall k :: k in entries ==> '.' !in k && Dotless(entries[k])
  }

  lemma {:induction false} DotlessPath(v: Value, p: seq<string>, i: nat)
    requires Dotless(v) && LeafAt(v, p).Some? && i < |p|
    ensures '.' !in p[i]
    decreases |p|
  {
    match v {
      case Table(entries) =>
        if i > 0 { DotlessPath(entries[p[0]], p[1..], i - 1); }
      case Array(items) =>
        var j := IndexNamed(|items|, p[0]).value;
        if i == 0 { DecimalHasNoDot(j); } else { DotlessPath(items[j], p[1..], i - 1); }
    }
  }

  /** With dotless keys two leaves of one dotted name are at one path. */
  lemma DotlessNameIsPath(v: Value, w: Value, p: seq<string>, q: seq<string>)
    requires Dotless(v) && Dotless(w) && p != [] && q != []
    requires LeafAt(v, p).Some? && LeafAt(w, q).Some?
    requires DottedName(p) == DottedName(q)
    ensures p == q
  {
    hide Dotless, LeafAt, Join, Split;
    forall i | 0 <= i < |p| ensures '.' !in p[i] { DotlessPath(v, p, i); }
    forall i | 0 <= i < |q| ensures '.' !in q[i] { DotlessPath(w, q, i); }
    SplitJoin(p, '.');
    SplitJoin(q, '.');
  }

  /** Provenance: with no dot in any key, every effective leaf is recorded with the last layer
      that has a leaf at its path, and has that layer's value. */
  lemma {:induction false} Provenance<M>(layers: seq<Layer<M>>, p: seq<string>)
    requires forall i :: 0 <= i < |layers| ==> Dotless(layers[i].config)
    requires p != [] && LeafAt(EffectiveConfig(layers), p).Some?
    ensures var owner := LastLeaf(layers, p);
            && owner.Some?
            && LeafAt(layers[owner.value].config, p) == LeafAt(EffectiveConfig(layers), p)
            && DottedName(p) in RecordedOrigins(layers)
            && RecordedOrigins(layers)[DottedName(p)] == layers[owner.value].meta
  {
    hide Dotless, LeafAt, Names, EffectiveConfig, RecordedOrigins, DottedName;
    OriginExactly(layers, p);
    var owner := LastLeaf(layers, p).value;
    forall i | owner < i < |layers| ensures DottedName(p) !in Names(layers[i].config, []) {
      if DottedName(p) in Names(layers[i].config, []) {
        var q := NameHasLeaf(layers[i].config, [], DottedName(p));
        assert [] + q == q;
        DotlessNameIsPath(layers[owner].config, layers[i].config, p, q);
        assert false;
      }
    }
  }

  /** A key with a dot in it can take the credit for a nested setting it does not touch. */
  lemma DottedKeyMisattributes()
    ensures var low := Table(map["a" := Table(map["b" := Scalar("1")])]);
            var high := Table(map["a.b" := Scalar("2")]);
            var layers := [Layer(low, 0), Layer(high, 1)];
            && LeafAt(EffectiveConfig(layers), ["a", "b"]) == Some("1")
            && LastLeaf(layers, ["a", "b"]) == Some(0)
            && "a.b" in RecordedOrigins(layers) && RecordedOrigins(layers)["a.b"] == 1
  {
    var low := Table(map["a" := Table(map["b" := Scalar("1")])]);
    var high := Table(map["a.b" := Scalar("2")]);
    var layers := [Layer(low, 0), Layer(high, 1)];
    assert layers[..1] == [Layer(low, 0)] && layers[..1][..0] == [];
    assert |"a"| == 1 && |"a.b"| == 3;
    assert EffectiveConfig(layers[..1]) == Merge(EMPTY, low);
    assert ["a", "b"][1..] == ["b"] && ["b"][1..] == [];
    assert Names(Scalar("2"), ["a.b"]) == {"a.b"};
    assert [] + ["a.b"] == ["a.b"];
    assert "a.b" in high.entries && "a.b" in Names(high.entries["a.b"], [] + ["a.b"]);
    assert "a.b" in Names(high, []);
    assert LeafAt(high, ["a", "b"]) == None;
    assert LeafAt(Merge(EMPTY, low), ["a", "b"]) == Some("1");
  }
}
