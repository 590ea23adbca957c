/** Which recorded origins still belong to a setting (`crates/config/src/fingerprint.rs`, lines 8
    to 35, and `crates/core/src/config_loader/state.rs`, lines 231 to 249). Origins are only ever
    added, so a setting hidden by a higher layer leaves its origin behind. */
module StaleOrigins {
  import opened Text
  import opened Toml
  import opened Origins

  // ---------------------------------------------------------------- one merge

  /** `overlay` says nothing about `p`: following the path through tables of both, it has no
      entry at some step. */
  predicate Passes(base: Value, overlay: Value, p: seq<string>)
    decreases |p|
  {
    p != [] && base.Table? && overlay.Table? &&
    (p[0] in overlay.entries ==>
       p[0] in base.entries && Passes(base.entries[p[0]], overlay.entries[p[0]], p[1..]))
  }

  /** A merge has a leaf at a path exactly when the overlay has one, or the base has one and the
      overlay says nothing about the path. */
  lemma {:induction false} MergedLeafExactly(base: Value, overlay: Value, p: seq<string>)
    ensures LeafAt(Merge(base, overlay), p).Some?
       <==> LeafAt(overlay, p).Some? || (LeafAt(base, p).Some? && Passes(base, overlay, p))
    decreases |p|
  {
    if base.Table? && overlay.Table? && p != [] && p[0] in base.entries && p[0] in overlay.entries {
      MergedLeafExactly(base.entries[p[0]], overlay.entries[p[0]], p[1..]);
    }
  }

  /** The same tables on the way to `p`, as far as there are tables. */
  predicate SameSpine(a: Value, b: Value, p: seq<string>)
    decreases |p|
  {
    p == [] ||
    (&& (a.Table? <==> b.Table?)
     && (a.Table? ==>
           p[0] in a.entries && p[0] in b.entries && SameSpine(a.entries[p[0]], b.entries[p[0]], p[1..])))
  }

  lemma {:induction false} SpineDecides(a: Value, b: Value, overlay: Value, p: seq<string>)
    requires SameSpine(a, b, p)
    ensures Passes(a, overlay, p) <==> Passes(b, overlay, p)
    decreases |p|
  {
    if p != [] && a.Table? && overlay.Table? && p[0] in overlay.entries {
      SpineDecides(a.entries[p[0]], b.entries[p[0]], overlay.entries[p[0]], p[1..]);
    }
  }

  lemma {:induction false} SpineTransitive(a: Value, b: Value, c: Value, p: seq<string>)
    requires SameSpine(a, b, p) && SameSpine(b, c, p)
    ensures SameSpine(a, c, p)
    decreases |p|
  {
    if p != [] && a.Table? { SpineTransitive(a.entries[p[0]], b.entries[p[0]], c.entries[p[0]], p[1..]); }
  }

  lemma {:induction false} SpineSelf(v: Value, p: seq<string>)
    requires LeafAt(v, p).Some?
    ensures SameSpine(v, v, p)
    decreases |p|
  {
    if p != [] && v.Table? { SpineSelf(v.entries[p[0]], p[1..]); }
  }

  lemma {:induction false} OverlaySpine(base: Value, overlay: Value, p: seq<string>)
    requires LeafAt(overlay, p).Some?
    ensures SameSpine(Merge(base, overlay), overlay, p)
    decreases |p|
  {
    SpineSelf(overlay, p);
    if base.Table? && overlay.Table? {
      if p[0] in base.entries {
        OverlaySpine(base.entries[p[0]], overlay.entries[p[0]], p[1..]);
      } else {
        SpineSelf(overlay.entries[p[0]], p[1..]);
      }
    }
  }

  lemma {:induction false} BaseSpine(base: Value, overlay: Value, p: seq<string>)
    requires LeafAt(base, p).Some? && Passes(base, overlay, p)
    ensures SameSpine(Merge(base, overlay), base, p)
    decreases |p|
  {
    SpineSelf(base, p);
    if p[0] in overlay.entries {
      BaseSpine(base.entries[p[0]], overlay.entries[p[0]], p[1..]);
    } else {
      SpineSelf(base.entries[p[0]], p[1..]);
    }
  }

  // ---------------------------------------------------------------- all layers

  /** The last layer with a leaf at `p` has no layer above it that says anything about `p`. */
  predicate Unhidden<M>(layers: seq<Layer<M>>, p: seq<string>) {
    var owner := LastLeaf(layers, p);
    owner.Some? && forall j :: owner.value < j < |layers| ==>
      Passes(layers[owner.value].config, layers[j].config, p)
  }

  lemma UnhiddenStep<M>(layers: seq<Layer<M>>, p: seq<string>)
    requires layers != [] && LeafAt(layers[|layers| - 1].config, p).None?
    ensures var init, last := layers[..|layers| - 1], layers[|layers| - 1];
            var owner := LastLeaf(init, p);
            Unhidden(layers, p) <==>
            Unhidden(init, p) && owner.Some? && Passes(layers[owner.value].config, last.config, p)
  {
    hide LeafAt, Passes;
    var n := |layers| - 1;
    var init, owner := layers[..n], LastLeaf(layers[..n], p);
    assert LastLeaf(layers, p) == owner;
    if Unhidden(layers, p) {
      forall j | owner.value < j < n ensures Passes(init[owner.value].config, init[j].config, p) {
        assert init[j] == layers[j];
      }
    }
    if Unhidden(init, p) && Passes(layers[owner.value].config, layers[n].config, p) {
      forall j | owner.value < j < |layers| ensures Passes(layers[owner.value].config, layers[j].config, p) {
        if j < n { assert Passes(init[owner.value].config, init[j].config, p); }
      }
    }
  }

  /** The effective configuration has a leaf at a path exactly when the last layer with one there
      is not hidden; and then it has that layer's tables on the way. */
  lemma {:induction false} EffectiveLeafExactly<M>(layers: seq<Layer<M>>, p: seq<string>)
    ensures LeafAt(EffectiveConfig(layers), p).Some? <==> Unhidden(layers, p)
    ensures Unhidden(layers, p) ==>
      SameSpine(EffectiveConfig(layers), layers[LastLeaf(layers, p).value].config, p)
    decreases |layers|
  {
    hide Passes, SameSpine, Merge;
    if layers == [] {
      assert LeafAt(EMPTY, p) == None;
    } else {
      var init, last := layers[..|layers| - 1], layers[|layers| - 1];
      var base := EffectiveConfig(init);
      EffectiveLeafExactly(init, p);
      MergedLeafExactly(base, last.config, p);
      if LeafAt(last.config, p).Some? {
        OverlaySpine(base, last.config, p);
      } else {
        UnhiddenStep(layers, p);
        if Unhidden(init, p) {
          var owner := layers[LastLeaf(init, p).value].config;
          SpineDecides(base, owner, last.config, p);
          if Passes(base, last.config, p) {
            BaseSpine(base, last.config, p);
            SpineTransitive(EffectiveConfig(layers), base, owner, p);
          }
        }
      }
    }
  }

  lemma {:induction false} MergeDotless(base: Value, overlay: Value)
    requires Dotless(base) && Dotless(overlay)
    ensures Dotless(Merge(base, overlay))
    decreases overlay
  {
    if base.Table? && overlay.Table? {
      forall k | k in base.entries && k in overlay.entries
        ensures Dotless(Merge(base.entries[k], overlay.entries[k]))
      {
        MergeDotless(base.entries[k], overlay.entries[k]);
      }
    }
  }

  lemma {:induction false} EffectiveDotless<M>(layers: seq<Layer<M>>)
    requires forall i :: 0 <= i < |layers| ==> Dotless(layers[i].config)
    ensures Dotless(EffectiveConfig(layers))
    decreases |layers|
  {
    hide Merge;
    if layers != [] {
      EffectiveDotless(layers[..|layers| - 1]);
      MergeDotless(EffectiveConfig(layers[..|layers| - 1]), layers[|layers| - 1].config);
    }
  }

  /** A setting of any layer has its name recorded; with dotless keys that name still belongs to
      an effective setting exactly when the setting is not hidden for good. */
  lemma {:induction false} RecordedIsEffectiveExactly<M>(layers: seq<Layer<M>>, i: nat, p: seq<string>)
    requires forall j :: 0 <= j < |layers| ==> Dotless(layers[j].config)
    requires i < |layers| && p != [] && LeafAt(layers[i].config, p).Some?
    ensures DottedName(p) in RecordedOrigins(layers)
    ensures DottedName(p) in Names(EffectiveConfig(layers), []) <==> Unhidden(layers, p)
  {
    hide Dotless, LeafAt, Names, EffectiveConfig, RecordedOrigins, DottedName, Unhidden;
    assert [] + p == p;
    LeafHasName(layers[i].config, [], p);
    OriginIsLastNamed(layers, DottedName(p));
    EffectiveLeafExactly(layers, p);
    var effective := EffectiveConfig(layers);
    if Unhidden(layers, p) {
      LeafHasName(effective, [], p);
    }
    if DottedName(p) in Names(effective, []) {
      var q := NameHasLeaf(effective, [], DottedName(p));
      assert [] + q == q;
      EffectiveDotless(layers);
      DotlessNameIsPath(layers[i].config, effective, p, q);
    }
  }

  ghost predicate NothingHidden<M>(layers: seq<Layer<M>>) {
    forall i, p :: 0 <= i < |layers| && p != [] && LeafAt(layers[i].config, p).Some? ==> Unhidden(layers, p)
  }

  ghost predicate AllEffective<M>(layers: seq<Layer<M>>) {
    forall name :: name in RecordedOrigins(layers) ==> name in Names(EffectiveConfig(layers), [])
  }

  /** Every recorded name is the name of an effective setting exactly when no layer hides a
      setting of another for good. */
  lemma {:induction false} NoStaleOriginsExactly<M>(layers: seq<Layer<M>>)
    requires forall j :: 0 <= j < |layers| ==> Dotless(layers[j].config)
    ensures AllEffective(layers) <==> NothingHidden(layers)
  {
    hide Dotless, LeafAt, Names, EffectiveConfig, RecordedOrigins, DottedName, Unhidden;
    var effective, recorded := EffectiveConfig(layers), RecordedOrigins(layers);
    if AllEffective(layers) {
      forall i, p | 0 <= i < |layers| && p != [] && LeafAt(layers[i].config, p).Some? ensures Unhidden(layers, p) {
        RecordedIsEffectiveExactly(layers, i, p);
        assert DottedName(p) in recorded;
      }
    }
    if NothingHidden(layers) {
      forall name | name in recorded ensures name in Names(effective, []) {
        OriginIsLastNamed(layers, name);
        var i := LastNamed(layers, name).value;
        var p := NameHasLeaf(layers[i].config, [], name);
        assert [] + p == p;
        RecordedIsEffectiveExactly(layers, i, p);
      }
    }
  }

  /** A value in place of a table: the table's setting is gone, its origin is not. */
  lemma HiddenSettingKeepsOrigin(x: string, y: string)
    ensures var low, high := Table(map["a" := Table(map["b" := Scalar(x)])]), Table(map["a" := Scalar(y)]);
            var layers := [Layer(low, 0), Layer(high, 1)];
            && EffectiveConfig(layers) == high
            && "a.b" in RecordedOrigins(layers) && "a.b" !in Names(EffectiveConfig(layers), [])
  {
    hide Names, LeafAt;
    var low, high := Table(map["a" := Table(map["b" := Scalar(x)])]), Table(map["a" := Scalar(y)]);
    var layers := [Layer(low, 0), Layer(high, 1)];
    assert layers[..1] == [Layer(low, 0)] && layers[..1][..0] == [];
    assert EffectiveConfig(layers[..1]) == Merge(EMPTY, low) == low;
    assert Merge(low.entries["a"], high.entries["a"]) == Scalar(y);
    assert Merge(low, high).entries == high.entries;
    NestedName(x);
    PlainName(y);
    OriginIsLastNamed(layers, "a.b");
    assert layers[0].config == low;
  }

  lemma NestedName(x: string)
    ensures "a.b" in Names(Table(map["a" := Table(map["b" := Scalar(x)])]), [])
  {
    var p, v := ["a", "b"], Table(map["a" := Table(map["b" := Scalar(x)])]);
    assert p[1..] == ["b"] && ["b"][1..] == [];
    assert DottedName(p) == "a" + "." + "b" == "a.b";
    assert LeafAt(v, p) == Some(x);
    assert [] + p == p;
    hide Names, LeafAt, DottedName;
    LeafHasName(v, [], p);
  }

  lemma PlainName(y: string)
    ensures "a.b" !in Names(Table(map["a" := Scalar(y)]), [])
  {
    assert [] + ["a"] == ["a"];
    assert Names(Scalar(y), ["a"]) == {"a"};
    assert |"a"| != |"a.b"|;
  }
}
