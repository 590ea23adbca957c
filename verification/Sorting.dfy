/** Sorting by a pair of strings, as the canonical form of JSON fixtures does, and facts about
    reorderings. */
module Sorting {

  // ---------------------------------------------------------------- order on strings

  /** `str::cmp`: lexicographic by character. */
  predicate Le(a: string, b: string) {
    if a == "" then true
    else if b == "" then false
    else if a[0] == b[0] then Le(a[1..], b[1..])
    else a[0] < b[0]
  }

  lemma {:induction false} LeTotal(a: string, b: string)
    ensures Le(a, b) || Le(b, a)
  {
    if a != "" && b != "" && a[0] == b[0] { LeTotal(a[1..], b[1..]); }
  }

  lemma {:induction false} LeTransitive(a: string, b: string, c: string)
    requires Le(a, b) && Le(b, c)
    ensures Le(a, c)
  {
    if a != "" && b != "" && c != "" && a[0] == b[0] && b[0] == c[0] { LeTransitive(a[1..], b[1..], c[1..]); }
  }

  lemma {:induction false} LeAntisymmetric(a: string, b: string)
    requires Le(a, b) && Le(b, a)
    ensures a == b
  {
    if a != "" && b != "" {
      LeAntisymmetric(a[1..], b[1..]);
      assert a == [a[0]] + a[1..] && b == [b[0]] + b[1..];
    }
  }

  // ---------------------------------------------------------------- reorderings

  function Without<T>(s: seq<T>, k: nat): seq<T>
    requires k < |s|
  {
    s[..k] + s[k + 1..]
  }

  lemma WithoutMultiset<T>(s: seq<T>, k: nat)
    requires k < |s|
    ensures multiset(s) == multiset(Without(s, k)) + multiset{s[k]}
  {
    assert s == s[..k] + [s[k]] + s[k + 1..];
  }

  /** Taking one copy of the same element out of two reorderings leaves reorderings. */
  lemma DropSame<T>(s: seq<T>, t: seq<T>, k: nat)
    requires s != [] && k < |t| && t[k] == s[0] && multiset(s) == multiset(t)
    ensures multiset(s[1..]) == multiset(Without(t, k)) && |s| == |t|
  {
    assert |multiset(s)| == |s| && |multiset(t)| == |t|;
    WithoutMultiset(t, k);
    assert s == [s[0]] + s[1..];
    assert multiset(s) == multiset{s[0]} + multiset(s[1..]);
    assert multiset(s[1..]) == multiset(s) - multiset{s[0]};
    assert multiset(Without(t, k)) == multiset(t) - multiset{t[k]};
  }

  // ---------------------------------------------------------------- keyed values

  /** A value with the key it is sorted by and the text that breaks ties. */
  datatype Keyed<T> = Keyed(key: string, tie: string, value: T)

  predicate KeyLe<T>(a: Keyed<T>, b: Keyed<T>) {
    if a.key == b.key then Le(a.tie, b.tie) else Le(a.key, b.key)
  }

  lemma KeyLeTotal<T>(a: Keyed<T>, b: Keyed<T>)
    ensures KeyLe(a, b) || KeyLe(b, a)
  {
    hide Le;
    LeTotal(a.key, b.key);
    LeTotal(a.tie, b.tie);
  }

  lemma KeyLeTransitive<T>(a: Keyed<T>, b: Keyed<T>, c: Keyed<T>)
    requires KeyLe(a, b) && KeyLe(b, c)
    ensures KeyLe(a, c)
  {
    hide Le;
    if a.key == b.key && b.key == c.key {
      LeTransitive(a.tie, b.tie, c.tie);
    } else if a.key != b.key && b.key != c.key {
      LeTransitive(a.key, b.key, c.key);
      if a.key == c.key { LeAntisymmetric(a.key, b.key); }
    }
  }

  lemma KeyLeAntisymmetric<T>(a: Keyed<T>, b: Keyed<T>)
    requires KeyLe(a, b) && KeyLe(b, a)
    ensures a.key == b.key && a.tie == b.tie
  {
    hide Le;
    if a.key == b.key { LeAntisymmetric(a.tie, b.tie); } else { LeAntisymmetric(a.key, b.key); }
  }

  function InsertKeyed<T>(x: Keyed<T>, s: seq<Keyed<T>>): seq<Keyed<T>> {
    if s == [] || KeyLe(x, s[0]) then [x] + s else [s[0]] + InsertKeyed(x, s[1..])
  }

  /** A stable sort by key and tie. */
  function SortKeyed<T>(s: seq<Keyed<T>>): seq<Keyed<T>> {
    if s == [] then [] else InsertKeyed(s[0], SortKeyed(s[1..]))
  }

  ghost predicate Ordered<T>(s: seq<Keyed<T>>) {
    forall i, j :: 0 <= i < j < |s| ==> KeyLe(s[i], s[j])
  }

  lemma {:induction false} InsertKeeps<T>(x: Keyed<T>, s: seq<Keyed<T>>)
    ensures multiset(InsertKeyed(x, s)) == multiset(s) + multiset{x}
  {
    if !(s == [] || KeyLe(x, s[0])) {
      InsertKeeps(x, s[1..]);
      assert s == [s[0]] + s[1..];
    }
  }

  lemma {:induction false} InsertOrders<T>(x: Keyed<T>, s: seq<Keyed<T>>)
    requires Ordered(s)
    ensures Ordered(InsertKeyed(x, s))
  {
    hide KeyLe;
    if s == [] {
    } else if KeyLe(x, s[0]) {
      forall i | 0 <= i < |s| ensures KeyLe(x, s[i]) {
        if i > 0 { KeyLeTransitive(x, s[0], s[i]); }
      }
    } else {
      var t := InsertKeyed(x, s[1..]);
      InsertOrders(x, s[1..]);
      InsertKeeps(x, s[1..]);
      forall i | 0 <= i < |t| ensures KeyLe(s[0], t[i]) {
        assert t[i] in multiset(t);
        if t[i] == x { KeyLeTotal(x, s[0]); } else { assert t[i] in s[1..]; }
      }
    }
  }

  lemma {:induction false} SortKeyedSorts<T>(s: seq<Keyed<T>>)
    ensures Ordered(SortKeyed(s)) && multiset(SortKeyed(s)) == multiset(s)
  {
    hide Ordered, KeyLe;
    if s == [] {
      OrderedEmpty<T>();
    } else {
      SortKeyedSorts(s[1..]);
      InsertOrders(s[0], SortKeyed(s[1..]));
      InsertKeeps(s[0], SortKeyed(s[1..]));
      assert s == [s[0]] + s[1..];
    }
  }

  lemma OrderedEmpty<T>()
    ensures Ordered<T>([])
  {
  }

  /** The sort leaves an ordered list as it is. */
  lemma {:induction false} OrderedIsSorted<T>(s: seq<Keyed<T>>)
    requires Ordered(s)
    ensures SortKeyed(s) == s
  {
    hide KeyLe;
    if s != [] {
      OrderedTail(s);
      OrderedIsSorted(s[1..]);
      assert |s| > 1 ==> KeyLe(s[0], s[1..][0]);
      assert [s[0]] + s[1..] == s;
    }
  }

  /** Elements with one key and one tie are the same element. */
  ghost predicate KeysDecide<T>(s: seq<Keyed<T>>) {
    forall i, j :: 0 <= i < |s| && 0 <= j < |s| && s[i].key == s[j].key && s[i].tie == s[j].tie ==> s[i] == s[j]
  }

  lemma {:induction false} OrderedUnique<T>(a: seq<Keyed<T>>, b: seq<Keyed<T>>)
    requires Ordered(a) && Ordered(b) && multiset(a) == multiset(b) && KeysDecide(a)
    ensures a == b
    decreases |a|
  {
    hide KeyLe, Ordered, KeysDecide, Without;
    assert |multiset(a)| == |a| && |multiset(b)| == |b|;
    if a != [] {
      assert a[0] in multiset(b) && b[0] in multiset(a);
      var i :| 0 <= i < |b| && b[i] == a[0];
      var j :| 0 <= j < |a| && a[j] == b[0];
      FirstsAgree(a, b, i, j);
      DropSame(a, b, 0);
      WithoutFirst(b);
      KeysDecideTail(a);
      OrderedTail(a);
      OrderedTail(b);
      OrderedUnique(a[1..], b[1..]);
      assert a == [a[0]] + a[1..] && b == [b[0]] + b[1..];
    }
  }

  lemma WithoutFirst<T>(s: seq<T>)
    requires s != []
    ensures Without(s, 0) == s[1..]
  {
  }

  lemma OrderedTail<T>(s: seq<Keyed<T>>)
    requires s != [] && Ordered(s)
    ensures Ordered(s[1..])
  {
    hide KeyLe;
  }

  lemma FirstsAgree<T>(a: seq<Keyed<T>>, b: seq<Keyed<T>>, i: nat, j: nat)
    requires Ordered(a) && Ordered(b) && KeysDecide(a)
    requires i < |b| && j < |a| && b[i] == a[0] && a[j] == b[0]
    ensures a[0] == b[0]
  {
    hide KeyLe;
    if i > 0 && j > 0 {
      assert KeyLe(a[0], a[j]) && KeyLe(b[0], b[i]);
      KeyLeAntisymmetric(a[0], a[j]);
    }
  }

  lemma KeysDecideTail<T>(s: seq<Keyed<T>>)
    requires s != [] && KeysDecide(s)
    ensures KeysDecide(s[1..])
  {
    var t := s[1..];
    forall i, j | 0 <= i < |t| && 0 <= j < |t| && t[i].key == t[j].key && t[i].tie == t[j].tie ensures t[i] == t[j] {
      assert t[i] == s[i + 1] && t[j] == s[j + 1];
    }
  }

  /** Reorderings of one list sort to one list. */
  lemma SortIgnoresOrder<T>(a: seq<Keyed<T>>, b: seq<Keyed<T>>)
    requires multiset(a) == multiset(b) && KeysDecide(a)
    ensures SortKeyed(a) == SortKeyed(b)
  {
    hide Ordered, KeyLe, SortKeyed;
    SortKeyedSorts(a);
    SortKeyedSorts(b);
    KeysDecideSame(a, SortKeyed(a));
    OrderedUnique(SortKeyed(a), SortKeyed(b));
  }

  lemma KeysDecideSame<T>(a: seq<Keyed<T>>, b: seq<Keyed<T>>)
    requires multiset(a) == multiset(b) && KeysDecide(a)
    ensures KeysDecide(b)
  {
    forall i, j | 0 <= i < |b| && 0 <= j < |b| && b[i].key == b[j].key && b[i].tie == b[j].tie
      ensures b[i] == b[j]
    {
      assert b[i] in multiset(a) && b[j] in multiset(a);
      var x :| 0 <= x < |a| && a[x] == b[i];
      var y :| 0 <= y < |a| && a[y] == b[j];
    }
  }

  // ---------------------------------------------------------------- reorderings and images

  /** `images` lists the images of `xs` in step. If `ts` is a reordering of the images, some
      reordering of the originals has `ts` as its images. */
  lemma {:induction false} LiftReordering<A, B>(xs: seq<A>, images: seq<B>, ts: seq<B>) returns (zs: seq<A>)
    requires |xs| == |images| && multiset(ts) == multiset(images)
    ensures |zs| == |ts| && multiset(zs) == multiset(xs)
    ensures forall i :: 0 <= i < |zs| ==> exists j :: 0 <= j < |xs| && zs[i] == xs[j] && ts[i] == images[j]
    decreases |ts|
  {
    assert |multiset(ts)| == |ts| && |multiset(images)| == |images|;
    if ts == [] {
      zs := [];
      assert xs == [];
    } else {
      assert ts[0] in multiset(images);
      var k :| 0 <= k < |images| && images[k] == ts[0];
      DropSame(ts, images, k);
      WithoutMultiset(xs, k);
      var rest := LiftReordering(Without(xs, k), Without(images, k), ts[1..]);
      zs := [xs[k]] + rest;
      LiftStep(xs, images, ts, k, rest);
    }
  }

  lemma LiftStep<A, B>(xs: seq<A>, images: seq<B>, ts: seq<B>, k: nat, rest: seq<A>)
    requires |xs| == |images| && k < |xs| && ts != [] && |rest| == |ts| - 1
    requires images[k] == ts[0]
    requires forall i :: 0 <= i < |rest| ==>
      exists j :: 0 <= j < |xs| - 1 && rest[i] == Without(xs, k)[j] && ts[1..][i] == Without(images, k)[j]
    ensures forall i :: 0 <= i < |rest| + 1 ==>
      exists j :: 0 <= j < |xs| && ([xs[k]] + rest)[i] == xs[j] && ts[i] == images[j]
  {
    var zs := [xs[k]] + rest;
    forall i | 0 <= i < |zs| ensures exists j :: 0 <= j < |xs| && zs[i] == xs[j] && ts[i] == images[j] {
      if i == 0 {
        assert zs[0] == xs[k] && ts[0] == images[k];
      } else {
        assert zs[i] == rest[i - 1] && ts[i] == ts[1..][i - 1];
        var j :| 0 <= j < |xs| - 1 && rest[i - 1] == Without(xs, k)[j] && ts[1..][i - 1] == Without(images, k)[j];
        var j' := if j < k then j else j + 1;
        assert Without(xs, k)[j] == xs[j'] && Without(images, k)[j] == images[j'];
      }
    }
  }

  /** Reordering the originals reorders the images, when equal originals have equal images. */
  lemma {:induction false} ImagesReorder<A, B>(xs: seq<A>, fx: seq<B>, ys: seq<A>, fy: seq<B>)
    requires |xs| == |fx| && |ys| == |fy| && multiset(xs) == multiset(ys)
    requires forall i, j :: 0 <= i < |xs| && 0 <= j < |ys| && xs[i] == ys[j] ==> fx[i] == fy[j]
    ensures multiset(fx) == multiset(fy)
    decreases |xs|
  {
    assert |multiset(xs)| == |xs| && |multiset(ys)| == |ys|;
    if xs == [] {
      assert fx == [] && fy == [];
    } else {
      assert xs[0] in multiset(ys);
      var k :| 0 <= k < |ys| && ys[k] == xs[0];
      DropSame(xs, ys, k);
      forall i, j | 0 <= i < |xs[1..]| && 0 <= j < |Without(ys, k)| && xs[1..][i] == Without(ys, k)[j]
        ensures fx[1..][i] == Without(fy, k)[j]
      {
        var j' := if j < k then j else j + 1;
        assert Without(ys, k)[j] == ys[j'] && Without(fy, k)[j] == fy[j'];
        assert xs[i + 1] == ys[j'];
      }
      ImagesReorder(xs[1..], fx[1..], Without(ys, k), Without(fy, k));
      WithoutMultiset(fy, k);
      assert fx == [fx[0]] + fx[1..] && fx[0] == fy[k];
    }
  }
}
