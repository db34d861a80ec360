/**
 * The persistent union-find structure of equalities between terms
 * (src/seplog/uf.ml). Terms are numbered, and compared as numbers.
 */
module UnionFind {
  import Sets

  datatype Pair = Pair(lhs: int, rhs: int)
  type Uf = m: map<int, int> | Canonical(m)

  /** Every binding goes up to a representative, and representatives are not bound. */
  predicate Canonical(m: map<int, int>) {
    forall x :: x in m ==> x < m[x] && m[x] !in m
  }

  /** A chain of bindings; one step is enough, as the keys of a canonical structure are never values. */
  function Find(x: int, m: Uf): (r: int)
    ensures x <= r && r !in m
    decreases x in m
  {
    if x in m then Find(m[x], m) else x
  }

  predicate Equates(m: Uf, x: int, y: int) {
    Find(x, m) == Find(y, m)
  }

  function Order(e: Pair): Pair {
    if e.lhs <= e.rhs then e else Pair(e.rhs, e.lhs)
  }

  function Add(e: Pair, m: Uf): (m': Uf) {
    var Pair(x, y) := Order(Pair(Find(e.lhs, m), Find(e.rhs, m)));
    if x == y then m
    else
      var toX := map k | k in m && m[k] == x :: m[k];
      var rest := map k | k in m && m[k] != x :: m[k];
      var toY := map k | k in toX :: y;
      (rest + toY)[x := y]
  }

  function AddAll(es: seq<Pair>, m: Uf): (m': Uf) {
    if es == [] then m else AddAll(es[1..], Add(es[0], m))
  }

  function OfList(es: seq<Pair>): (m: Uf) {
    AddAll(es, map[])
  }

  /** The bindings in ascending order of their keys. */
  function Bindings(m: Uf): (es: seq<Pair>)
    ensures forall e :: e in es <==> e.lhs in m && e.rhs == m[e.lhs]
    decreases |m|
  {
    if m == map[] then []
    else
      var k := Sets.Least(m.Keys);
      assert |(m - {k}).Keys| < |m.Keys| by {
        assert (m - {k}).Keys == m.Keys - {k};
      }
      [Pair(k, m[k])] + Bindings(m - {k})
  }

  function Union(m: Uf, m': Uf): (r: Uf) {
    AddAll(Bindings(m'), m)
  }

  predicate Subsumed(m: Uf, m': Uf) {
    forall x :: x in m ==> Equates(m', x, m[x])
  }

  function Image(theta: int -> int, es: seq<Pair>): (r: seq<Pair>) {
    seq(|es|, i requires 0 <= i < |es| => Pair(theta(es[i].lhs), theta(es[i].rhs)))
  }

  function Subst(theta: int -> int, m: Uf): (r: Uf) {
    AddAll(Image(theta, Bindings(m)), map[])
  }

  // ---------- What a structure says about valuations ----------

  ghost predicate Satisfies(v: int -> int, es: seq<Pair>) {
    forall e :: e in es ==> v(e.lhs) == v(e.rhs)
  }

  ghost predicate Models(v: int -> int, m: Uf) {
    forall x :: x in m ==> v(x) == v(m[x])
  }

  ghost function Representative(m: Uf): int -> int {
    x => Find(x, m)
  }

  lemma RepresentativeModels(m: Uf)
    ensures Models(Representative(m), m)
  {
  }

  lemma FindIsEqual(v: int -> int, m: Uf, x: int)
    requires Models(v, m)
    ensures v(Find(x, m)) == v(x)
    decreases x in m
  {
    if x in m {
      FindIsEqual(v, m, m[x]);
    }
  }

  /** Equating is exactly equality under every valuation that respects the structure. */
  lemma EquatesIsEntailment(m: Uf, x: int, y: int)
    ensures Equates(m, x, y) <==> forall v: int -> int :: Models(v, m) ==> v(x) == v(y)
  {
    forall v: int -> int | Models(v, m) && Equates(m, x, y)
      ensures v(x) == v(y)
    {
      FindIsEqual(v, m, x);
      FindIsEqual(v, m, y);
    }
    RepresentativeModels(m);
    assert Representative(m)(x) == Find(x, m) && Representative(m)(y) == Find(y, m);
  }

  lemma AddModels(v: int -> int, e: Pair, m: Uf)
    ensures Models(v, Add(e, m)) <==> Models(v, m) && v(e.lhs) == v(e.rhs)
  {
    var m' := Add(e, m);
    var o := Order(Pair(Find(e.lhs, m), Find(e.rhs, m)));
    if Models(v, m) && v(e.lhs) == v(e.rhs) {
      FindIsEqual(v, m, e.lhs);
      FindIsEqual(v, m, e.rhs);
    }
    if Models(v, m') && o.lhs != o.rhs {
      assert v(o.lhs) == v(m'[o.lhs]);
      forall k | k in m
        ensures v(k) == v(m[k])
      {
        assert v(k) == v(m'[k]);
      }
    }
    if Models(v, m) && Models(v, m') {
      FindIsEqual(v, m, e.lhs);
      FindIsEqual(v, m, e.rhs);
    }
  }

  lemma {:induction false} AddAllModels(v: int -> int, es: seq<Pair>, m: Uf)
    ensures Models(v, AddAll(es, m)) <==> Models(v, m) && Satisfies(v, es)
    decreases |es|
  {
    if es != [] {
      AddModels(v, es[0], m);
      AddAllModels(v, es[1..], Add(es[0], m));
      assert es == [es[0]] + es[1..];
    }
  }

  lemma BindingsModels(v: int -> int, m: Uf)
    ensures Satisfies(v, Bindings(m)) <==> Models(v, m)
  {
    if Satisfies(v, Bindings(m)) {
      forall x | x in m
        ensures v(x) == v(m[x])
      {
        assert Pair(x, m[x]) in Bindings(m);
      }
    }
  }

  /** A union says what both structures say. */
  lemma UnionModels(v: int -> int, m: Uf, m': Uf)
    ensures Models(v, Union(m, m')) <==> Models(v, m) && Models(v, m')
  {
    AddAllModels(v, Bindings(m'), m);
    BindingsModels(v, m');
  }

  ghost function Then(theta: int -> int, v: int -> int): int -> int {
    x => v(theta(x))
  }

  lemma ImageSatisfies(theta: int -> int, v: int -> int, es: seq<Pair>)
    ensures Satisfies(Then(theta, v), es) ==> Satisfies(v, Image(theta, es))
  {
    var image := Image(theta, es);
    if Satisfies(Then(theta, v), es) {
      forall e | e in image
        ensures v(e.lhs) == v(e.rhs)
      {
        var i :| 0 <= i < |image| && image[i] == e;
        assert es[i] in es;
        assert Then(theta, v)(es[i].lhs) == Then(theta, v)(es[i].rhs);
      }
    }
  }

  lemma SatisfiesImage(theta: int -> int, v: int -> int, es: seq<Pair>)
    ensures Satisfies(v, Image(theta, es)) ==> Satisfies(Then(theta, v), es)
  {
    var image := Image(theta, es);
    if Satisfies(v, image) {
      forall e | e in es
        ensures Then(theta, v)(e.lhs) == Then(theta, v)(e.rhs)
      {
        var i :| 0 <= i < |es| && es[i] == e;
        assert image[i] in image;
      }
    }
  }

  /** The substitution lemma: a substituted structure holds of `v` when the original holds after substituting. */
  lemma SubstModels(theta: int -> int, v: int -> int, m: Uf)
    ensures Models(v, Subst(theta, m)) <==> Models(Then(theta, v), m)
  {
    AddAllModels(v, Image(theta, Bindings(m)), map[]);
    BindingsModels(Then(theta, v), m);
    ImageSatisfies(theta, v, Bindings(m));
    SatisfiesImage(theta, v, Bindings(m));
  }

  // ---------- Canonicity and subsumption ----------

  ghost predicate Within(m: Uf, m': Uf) {
    forall x, y :: Equates(m, x, y) ==> Equates(m', x, y)
  }

  lemma WithinFindsHigher(m: Uf, m': Uf, x: int)
    requires Within(m, m')
    ensures Find(x, m) <= Find(x, m')
  {
    assert Equates(m, x, Find(x, m));
  }

  /** Two structures are the same map exactly when they equate the same terms. */
  lemma EqualIffSameRelation(m: Uf, m': Uf)
    ensures m == m' <==> Within(m, m') && Within(m', m)
  {
    if Within(m, m') && Within(m', m) {
      forall x: int
        ensures Find(x, m) == Find(x, m')
      {
        WithinFindsHigher(m, m', x);
        WithinFindsHigher(m', m, x);
      }
      forall x: int
        ensures x in m <==> x in m'
        ensures x in m ==> m[x] == m'[x]
      {
        assert x in m <==> Find(x, m) != x;
        assert x in m' <==> Find(x, m') != x;
        assert x in m ==> Find(x, m) == m[x];
        assert x in m' ==> Find(x, m') == m'[x];
      }
      assert m == m';
    }
  }

  lemma SubsumedFinds(m: Uf, m': Uf, x: int)
    requires Subsumed(m, m')
    ensures Equates(m', x, Find(x, m))
  {
    if x in m {
      assert Find(x, m) == m[x];
    }
  }

  /** The quick test over bindings decides inclusion of the relations. */
  lemma SubsumedIffWithin(m: Uf, m': Uf)
    ensures Subsumed(m, m') <==> Within(m, m')
  {
    if Subsumed(m, m') {
      forall x: int, y: int | Equates(m, x, y)
        ensures Equates(m', x, y)
      {
        SubsumedFinds(m, m', x);
        SubsumedFinds(m, m', y);
      }
    }
    if Within(m, m') {
      forall x | x in m
        ensures Equates(m', x, m[x])
      {
        assert Equates(m, x, m[x]);
      }
    }
  }

  // ---------- The generated equivalence ----------

  ghost predicate Adjacent(es: seq<Pair>, x: int, y: int) {
    Pair(x, y) in es || Pair(y, x) in es
  }

  ghost predicate Link(es: seq<Pair>, c: seq<int>, i: nat)
    requires i < |c| - 1
  {
    Adjacent(es, c[i], c[i + 1])
  }

  ghost predicate Chain(es: seq<Pair>, c: seq<int>) {
    |c| > 0 && forall i :: 0 <= i < |c| - 1 ==> Link(es, c, i)
  }

  /** The equivalence generated by the equalities: the ends of a chain of them. */
  ghost predicate Generated(es: seq<Pair>, x: int, y: int) {
    exists c :: Chain(es, c) && c[0] == x && c[|c| - 1] == y
  }

  lemma GeneratedReflexive(es: seq<Pair>, x: int)
    ensures Generated(es, x, x)
  {
    assert Chain(es, [x]);
    assert [x][0] == x;
  }

  lemma GeneratedTransitive(es: seq<Pair>, x: int, y: int, z: int)
    requires Generated(es, x, y) && Generated(es, y, z)
    ensures Generated(es, x, z)
  {
    var c :| Chain(es, c) && c[0] == x && c[|c| - 1] == y;
    var d :| Chain(es, d) && d[0] == y && d[|d| - 1] == z;
    var cd := c + d[1..];
    forall i | 0 <= i < |cd| - 1
      ensures Link(es, cd, i)
    {
      if i + 1 < |c| {
        assert Link(es, c, i);
      } else {
        var k := i - |c| + 1;
        assert Link(es, d, k);
      }
    }
    assert Chain(es, cd) && cd[0] == x && cd[|cd| - 1] == z;
  }

  lemma GeneratedSymmetric(es: seq<Pair>, x: int, y: int)
    requires Generated(es, x, y)
    ensures Generated(es, y, x)
  {
    var c :| Chain(es, c) && c[0] == x && c[|c| - 1] == y;
    var n := |c|;
    var d := seq(n, i requires 0 <= i < n => c[n - 1 - i]);
    forall i | 0 <= i < n - 1
      ensures Link(es, d, i)
    {
      assert Link(es, c, n - 2 - i);
    }
    assert Chain(es, d) && d[0] == y && d[|d| - 1] == x;
  }

  lemma {:induction false} ChainIsEqual(v: int -> int, es: seq<Pair>, c: seq<int>, k: nat)
    requires Satisfies(v, es) && Chain(es, c) && k < |c|
    ensures v(c[0]) == v(c[k])
  {
    if k > 0 {
      ChainIsEqual(v, es, c, k - 1);
      assert Link(es, c, k - 1);
    }
  }

  /** All pairs equated by `m` are generated by `es`. */
  ghost predicate Justified(es: seq<Pair>, m: Uf) {
    forall x :: x in m ==> Generated(es, x, m[x])
  }

  lemma JustifiedFind(es: seq<Pair>, m: Uf, x: int)
    requires Justified(es, m)
    ensures Generated(es, x, Find(x, m))
  {
    if x in m {
      assert Find(x, m) == m[x];
    } else {
      GeneratedReflexive(es, x);
    }
  }

  lemma AddJustified(es: seq<Pair>, e: Pair, m: Uf)
    requires Justified(es, m) && e in es
    ensures Justified(es, Add(e, m))
  {
    var fx, fy := Find(e.lhs, m), Find(e.rhs, m);
    var o := Order(Pair(fx, fy));
    assert Generated(es, fx, fy) by {
      JustifiedFind(es, m, e.lhs);
      JustifiedFind(es, m, e.rhs);
      GeneratedSymmetric(es, e.lhs, fx);
      assert Adjacent(es, e.lhs, e.rhs);
      assert Chain(es, [e.lhs, e.rhs]);
      assert [e.lhs, e.rhs][0] == e.lhs && [e.lhs, e.rhs][1] == e.rhs;
      GeneratedTransitive(es, fx, e.lhs, e.rhs);
      GeneratedTransitive(es, fx, e.rhs, fy);
    }
    GeneratedSymmetric(es, fx, fy);
    var m' := Add(e, m);
    forall k | k in m'
      ensures Generated(es, k, m'[k])
    {
      if k in m && m'[k] != m[k] {
        GeneratedTransitive(es, k, o.lhs, o.rhs);
      }
    }
  }

  lemma {:induction false} AddAllJustified(all: seq<Pair>, es: seq<Pair>, m: Uf)
    requires Justified(all, m) && forall e :: e in es ==> e in all
    ensures Justified(all, AddAll(es, m))
    decreases |es|
  {
    if es != [] {
      AddJustified(all, es[0], m);
      AddAllJustified(all, es[1..], Add(es[0], m));
    }
  }

  /** A structure built from equalities equates exactly what they generate, which is what they entail. */
  lemma OfListIsGenerated(es: seq<Pair>, x: int, y: int)
    ensures Equates(OfList(es), x, y) <==> Generated(es, x, y)
    ensures Generated(es, x, y) <==> forall v: int -> int :: Satisfies(v, es) ==> v(x) == v(y)
  {
    var m := OfList(es);
    if Equates(m, x, y) {
      AddAllJustified(es, es, map[]);
      JustifiedFind(es, m, x);
      JustifiedFind(es, m, y);
      GeneratedSymmetric(es, y, Find(y, m));
      GeneratedTransitive(es, x, Find(x, m), y);
    }
    if Generated(es, x, y) {
      var c :| Chain(es, c) && c[0] == x && c[|c| - 1] == y;
      forall v: int -> int | Satisfies(v, es)
        ensures v(x) == v(y)
      {
        ChainIsEqual(v, es, c, |c| - 1);
      }
    }
    if forall v: int -> int :: Satisfies(v, es) ==> v(x) == v(y) {
      forall v: int -> int | Models(v, m)
        ensures v(x) == v(y)
      {
        AddAllModels(v, es, map[]);
      }
      EquatesIsEntailment(m, x, y);
    }
  }
}
