/** Graph minimisation (src/generic/soundcheck.ml): `remove_dead_nodes` and `fuse_single_nodes`. */
module Minimise {
  import opened Sets
  import opened TraceGraph
  import opened Fusion
  import opened DeadNodes

  function Compose(t1: Pairs, t2: Pairs): (r: Pairs)
    ensures forall x, z :: (x, z) in r <==> exists y :: (x, y) in t1 && (y, z) in t2
  {
    var r := set q1, q2 | q1 in t1 && q2 in t2 && q1.1 == q2.0 :: (q1.0, q2.1);
    assert forall x, z :: (x, z) in r ==> exists y :: (x, y) in t1 && (y, z) in t2 by {
      forall x, z | (x, z) in r
        ensures exists y :: (x, y) in t1 && (y, z) in t2
      {
        var q1, q2 :| q1 in t1 && q2 in t2 && q1.1 == q2.0 && (q1.0, q2.1) == (x, z);
        assert (x, q1.1) == q1 && (q1.1, z) == q2;
      }
    }
    r
  }

  predicate InChildren(child: int, n: AbsNode) {
    exists k :: 0 <= k < |n.subg| && n.subg[k].goal == child
  }

  /** The first position at which `child` occurs. */
  function IndexOfChild(child: int, subg: seq<Edge>): (k: nat)
    requires exists k :: 0 <= k < |subg| && subg[k].goal == child
    ensures k < |subg| && subg[k].goal == child
    ensures forall j :: 0 <= j < k ==> subg[j].goal != child
  {
    if subg[0].goal == child then 0 else 1 + IndexOfChild(child, subg[1..])
  }

  predicate IsLeaf(n: AbsNode) {
    n.subg == []
  }

  /** One child, and not a self loop. */
  predicate IsSingleNode(idx: int, n: AbsNode) {
    |n.subg| == 1 && n.subg[0].goal != idx
  }

  /** Some node points both to `idx` and to the only child of `idx`. */
  predicate FathersGrandchild(prf: AbsProof, idx: int, n: AbsNode)
    requires IsSingleNode(idx, n)
  {
    exists p :: p in prf && InChildren(idx, prf[p]) && InChildren(n.subg[0].goal, prf[p])
  }

  // ---------- One round of remove_dead_nodes ----------

  function DropChild(n: AbsNode, child: int): AbsNode {
    if !InChildren(child, n) then n
    else if |n.subg| == 1 then AbsNode(n.tags, [])
    else
      var k := IndexOfChild(child, n.subg);
      AbsNode(n.tags, n.subg[..k] + n.subg[k + 1..])
  }

  lemma DroppedEdge(s: seq<Edge>, k: nat, e: Edge)
    requires k < |s| && DistinctGoals(s)
    ensures e in s[..k] + s[k + 1..] <==> e in s && e.goal != s[k].goal
  {
    if e in s && e.goal != s[k].goal {
      var j :| 0 <= j < |s| && s[j] == e;
      assert if j < k then s[..k][j] == e else s[k + 1..][j - k - 1] == e;
    }
  }

  lemma DropChildEdges(n: AbsNode, child: int)
    requires DistinctGoals(n.subg)
    ensures forall e :: e in DropChild(n, child).subg <==> e in n.subg && e.goal != child
    ensures DistinctGoals(DropChild(n, child).subg)
  {
    if InChildren(child, n) && |n.subg| != 1 {
      var k := IndexOfChild(child, n.subg);
      forall e: Edge
        ensures e in DropChild(n, child).subg <==> e in n.subg && e.goal != child
      {
        DroppedEdge(n.subg, k, e);
      }
    }
  }

  function WithoutLeaf(prf: AbsProof, idx: int): AbsProof {
    map p | p in prf && p != idx :: DropChild(prf[p], idx)
  }

  lemma WithoutLeafRemoved(prf: AbsProof, idx: int)
    requires Simple(prf)
    requires idx in prf && IsLeaf(prf[idx])
    ensures LeafRemoved(prf, WithoutLeaf(prf, idx), idx)
    ensures Simple(WithoutLeaf(prf, idx))
  {
    forall p | p in prf { DropChildEdges(prf[p], idx); }
  }

  lemma WithoutLeafWellFormed(prf: AbsProof, idx: int)
    requires Simple(prf) && AllNodesOk(prf)
    ensures AllNodesOk(WithoutLeaf(prf, idx))
  {
    var r := WithoutLeaf(prf, idx);
    forall i | i in r
      ensures NodeOk(r, r[i])
    {
      DropChildEdges(prf[i], idx);
      forall k | 0 <= k < |r[i].subg|
        ensures EdgeOk(r, r[i].tags, r[i].subg[k])
      {
        var e := r[i].subg[k];
        assert e in r[i].subg;
        var j :| 0 <= j < |prf[i].subg| && prf[i].subg[j] == e;
        assert EdgeOk(prf, prf[i].tags, prf[i].subg[j]);
      }
    }
  }

  method RemoveDeadNode(prf: AbsProof, idx: int) returns (r: AbsProof)
    requires idx in prf && IsLeaf(prf[idx])
    ensures r == WithoutLeaf(prf, idx)
  {
    r := prf - {idx};
    var todo := r.Keys;
    while todo != {}
      invariant todo <= r.Keys
      invariant r.Keys == prf.Keys - {idx}
      invariant forall p :: p in r ==> r[p] == if p in todo then prf[p] else DropChild(prf[p], idx)
      decreases todo
    {
      ghost var w := Pick(todo);
      assert w in todo;
      var p :| p in todo;
      if InChildren(idx, r[p]) {
        r := r[p := DropChild(r[p], idx)];
      }
      todo := todo - {p};
    }
  }

  /** What minimisation may do to a graph checked from `init`. */
  ghost predicate SameCondition(prf: AbsProof, r: AbsProof, init: int) {
    if init in r then GTC(r, init) <==> GTC(prf, init) else GTC(prf, init)
  }

  lemma LeafSatisfiesGTC(prf: AbsProof, init: int)
    requires init in prf && IsLeaf(prf[init])
    ensures GTC(prf, init)
  {
    forall p: nat -> int
      ensures !IsPath(prf, init, p)
    {
      assert p(0) == init ==> !StepAt(prf, p, 0);
    }
  }

  method RemoveDeadNodes(prf: AbsProof, init: int) returns (r: AbsProof)
    requires Simple(prf) && WellFormed(prf, init)
    ensures r.Keys <= prf.Keys && Simple(r) && AllNodesOk(r)
    ensures forall i :: i in r && i != 0 ==> !IsLeaf(r[i])
    ensures SameCondition(prf, r, init)
    ensures forall i :: i in r <==> i in prf && Lives(prf, i)
  {
    r := prf;
    while exists idx :: idx in r && idx != 0 && IsLeaf(r[idx])
      invariant r.Keys <= prf.Keys && Simple(r) && AllNodesOk(r)
      invariant SameCondition(prf, r, init)
      invariant forall i :: i in prf ==> i in r || !Lives(prf, i)
      invariant forall i :: i in r ==> (Lives(r, i) <==> Lives(prf, i))
      decreases |r|
    {
      var idx :| idx in r && idx != 0 && IsLeaf(r[idx]);
      var r' := RemoveDeadNode(r, idx);
      WithoutLeafRemoved(r, idx);
      WithoutLeafWellFormed(r, idx);
      if idx == init {
        LeafSatisfiesGTC(r, init);
      } else {
        LeafRemovalPreservesGTC(r, r', idx, init);
      }
      assert r'.Keys == r.Keys - {idx};
      forall i: int
        ensures !Lives(r, idx) && (i != idx ==> (Lives(r, i) <==> Lives(r', i)))
      {
        LeafRemovalLives(r, r', idx, i);
      }
      r := r';
    }
    forall i | i in r
      ensures Lives(r, i)
    {
      NoLeavesAllLive(r, i);
    }
  }

  // ---------- One round of fuse_single_nodes ----------

  function FusedEdge(par: Edge, e: Edge): Edge {
    Edge(e.goal, Compose(par.tv, e.tv), Compose(par.tp, e.tp) + Compose(par.tv, e.tp) + Compose(par.tp, e.tv))
  }

  /** `process_node`: the edge of `n` into the fused node `idx` now leads to its child. */
  function FuseParent(n: AbsNode, idx: int, e: Edge): AbsNode {
    if !InChildren(idx, n) then n
    else
      var k := IndexOfChild(idx, n.subg);
      AbsNode(n.tags, n.subg[k := FusedEdge(n.subg[k], e)])
  }

  function WithoutSingle(prf: AbsProof, idx: int, e: Edge): AbsProof {
    map p | p in prf && p != idx :: FuseParent(prf[p], idx, e)
  }

  lemma FuseParentEdges(n: AbsNode, idx: int, e: Edge)
    requires DistinctGoals(n.subg)
    requires InChildren(idx, n) && !InChildren(e.goal, n)
    ensures forall f :: f in FuseParent(n, idx, e).subg <==>
              (f in n.subg && f.goal != idx) || f == FusedEdge(n.subg[IndexOfChild(idx, n.subg)], e)
    ensures DistinctGoals(FuseParent(n, idx, e).subg)
  {
    var k := IndexOfChild(idx, n.subg);
    var subg' := FuseParent(n, idx, e).subg;
    forall f | f in n.subg && f.goal != idx
      ensures f in subg'
    {
      var j :| 0 <= j < |n.subg| && n.subg[j] == f;
      assert subg'[j] == f;
    }
    assert subg'[k] == FusedEdge(n.subg[k], e);
  }

  /** The guard of the fusion loop, on a well-formed graph: `e` is the only edge of `idx`. */
  predicate Fusable(prf: AbsProof, idx: int, e: Edge) {
    && Simple(prf) && AllNodesOk(prf)
    && idx in prf && prf[idx].subg == [e] && e.goal != idx
    && !FathersGrandchild(prf, idx, prf[idx])
  }

  lemma OnlyEdge(prf: AbsProof, idx: int, e: Edge)
    requires Fusable(prf, idx, e)
    ensures forall b :: Step(prf, idx, b) <==> b == e.goal
    ensures forall x, y :: Valid(prf, idx, e.goal, x, y) <==> (x, y) in e.tv
    ensures forall x, y :: Prog(prf, idx, e.goal, x, y) <==> (x, y) in e.tp
    ensures e.tp <= e.tv
  {
    assert e in prf[idx].subg;
    assert EdgeOk(prf, prf[idx].tags, prf[idx].subg[0]);
  }

  /** With distinct successors, the edge into a child determines the step and its pairs. */
  lemma EdgeInto(prf: AbsProof, a: int, k: nat)
    requires Simple(prf) && a in prf && k < |prf[a].subg|
    ensures var e := prf[a].subg[k];
      && Step(prf, a, e.goal)
      && (forall x, y :: Valid(prf, a, e.goal, x, y) <==> (x, y) in e.tv)
      && (forall x, y :: Prog(prf, a, e.goal, x, y) <==> (x, y) in e.tp)
  {
    var e := prf[a].subg[k];
    assert e in prf[a].subg;
    forall f | f in prf[a].subg && f.goal == e.goal
      ensures f == e
    {
      var j :| 0 <= j < |prf[a].subg| && prf[a].subg[j] == f;
      assert j == k;
    }
  }

  lemma StepIsChild(prf: AbsProof, a: int, b: int)
    requires a in prf
    ensures Step(prf, a, b) <==> InChildren(b, prf[a])
  {
    if Step(prf, a, b) {
      var e :| e in prf[a].subg && e.goal == b;
    }
  }

  lemma NoGrandchild(prf: AbsProof, idx: int, e: Edge, a: int)
    requires Fusable(prf, idx, e)
    ensures Step(prf, a, idx) ==> InChildren(idx, prf[a]) && !InChildren(e.goal, prf[a]) && !Step(prf, a, e.goal)
  {
    if a in prf {
      StepIsChild(prf, a, idx);
      StepIsChild(prf, a, e.goal);
    }
  }

  /** The edges of a node that does not point to the fused one are untouched. */
  lemma UntouchedParent(prf: AbsProof, idx: int, e: Edge, a: int)
    requires Fusable(prf, idx, e)
    requires a != idx && !Step(prf, a, idx)
    ensures a in prf ==> WithoutSingle(prf, idx, e)[a] == prf[a]
    ensures a in WithoutSingle(prf, idx, e) <==> a in prf
  {
    if a in prf {
      StepIsChild(prf, a, idx);
    }
  }

  /** A parent keeps its other edges and gets the composed edge to the grandchild. */
  lemma TouchedParent(prf: AbsProof, idx: int, e: Edge, a: int) returns (par: Edge)
    requires Fusable(prf, idx, e)
    requires a != idx && Step(prf, a, idx)
    ensures a in prf && a in WithoutSingle(prf, idx, e)
    ensures forall x, y :: Valid(prf, a, idx, x, y) <==> (x, y) in par.tv
    ensures forall x, y :: Prog(prf, a, idx, x, y) <==> (x, y) in par.tp
    ensures par.tp <= par.tv
    ensures forall f :: f in WithoutSingle(prf, idx, e)[a].subg <==>
              (f in prf[a].subg && f.goal != idx) || f == FusedEdge(par, e)
    ensures !InChildren(e.goal, prf[a])
  {
    NoGrandchild(prf, idx, e, a);
    var k := IndexOfChild(idx, prf[a].subg);
    par := prf[a].subg[k];
    EdgeInto(prf, a, k);
    FuseParentEdges(prf[a], idx, e);
    assert EdgeOk(prf, prf[a].tags, prf[a].subg[k]);
  }

  lemma FusedStep(prf: AbsProof, idx: int, e: Edge, a: int, b: int)
    requires Fusable(prf, idx, e)
    ensures Step(WithoutSingle(prf, idx, e), a, b) <==>
              a != idx && b != idx && (Step(prf, a, b) || Composite(prf, idx, e.goal, a, b))
  {
    var r := WithoutSingle(prf, idx, e);
    if a != idx {
      if Step(prf, a, idx) {
        var par := TouchedParent(prf, idx, e, a);
        assert FusedEdge(par, e) in r[a].subg;
      } else {
        UntouchedParent(prf, idx, e, a);
      }
    }
  }

  ghost predicate Through(par: Edge, e: Edge, x: int, y: int, z: int) {
    (x, y) in par.tv && (y, z) in e.tv
  }

  ghost predicate ProgThrough(par: Edge, e: Edge, x: int, y: int, z: int) {
    Through(par, e, x, y, z) && ((x, y) in par.tp || (y, z) in e.tp)
  }

  lemma FusedPairs(par: Edge, e: Edge, x: int, z: int)
    requires par.tp <= par.tv && e.tp <= e.tv
    ensures (x, z) in FusedEdge(par, e).tv <==> exists y :: Through(par, e, x, y, z)
    ensures (x, z) in FusedEdge(par, e).tp <==> exists y :: ProgThrough(par, e, x, y, z)
  {
    if (x, z) in FusedEdge(par, e).tv {
      var y :| (x, y) in par.tv && (y, z) in e.tv;
      assert Through(par, e, x, y, z);
    }
    if (x, z) in FusedEdge(par, e).tp {
      var y :| ((x, y) in par.tp && (y, z) in e.tp) || ((x, y) in par.tv && (y, z) in e.tp)
            || ((x, y) in par.tp && (y, z) in e.tv);
      assert ProgThrough(par, e, x, y, z);
    }
  }

  lemma SoleEdge(g: AbsProof, a: int, f: Edge)
    requires a in g && f in g[a].subg
    requires forall h :: h in g[a].subg && h.goal == f.goal ==> h == f
    ensures forall x, z :: Valid(g, a, f.goal, x, z) <==> (x, z) in f.tv
    ensures forall x, z :: Prog(g, a, f.goal, x, z) <==> (x, z) in f.tp
  {
  }

  /** The pairs of the edge from `a` to `b` are `tv` and `tp`. */
  ghost predicate HasPairs(prf: AbsProof, a: int, b: int, tv: Pairs, tp: Pairs) {
    && (forall x, y :: Valid(prf, a, b, x, y) <==> (x, y) in tv)
    && (forall x, y :: Prog(prf, a, b, x, y) <==> (x, y) in tp)
  }

  lemma ComposedBy(prf: AbsProof, a: int, idx: int, par: Edge, e: Edge, x: int, y: int, z: int)
    requires HasPairs(prf, a, idx, par.tv, par.tp) && HasPairs(prf, idx, e.goal, e.tv, e.tp)
    ensures Through(par, e, x, y, z) <==> ValidBy(prf, a, idx, e.goal, x, y, z)
    ensures ProgThrough(par, e, x, y, z) <==> ProgBy(prf, a, idx, e.goal, x, y, z)
  {
    assert Valid(prf, a, idx, x, y) <==> (x, y) in par.tv;
    assert Valid(prf, idx, e.goal, y, z) <==> (y, z) in e.tv;
    assert Prog(prf, a, idx, x, y) <==> (x, y) in par.tp;
    assert Prog(prf, idx, e.goal, y, z) <==> (y, z) in e.tp;
  }

  lemma ComposedPairs(prf: AbsProof, a: int, idx: int, par: Edge, e: Edge, x: int, z: int)
    requires par.tp <= par.tv && e.tp <= e.tv
    requires HasPairs(prf, a, idx, par.tv, par.tp) && HasPairs(prf, idx, e.goal, e.tv, e.tp)
    ensures (x, z) in FusedEdge(par, e).tv <==> ValidVia(prf, a, idx, e.goal, x, z)
    ensures (x, z) in FusedEdge(par, e).tp <==> ProgVia(prf, a, idx, e.goal, x, z)
  {
    FusedPairs(par, e, x, z);
    forall y: int
      ensures Through(par, e, x, y, z) <==> ValidBy(prf, a, idx, e.goal, x, y, z)
      ensures ProgThrough(par, e, x, y, z) <==> ProgBy(prf, a, idx, e.goal, x, y, z)
    {
      ComposedBy(prf, a, idx, par, e, x, y, z);
    }
  }

  lemma ComposedEdge(prf: AbsProof, idx: int, e: Edge, a: int, x: int, z: int)
    requires Fusable(prf, idx, e)
    requires a != idx && Step(prf, a, idx)
    ensures Valid(WithoutSingle(prf, idx, e), a, e.goal, x, z) <==> ValidVia(prf, a, idx, e.goal, x, z)
    ensures Prog(WithoutSingle(prf, idx, e), a, e.goal, x, z) <==> ProgVia(prf, a, idx, e.goal, x, z)
  {
    var par := TouchedParent(prf, idx, e, a);
    OnlyEdge(prf, idx, e);
    ComposedPairs(prf, a, idx, par, e, x, z);
    assert forall h :: h in prf[a].subg ==> h.goal != e.goal;
    SoleEdge(WithoutSingle(prf, idx, e), a, FusedEdge(par, e));
  }

  lemma OtherEdge(prf: AbsProof, idx: int, e: Edge, a: int, b: int, x: int, z: int)
    requires Fusable(prf, idx, e)
    requires a != idx && b != idx && !Composite(prf, idx, e.goal, a, b)
    ensures Valid(WithoutSingle(prf, idx, e), a, b, x, z) <==> Valid(prf, a, b, x, z)
    ensures Prog(WithoutSingle(prf, idx, e), a, b, x, z) <==> Prog(prf, a, b, x, z)
  {
    if Step(prf, a, idx) {
      var par := TouchedParent(prf, idx, e, a);
    } else {
      UntouchedParent(prf, idx, e, a);
    }
  }

  lemma FusedAway(prf: AbsProof, idx: int, e: Edge, a: int, b: int, x: int, z: int)
    requires Fusable(prf, idx, e)
    requires a == idx || b == idx
    ensures !Valid(WithoutSingle(prf, idx, e), a, b, x, z) && !Prog(WithoutSingle(prf, idx, e), a, b, x, z)
  {
    FusedStep(prf, idx, e, a, b);
  }

  lemma WithoutSingleFused(prf: AbsProof, idx: int, e: Edge)
    requires Fusable(prf, idx, e)
    ensures NodeFused(prf, WithoutSingle(prf, idx, e), idx, e.goal)
  {
    var c := e.goal;
    var r := WithoutSingle(prf, idx, e);
    OnlyEdge(prf, idx, e);
    forall a { NoGrandchild(prf, idx, e, a); }
    forall a, b { FusedStep(prf, idx, e, a, b); }
    forall a, b, x, z
      ensures Valid(r, a, b, x, z) <==>
                a != idx && b != idx &&
                if Composite(prf, idx, c, a, b) then ValidVia(prf, a, idx, c, x, z) else Valid(prf, a, b, x, z)
      ensures Prog(r, a, b, x, z) <==>
                a != idx && b != idx &&
                if Composite(prf, idx, c, a, b) then ProgVia(prf, a, idx, c, x, z) else Prog(prf, a, b, x, z)
    {
      if a == idx || b == idx {
        FusedAway(prf, idx, e, a, b, x, z);
      } else if Composite(prf, idx, c, a, b) {
        ComposedEdge(prf, idx, e, a, x, z);
      } else {
        OtherEdge(prf, idx, e, a, b, x, z);
      }
    }
  }

  lemma WithoutSingleSimple(prf: AbsProof, idx: int, e: Edge)
    requires Fusable(prf, idx, e)
    ensures Simple(WithoutSingle(prf, idx, e))
  {
    forall p | p in prf && p != idx
      ensures DistinctGoals(FuseParent(prf[p], idx, e).subg)
    {
      if InChildren(idx, prf[p]) {
        StepIsChild(prf, p, idx);
        NoGrandchild(prf, idx, e, p);
        FuseParentEdges(prf[p], idx, e);
      }
    }
  }

  lemma FusedEdgeOk(prf: AbsProof, idx: int, e: Edge, tags: set<int>, par: Edge)
    requires EdgeOk(prf, tags, par) && par.goal == idx
    requires EdgeOk(prf, prf[idx].tags, e)
    ensures EdgeOk(prf, tags, FusedEdge(par, e))
  {
    var f := FusedEdge(par, e);
    forall q | q in f.tp
      ensures q in f.tv
    {
      FusedPairs(par, e, q.0, q.1);
      assert q == (q.0, q.1);
    }
    forall q | q in f.tv
      ensures q.0 in tags && q.1 in prf[e.goal].tags
    {
      FusedPairs(par, e, q.0, q.1);
      assert q == (q.0, q.1);
      var y :| (q.0, y) in par.tv && (y, q.1) in e.tv;
    }
  }

  lemma WithoutSingleWellFormed(prf: AbsProof, idx: int, e: Edge)
    requires Fusable(prf, idx, e)
    ensures AllNodesOk(WithoutSingle(prf, idx, e))
  {
    var r := WithoutSingle(prf, idx, e);
    assert EdgeOk(prf, prf[idx].tags, prf[idx].subg[0]);
    forall p, j | p in r && 0 <= j < |r[p].subg|
      ensures EdgeOk(r, r[p].tags, r[p].subg[j])
    {
      assert EdgeOk(prf, prf[p].tags, prf[p].subg[j]);
      if InChildren(idx, prf[p]) && j == IndexOfChild(idx, prf[p].subg) {
        FusedEdgeOk(prf, idx, e, prf[p].tags, prf[p].subg[j]);
      } else {
        assert r[p].subg[j] == prf[p].subg[j];
        assert prf[p].subg[j].goal != idx;
      }
    }
  }

  method FuseNode(prf: AbsProof, idx: int, e: Edge) returns (r: AbsProof)
    requires Fusable(prf, idx, e)
    ensures r == WithoutSingle(prf, idx, e)
  {
    r := prf;
    var todo := prf.Keys;
    while todo != {}
      invariant todo <= r.Keys
      invariant r.Keys == prf.Keys
      invariant forall p :: p in r ==> r[p] == if p in todo then prf[p] else FuseParent(prf[p], idx, e)
      decreases todo
    {
      ghost var w := Pick(todo);
      assert w in todo;
      var p :| p in todo;
      if InChildren(idx, r[p]) {
        r := r[p := FuseParent(r[p], idx, e)];
      }
      todo := todo - {p};
    }
    r := r - {idx};
  }

  /** The guard `p` of the fusion loop. */
  predicate ToFuse(prf: AbsProof, init: int, idx: int) {
    idx in prf && idx != init && IsSingleNode(idx, prf[idx]) && !FathersGrandchild(prf, idx, prf[idx])
  }

  ghost predicate OnlySuccessor(g: AbsProof, i: int, b: int) {
    forall c :: Step(g, i, c) <==> c == b
  }

  ghost predicate HasFatherOf(g: AbsProof, i: int, b: int) {
    exists p :: Step(g, p, i) && Step(g, p, b)
  }

  /** Wherever a single successor is left, other than of the initial node or of a loop, some father of the node leads to
      that successor as well. */
  ghost predicate FullyFused(g: AbsProof, init: int) {
    forall i, b :: i in g && i != init && b != i && OnlySuccessor(g, i, b) ==> HasFatherOf(g, i, b)
  }

  lemma OtherGoal(subg: seq<Edge>, b: int)
    requires DistinctGoals(subg) && |subg| >= 2
    ensures exists k :: 0 <= k < |subg| && subg[k].goal != b
  {
    assert subg[0].goal != subg[1].goal;
  }

  lemma SingleEdge(g: AbsProof, i: int, b: int)
    requires Simple(g) && i in g && OnlySuccessor(g, i, b)
    ensures |g[i].subg| == 1 && g[i].subg[0].goal == b
  {
    assert Step(g, i, b);
    var subg := g[i].subg;
    forall k | 0 <= k < |subg|
      ensures subg[k].goal == b
    {
      assert subg[k] in subg && Step(g, i, subg[k].goal);
    }
    if |subg| >= 2 {
      OtherGoal(subg, b);
    }
  }

  lemma NothingToFuse(g: AbsProof, init: int)
    requires Simple(g) && forall i :: !ToFuse(g, init, i)
    ensures FullyFused(g, init)
  {
    forall i, b | i in g && i != init && b != i && OnlySuccessor(g, i, b)
      ensures HasFatherOf(g, i, b)
    {
      SingleEdge(g, i, b);
      assert !ToFuse(g, init, i);
      var p :| p in g && InChildren(i, g[p]) && InChildren(b, g[p]);
      assert Step(g, p, i) && Step(g, p, b);
    }
  }

  method FuseSingleNodes(prf: AbsProof, init: int) returns (r: AbsProof)
    requires Simple(prf) && AllNodesOk(prf)
    ensures r.Keys <= prf.Keys && Simple(r) && AllNodesOk(r)
    ensures init in prf ==> init in r && (GTC(r, init) <==> GTC(prf, init))
    ensures r == map[] <==> prf == map[]
    ensures FullyFused(r, init)
  {
    r := prf;
    while exists idx :: idx in r && ToFuse(r, init, idx)
      invariant r.Keys <= prf.Keys && Simple(r) && AllNodesOk(r)
      invariant init in prf ==> init in r && (GTC(r, init) <==> GTC(prf, init))
      invariant r == map[] <==> prf == map[]
      decreases |r|
    {
      var idx :| idx in r && ToFuse(r, init, idx);
      var e := r[idx].subg[0];
      var r' := FuseNode(r, idx, e);
      WithoutSingleFused(r, idx, e);
      FusionPreservesGTC(r, r', idx, e.goal, init);
      WithoutSingleSimple(r, idx, e);
      WithoutSingleWellFormed(r, idx, e);
      assert r'.Keys == r.Keys - {idx};
      assert e.goal in r'.Keys by {
        assert NodeOk(r, r[idx]) && EdgeOk(r, r[idx].tags, e);
      }
      r := r';
    }
    NothingToFuse(r, init);
  }

  /** Minimisation is exact as long as it keeps the root, and it keeps exactly the roots that live, 0 among them. */
  method MinimizeAbsProof(prf: AbsProof, init: int) returns (r: AbsProof)
    requires Simple(prf) && WellFormed(prf, init)
    ensures Simple(r) && AllNodesOk(r)
    ensures SameCondition(prf, r, init)
    ensures init in r <==> Lives(prf, init)
    ensures init == 0 ==> init in r
    ensures r == map[] <==> forall i :: i in prf ==> !Lives(prf, i)
    ensures FullyFused(r, init) && forall i :: i in r ==> i in prf && Lives(prf, i)
  {
    RootLives(prf);
    var alive := RemoveDeadNodes(prf, init);
    if alive != map[] {
      assert alive.Keys != {};
      ghost var i := Pick(alive.Keys);
      assert i in alive && i in prf && Lives(prf, i);
    }
    r := FuseSingleNodes(alive, init);
  }
}
