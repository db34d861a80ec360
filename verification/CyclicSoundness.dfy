/** Why the global trace condition matters: a closed proof whose every step is locally sound and
    which meets the condition proves a valid sequent, by infinite descent on the values of tags. */
module CyclicSoundness {
  import opened TraceGraph
  import opened ProofTree

  /** A notion of counter-model, and the natural number each counter-model gives to a tag. */
  datatype Semantics<!M> = Semantics(falsifies: (M, Sequent) -> bool, rank: (M, int) -> nat)

  /** Along a premise, valid pairs do not increase and progressing pairs strictly decrease. */
  ghost predicate Descends<M>(sem: Semantics<M>, m: M, m': M, tv: Pairs, tp: Pairs) {
    && (forall x, y :: (x, y) in tv ==> sem.rank(m', y) <= sem.rank(m, x))
    && (forall x, y :: (x, y) in tp ==> sem.rank(m', y) < sem.rank(m, x))
  }

  ghost predicate RefutesPremise<M>(sem: Semantics<M>, m: M, m': M, p: Premise) {
    sem.falsifies(m', p.sequent) && Descends(sem, m, m', p.tv, p.tp)
  }

  ghost predicate RefutesSome<M(!new)>(sem: Semantics<M>, m: M, premises: seq<Premise>) {
    exists k, m' :: 0 <= k < |premises| && RefutesPremise(sem, m, m', premises[k])
  }

  /** A counter-model of the conclusion yields one of a premise, following the tag pairs. */
  ghost predicate SoundStep<M(!new)>(sem: Semantics<M>, s: Sequent, premises: seq<Premise>) {
    forall m :: sem.falsifies(m, s) ==> RefutesSome(sem, m, premises)
  }

  function Premises(prf: Proof, n: Node): (r: seq<Premise>)
    requires NodeShapeOk(n)
    requires forall k :: 0 <= k < |Succs(n)| ==> Succs(n)[k] in prf
    ensures |r| == |Succs(n)|
  {
    match n
    case Open(_) => []
    case Axiom(_, _) => []
    case Inf(_, _, succs, tps) =>
      seq(|succs|, k requires 0 <= k < |succs| => Premise(prf[Succs(n)[k]].node.sequent, tps[k].0, tps[k].1))
    case Back(_, _, succ, tps) => [Premise(prf[Succs(n)[0]].node.sequent, tps, {})]
  }

  ghost predicate SoundNode<M(!new)>(sem: Semantics<M>, prf: Proof, i: int)
    requires ProofOk(prf) && i in prf
  {
    assert EntryOk(prf, i);
    prf[i].node.Open? || SoundStep(sem, prf[i].node.sequent, Premises(prf, prf[i].node))
  }

  ghost predicate LocallySound<M(!new)>(sem: Semantics<M>, prf: Proof)
    requires ProofOk(prf)
  {
    forall i :: i in prf ==> SoundNode(sem, prf, i)
  }

  // ---------- Walking from counter-model to counter-model ----------

  datatype Point<M> = Point(index: int, model: M)

  ghost predicate Bad<M(!new)>(sem: Semantics<M>, prf: Proof, a: Point<M>) {
    a.index in prf && sem.falsifies(a.model, prf[a.index].node.sequent)
  }

  /** `b` is reached from `a` through the k-th premise. */
  ghost predicate Follows<M(!new)>(sem: Semantics<M>, prf: Proof, a: Point<M>, b: Point<M>, k: int)
    requires ProofOk(prf) && a.index in prf
  {
    assert EntryOk(prf, a.index);
    var n := prf[a.index].node;
    0 <= k < |Succs(n)| && b.index == Succs(n)[k] &&
    Descends(sem, a.model, b.model, Premises(prf, n)[k].tv, Premises(prf, n)[k].tp)
  }

  ghost predicate Linked<M(!new)>(sem: Semantics<M>, prf: Proof, a: Point<M>, b: Point<M>)
    requires ProofOk(prf) && a.index in prf
  {
    exists k :: Follows(sem, prf, a, b, k)
  }

  lemma NextExists<M(!new)>(sem: Semantics<M>, prf: Proof, a: Point<M>)
    requires ProofOk(prf) && IsClosed(prf) && LocallySound(sem, prf)
    requires Bad(sem, prf, a)
    ensures exists b :: Bad(sem, prf, b) && Linked(sem, prf, a, b)
  {
    var n := prf[a.index].node;
    assert EntryOk(prf, a.index);
    assert SoundNode(sem, prf, a.index);
    assert RefutesSome(sem, a.model, Premises(prf, n));
    var k, m' :| 0 <= k < |Premises(prf, n)| && RefutesPremise(sem, a.model, m', Premises(prf, n)[k]);
    var b := Point(Succs(n)[k], m');
    assert Follows(sem, prf, a, b, k);
    assert Bad(sem, prf, b) && Linked(sem, prf, a, b);
  }

  ghost function Next<M(!new)>(sem: Semantics<M>, prf: Proof, a: Point<M>): (b: Point<M>)
    requires ProofOk(prf) && IsClosed(prf) && LocallySound(sem, prf)
    requires Bad(sem, prf, a)
    ensures Bad(sem, prf, b) && Linked(sem, prf, a, b)
  {
    NextExists(sem, prf, a);
    var b :| Bad(sem, prf, b) && Linked(sem, prf, a, b);
    b
  }

  ghost function Walk<M(!new)>(sem: Semantics<M>, prf: Proof, m: M, n: nat): (a: Point<M>)
    requires ProofOk(prf) && IsClosed(prf) && LocallySound(sem, prf)
    requires sem.falsifies(m, prf[0].node.sequent)
    ensures Bad(sem, prf, a)
  {
    if n == 0 then Point(0, m) else Next(sem, prf, Walk(sem, prf, m, n - 1))
  }

  /** The edges of the abstract graph are the premises, in order. */
  lemma EdgeOfPremise(prf: Proof, i: int, k: nat)
    requires ProofOk(prf) && i in prf
    requires k < |Succs(prf[i].node)|
    ensures EntryOk(prf, i)
    ensures var n := prf[i].node; var subg := Abstract(prf)[i].subg;
      |subg| == |Succs(n)| && subg[k] == Edge(Succs(n)[k], Premises(prf, n)[k].tv, Premises(prf, n)[k].tp)
  {
    assert EntryOk(prf, i);
  }

  /** The k-th edge is the only one to its goal. */
  lemma OnlyEdgeTo(prf: Proof, i: int, k: nat)
    requires ProofOk(prf) && i in prf && k < |Abstract(prf)[i].subg|
    ensures var e := Abstract(prf)[i].subg[k];
      && Step(Abstract(prf), i, e.goal)
      && (forall x, y :: Valid(Abstract(prf), i, e.goal, x, y) ==> (x, y) in e.tv)
      && (forall x, y :: Prog(Abstract(prf), i, e.goal, x, y) ==> (x, y) in e.tp)
  {
    var subg := Abstract(prf)[i].subg;
    AbstractSimple(prf);
    assert DistinctGoals(subg);
    assert subg[k] in subg;
    forall e | e in subg && e.goal == subg[k].goal
      ensures e == subg[k]
    {
      var j :| 0 <= j < |subg| && subg[j] == e;
    }
  }

  ghost predicate EdgeRanked(g: AbsProof, a: int, b: int, f: int -> nat, f': int -> nat) {
    && (forall x, y :: Valid(g, a, b, x, y) ==> f'(y) <= f(x))
    && (forall x, y :: Prog(g, a, b, x, y) ==> f'(y) < f(x))
  }

  ghost function Ranks<M>(sem: Semantics<M>, a: Point<M>): int -> nat {
    x => sem.rank(a.model, x)
  }

  lemma LinkedEdge<M(!new)>(sem: Semantics<M>, prf: Proof, a: Point<M>, b: Point<M>)
    requires ProofOk(prf) && a.index in prf
    requires Linked(sem, prf, a, b)
    ensures Step(Abstract(prf), a.index, b.index)
    ensures EdgeRanked(Abstract(prf), a.index, b.index, Ranks(sem, a), Ranks(sem, b))
  {
    var k :| Follows(sem, prf, a, b, k);
    EdgeOfPremise(prf, a.index, k);
    OnlyEdgeTo(prf, a.index, k);
  }

  // ---------- No natural number decreases forever ----------

  ghost predicate NonIncreasing(f: nat -> nat, k: nat) {
    forall i: nat :: k <= i ==> Falls(f, i)
  }

  ghost predicate Falls(f: nat -> nat, i: nat) {
    f(i + 1) <= f(i)
  }

  ghost predicate DropsAfter(f: nat -> nat, n: nat) {
    exists m: nat :: n <= m && Drops(f, m)
  }

  ghost predicate Drops(f: nat -> nat, i: nat) {
    f(i + 1) < f(i)
  }

  lemma {:induction false} StaysBelow(f: nat -> nat, k: nat, j: nat)
    requires NonIncreasing(f, k) && k <= j
    ensures f(j) <= f(k)
  {
    if k < j {
      StaysBelow(f, k, j - 1);
      assert Falls(f, j - 1);
    }
  }

  lemma {:induction false} NoInfiniteDescent(f: nat -> nat, k: nat)
    requires NonIncreasing(f, k)
    requires forall n: nat :: DropsAfter(f, n)
    ensures false
    decreases f(k)
  {
    assert DropsAfter(f, k);
    var m: nat :| k <= m && Drops(f, m);
    StaysBelow(f, k, m);
    NoInfiniteDescent(f, m + 1);
  }

  lemma WalkLinked<M(!new)>(sem: Semantics<M>, prf: Proof, m: M, i: nat)
    requires ProofOk(prf) && IsClosed(prf) && LocallySound(sem, prf)
    requires sem.falsifies(m, prf[0].node.sequent)
    ensures Linked(sem, prf, Walk(sem, prf, m, i), Walk(sem, prf, m, i + 1))
  {
  }

  /** `r(i)` gives the value of every tag at position `i` of the path. */
  ghost predicate Ranked(g: AbsProof, p: nat -> int, r: nat -> int -> nat, i: nat) {
    EdgeRanked(g, p(i), p(i + 1), r(i), r(i + 1))
  }

  /** Infinite descent: no path whose tags carry such values is followed by a progressing trace. */
  lemma RankedPathNotFollowed(g: AbsProof, p: nat -> int, r: nat -> int -> nat)
    requires forall i: nat :: Ranked(g, p, r, i)
    ensures !Followed(g, p)
  {
    if Followed(g, p) {
      var k: nat :| FollowedFrom(g, p, k);
      var t: nat -> int :| IsTrace(g, p, k, t) && InfinitelyProgressing(g, p, t);
      var f := (i: nat) => r(i)(t(i));
      forall i: nat | k <= i
        ensures Falls(f, i)
      {
        assert Ranked(g, p, r, i) && ValidAt(g, p, t, i);
      }
      forall n: nat
        ensures DropsAfter(f, n)
      {
        assert ProgressesAfter(g, p, t, n);
        var m: nat :| n <= m && ProgAt(g, p, t, m);
        assert Ranked(g, p, r, m);
        assert Drops(f, m);
      }
      NoInfiniteDescent(f, k);
    }
  }

  /** Soundness of cyclic proof: nothing falsifies the root. */
  lemma CyclicProofsAreSound<M(!new)>(sem: Semantics<M>, prf: Proof, m: M)
    requires ProofOk(prf) && IsClosed(prf) && LocallySound(sem, prf)
    requires GTC(Abstract(prf), 0)
    ensures !sem.falsifies(m, prf[0].node.sequent)
  {
    if sem.falsifies(m, prf[0].node.sequent) {
      var g := Abstract(prf);
      var p := (i: nat) => Walk(sem, prf, m, i).index;
      var r := (i: nat) => Ranks(sem, Walk(sem, prf, m, i));
      forall i: nat
        ensures StepAt(g, p, i) && Ranked(g, p, r, i)
      {
        WalkLinked(sem, prf, m, i);
        LinkedEdge(sem, prf, Walk(sem, prf, m, i), Walk(sem, prf, m, i + 1));
      }
      assert IsPath(g, 0, p);
      RankedPathNotFollowed(g, p, r);
    }
  }
}
