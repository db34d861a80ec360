/** Proof rules and their combinators (src/generic/proofrule.ml). */
module Rules {
  import opened Outcomes
  import opened TraceGraph
  import opened ProofTree
  import opened CyclicSoundness

  /** One way of applying a rule: the new open nodes and the new proof. */
  datatype App = App(goals: seq<int>, prf: Proof)

  type Apps = Outcome<seq<App>>

  type Rule = (int, Proof) -> Apps

  datatype InfApp = InfApp(premises: seq<Premise>, descr: string)

  // ---------- What an application may do to a proof ----------

  ghost function Elems(s: seq<int>): set<int> {
    set x | x in s
  }

  ghost predicate Kept(prf: Proof, prf': Proof, i: int)
    requires i in prf
  {
    && i in prf'
    && prf'[i].node.sequent == prf[i].node.sequent
    && prf'[i].parent == prf[i].parent
    && (!prf[i].node.Open? ==> prf'[i] == prf[i])
  }

  /** Sequents, parents and closed nodes persist. */
  ghost predicate Extends(prf: Proof, prf': Proof) {
    forall i :: i in prf ==> Kept(prf, prf', i)
  }

  /** Exactly the open nodes `gone` are replaced, by exactly the open nodes `goals`. */
  ghost predicate Reopens(prf: Proof, gone: set<int>, goals: seq<int>, prf': Proof) {
    && Distinct(goals)
    && Opens(prf') == (Opens(prf) - gone) + Elems(goals)
    && (Opens(prf) - gone) !! Elems(goals)
  }

  ghost predicate KeepsGTC(prf: Proof, prf': Proof)
    requires ProofOk(prf) && ProofOk(prf')
  {
    GTC(Abstract(prf), 0) ==> GTC(Abstract(prf'), 0)
  }

  ghost predicate KeepsSoundness<M(!new)>(sem: Semantics<M>, prf: Proof, prf': Proof)
    requires ProofOk(prf) && ProofOk(prf')
  {
    LocallySound(sem, prf) ==> LocallySound(sem, prf')
  }

  ghost predicate Evolves<M(!new)>(sem: Semantics<M>, prf: Proof, gone: set<int>, goals: seq<int>, prf': Proof)
    requires ProofOk(prf)
  {
    && ProofOk(prf') && Extends(prf, prf')
    && Reopens(prf, gone, goals, prf')
    && KeepsGTC(prf, prf')
    && KeepsSoundness(sem, prf, prf')
  }

  ghost predicate GoodApps<M(!new)>(sem: Semantics<M>, prf: Proof, idx: int, apps: Apps)
    requires ProofOk(prf)
  {
    apps.Ok? ==> forall k :: 0 <= k < |apps.value| ==> Evolves(sem, prf, {idx}, apps.value[k].goals, apps.value[k].prf)
  }

  ghost predicate GoodRule<M(!new)>(sem: Semantics<M>, r: Rule) {
    forall idx, prf :: ProofOk(prf) && CanAdd(prf, idx) ==> GoodApps(sem, prf, idx, r(idx, prf))
  }

  // ---------- Extending a graph below a leaf ----------

  lemma FollowedMonotone(g: AbsProof, g': AbsProof, p: nat -> int)
    requires forall a, b, x, y :: Valid(g, a, b, x, y) ==> Valid(g', a, b, x, y)
    requires forall a, b, x, y :: Prog(g, a, b, x, y) ==> Prog(g', a, b, x, y)
    requires Followed(g, p)
    ensures Followed(g', p)
  {
    var k: nat :| FollowedFrom(g, p, k);
    var t: nat -> int :| IsTrace(g, p, k, t) && InfinitelyProgressing(g, p, t);
    forall i: nat
      ensures ValidAt(g, p, t, i) ==> ValidAt(g', p, t, i)
      ensures ProgAt(g, p, t, i) ==> ProgAt(g', p, t, i)
    {
    }
    forall n: nat
      ensures ProgressesAfter(g', p, t, n)
    {
      assert ProgressesAfter(g, p, t, n);
    }
    assert IsTrace(g', p, k, t) && InfinitelyProgressing(g', p, t);
    assert FollowedFrom(g', p, k);
  }

  /** `g'` only adds edges from the leaf `idx` of `g` to new leaves. */
  ghost predicate GrownAt(g: AbsProof, g': AbsProof, idx: int) {
    && idx in g && g[idx].subg == []
    && (forall i :: i in g && i != idx ==> i in g' && g'[i] == g[i])
    && (forall i :: i in g' && i !in g ==> g'[i].subg == [])
    && (forall b :: Step(g', idx, b) ==> b !in g)
  }

  /** Inference nodes create no infinite path, so the condition needs no check when they are added. */
  lemma GrowthPreservesGTC(g: AbsProof, g': AbsProof, idx: int)
    requires GrownAt(g, g', idx)
    requires GTC(g, 0)
    ensures GTC(g', 0)
  {
    forall p: nat -> int | IsPath(g', 0, p)
      ensures Followed(g', p)
    {
      forall i: nat
        ensures StepAt(g, p, i)
      {
        assert StepAt(g', p, i) && StepAt(g', p, i + 1);
      }
      assert IsPath(g, 0, p);
      FollowedMonotone(g, g', p);
    }
  }

  // ---------- The three ways of closing an open node ----------

  lemma UnchangedNodesSound<M(!new)>(sem: Semantics<M>, prf: Proof, prf': Proof, i: int)
    requires ProofOk(prf) && ProofOk(prf') && Extends(prf, prf')
    requires i in prf && i in prf' && prf'[i].node == prf[i].node && SoundNode(sem, prf, i)
    ensures SoundNode(sem, prf', i)
  {
    assert EntryOk(prf, i) && EntryOk(prf', i);
    var n := prf[i].node;
    forall k | 0 <= k < |Succs(n)|
      ensures Premises(prf', n)[k] == Premises(prf, n)[k]
    {
      assert Kept(prf, prf', Succs(n)[k]);
    }
    assert Premises(prf', n) == Premises(prf, n);
  }

  lemma OneNodeChanged<M(!new)>(sem: Semantics<M>, prf: Proof, prf': Proof, idx: int)
    requires ProofOk(prf) && ProofOk(prf') && Extends(prf, prf') && idx in prf
    requires forall i :: i in prf && i != idx ==> i in prf' && prf'[i].node == prf[i].node
    requires forall i :: i in prf' && i !in prf ==> prf'[i].node.Open?
    requires idx in prf' && SoundNode(sem, prf', idx)
    ensures KeepsSoundness(sem, prf, prf')
  {
    if LocallySound(sem, prf) {
      forall i | i in prf'
        ensures SoundNode(sem, prf', i)
      {
        if i in prf && i != idx {
          UnchangedNodesSound(sem, prf, prf', i);
        }
      }
    }
  }

  lemma ReplaceOk(prf: Proof, idx: int, n: Node)
    requires ProofOk(prf) && CanAdd(prf, idx)
    requires n.sequent == prf[idx].node.sequent && !n.Open? && !n.Inf?
    requires n.Back? ==> n.succ in prf && EqualUpToTags(n.sequent, prf[n.succ].node.sequent)
    ensures ProofOk(Replace(prf, idx, n)) && Extends(prf, Replace(prf, idx, n))
    ensures Reopens(prf, {idx}, [], Replace(prf, idx, n))
  {
    var prf' := Replace(prf, idx, n);
    forall i | i in prf'
      ensures EntryOk(prf', i)
    {
      assert EntryOk(prf, i);
    }
  }

  lemma AddAxiomEvolves<M(!new)>(sem: Semantics<M>, idx: int, descr: string, prf: Proof)
    requires ProofOk(prf) && CanAdd(prf, idx)
    requires SoundStep(sem, prf[idx].node.sequent, [])
    ensures Evolves(sem, prf, {idx}, [], AddAxiom(idx, descr, prf).value)
  {
    var prf' := AddAxiom(idx, descr, prf).value;
    ReplaceOk(prf, idx, prf'[idx].node);
    assert Abstract(prf') == Abstract(prf);
    OneNodeChanged(sem, prf, prf', idx);
  }

  lemma AddBacklinkEvolves<M(!new)>(sem: Semantics<M>, idx: int, descr: string, target: int, vtts: Pairs, prf: Proof)
    requires ProofOk(prf) && AddBacklink(idx, descr, target, vtts, prf).Ok?
    requires SoundStep(sem, prf[idx].node.sequent, [Premise(prf[target].node.sequent, vtts, {})])
    ensures var prf' := AddBacklink(idx, descr, target, vtts, prf).value;
      ProofOk(prf') && (GTC(Abstract(prf'), 0) ==> Evolves(sem, prf, {idx}, [], prf'))
  {
    var prf' := AddBacklink(idx, descr, target, vtts, prf).value;
    ReplaceOk(prf, idx, prf'[idx].node);
    OneNodeChanged(sem, prf, prf', idx);
  }

  lemma AddInfEntry(idx: int, descr: string, subgoals: seq<Premise>, prf: Proof, i: int)
    requires ProofOk(prf) && CanAdd(prf, idx)
    requires i in AddInf(idx, descr, subgoals, prf).value.1
    ensures EntryOk(AddInf(idx, descr, subgoals, prf).value.1, i)
  {
    assert EntryOk(prf, 0) && EntryOk(prf, idx);
    if i in prf {
      assert EntryOk(prf, i);
    } else {
      var from := FreshIdx(prf);
      assert Range(from, |subgoals|)[i - from] == i;
    }
  }

  lemma AddInfShapes(idx: int, descr: string, subgoals: seq<Premise>, prf: Proof)
    requires ProofOk(prf) && CanAdd(prf, idx)
    ensures 0 in AddInf(idx, descr, subgoals, prf).value.1 && ShapesOk(AddInf(idx, descr, subgoals, prf).value.1)
  {
  }

  lemma AddInfProofOk(idx: int, descr: string, subgoals: seq<Premise>, prf: Proof)
    requires ProofOk(prf) && CanAdd(prf, idx)
    ensures ProofOk(AddInf(idx, descr, subgoals, prf).value.1)
  {
    AddInfShapes(idx, descr, subgoals, prf);
    forall i | i in AddInf(idx, descr, subgoals, prf).value.1
      ensures EntryOk(AddInf(idx, descr, subgoals, prf).value.1, i)
    {
      AddInfEntry(idx, descr, subgoals, prf, i);
    }
  }

  lemma AddInfReopens(idx: int, descr: string, subgoals: seq<Premise>, prf: Proof)
    requires ProofOk(prf) && CanAdd(prf, idx)
    ensures var r := AddInf(idx, descr, subgoals, prf).value; Extends(prf, r.1) && Reopens(prf, {idx}, r.0, r.1)
  {
    var r := AddInf(idx, descr, subgoals, prf).value;
    var from := FreshIdx(prf);
    forall k: int
      ensures k in Elems(r.0) <==> from <= k < from + |subgoals|
    {
      if from <= k < from + |subgoals| {
        assert r.0[k - from] == k;
      }
    }
    forall k: int
      ensures k in Opens(r.1) <==> k in (Opens(prf) - {idx}) + Elems(r.0)
    {
    }
  }

  lemma AddInfGrows(idx: int, descr: string, subgoals: seq<Premise>, prf: Proof)
    requires ProofOk(prf) && CanAdd(prf, idx)
    requires ProofOk(AddInf(idx, descr, subgoals, prf).value.1)
    ensures GrownAt(Abstract(prf), Abstract(AddInf(idx, descr, subgoals, prf).value.1), idx)
  {
    AddInfOthers(idx, descr, subgoals, prf);
    var prf', from := AddInf(idx, descr, subgoals, prf).value.1, FreshIdx(prf);
    var n := prf'[idx].node;
    assert n.Inf? && n.succs == Range(from, |subgoals|) && NodeShapeOk(n);
    forall b | Step(Abstract(prf'), idx, b)
      ensures b !in prf
    {
      var e :| e in InfEdges(n.succs, n.tagpairs2) && e.goal == b;
      assert from <= b;
    }
  }

  lemma AddInfPremises(idx: int, descr: string, subgoals: seq<Premise>, prf: Proof)
    requires ProofOk(prf) && CanAdd(prf, idx)
    requires ProofOk(AddInf(idx, descr, subgoals, prf).value.1)
    ensures
      var prf' := AddInf(idx, descr, subgoals, prf).value.1;
      && idx in prf' && EntryOk(prf', idx) && NodeShapeOk(prf'[idx].node)
      && prf'[idx].node.sequent == prf[idx].node.sequent
      && Premises(prf', prf'[idx].node) == subgoals
  {
    var prf' := AddInf(idx, descr, subgoals, prf).value.1;
    assert EntryOk(prf', idx);
    var n, from := prf'[idx].node, FreshIdx(prf);
    assert |Premises(prf', n)| == |subgoals|;
    forall k | 0 <= k < |subgoals|
      ensures Premises(prf', n)[k] == subgoals[k]
    {
      assert n.succs[k] == from + k;
    }
  }

  lemma AddInfOthers(idx: int, descr: string, subgoals: seq<Premise>, prf: Proof)
    requires ProofOk(prf) && CanAdd(prf, idx)
    ensures
      var prf' := AddInf(idx, descr, subgoals, prf).value.1;
      && (forall i :: i in prf && i != idx ==> i in prf' && prf'[i].node == prf[i].node)
      && (forall i :: i in prf' && i !in prf ==> prf'[i].node.Open?)
  {
  }

  lemma AddInfSound<M(!new)>(sem: Semantics<M>, idx: int, descr: string, subgoals: seq<Premise>, prf: Proof)
    requires ProofOk(prf) && CanAdd(prf, idx)
    requires SoundStep(sem, prf[idx].node.sequent, subgoals)
    requires ProofOk(AddInf(idx, descr, subgoals, prf).value.1)
    requires Extends(prf, AddInf(idx, descr, subgoals, prf).value.1)
    ensures KeepsSoundness(sem, prf, AddInf(idx, descr, subgoals, prf).value.1)
  {
    AddInfPremises(idx, descr, subgoals, prf);
    AddInfOthers(idx, descr, subgoals, prf);
    OneNodeChanged(sem, prf, AddInf(idx, descr, subgoals, prf).value.1, idx);
  }

  lemma AddInfEvolves<M(!new)>(sem: Semantics<M>, idx: int, descr: string, subgoals: seq<Premise>, prf: Proof)
    requires ProofOk(prf) && CanAdd(prf, idx)
    requires SoundStep(sem, prf[idx].node.sequent, subgoals)
    ensures var r := AddInf(idx, descr, subgoals, prf).value; Evolves(sem, prf, {idx}, r.0, r.1)
  {
    var prf' := AddInf(idx, descr, subgoals, prf).value.1;
    AddInfProofOk(idx, descr, subgoals, prf);
    AddInfReopens(idx, descr, subgoals, prf);
    AddInfGrows(idx, descr, subgoals, prf);
    if GTC(Abstract(prf), 0) {
      GrowthPreservesGTC(Abstract(prf), Abstract(prf'), idx);
    }
    AddInfSound(sem, idx, descr, subgoals, prf);
  }
}
