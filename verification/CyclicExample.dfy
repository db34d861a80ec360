/** A cyclic proof that the search finds (src/generic/prover.ml): one inference on which a tag progresses, and a
    back-link that leads the tag around. */
module CyclicExample {
  import opened Outcomes
  import opened TraceGraph
  import opened ProofTree
  import opened Rules
  import opened Combinators
  import opened Prover
  import opened SearchLimits

  const TOP := Sequent(0, [1])
  const UNFOLDED := Sequent(0, [2])

  function NoAxiom(s: Sequent): Option<string> {
    None
  }

  /** Unfolding: the tag 2 of the premise is strictly below the tag 1 of the conclusion. */
  function Unfolding(s: Sequent): seq<InfApp> {
    if s == TOP then [InfApp([Premise(UNFOLDED, {(1, 2)}, {(1, 2)})], "Unfold")] else []
  }

  function Folding(s: Sequent, s': Sequent): seq<(Pairs, string)> {
    if s == UNFOLDED && s' == TOP then [({(2, 1)}, "Fold")] else []
  }

  function Axioms(): Tactic {
    AxiomRule(NoAxiom)
  }

  function Unfold(): Tactic {
    InfRule(Unfolding)
  }

  function Fold(): Tactic {
    BackRule(false, AllNodes, Folding)
  }

  function Unfolded(): Proof {
    map[0 := Entry(0, Inf(TOP, "Unfold", [1], [({(1, 2)}, {(1, 2)})])), 1 := Entry(0, Open(UNFOLDED))]
  }

  function Folded(): Proof {
    Unfolded()[1 := Entry(0, Back(UNFOLDED, "Fold", 0, {(2, 1)}))]
  }

  // ---------- The trace condition ----------

  lemma FoldedOk()
    ensures ProofOk(Folded()) && IsClosed(Folded())
  {
    assert Folded()[0].node.succs == [1];
    assert EntryOk(Folded(), 0) && EntryOk(Folded(), 1);
  }

  lemma FoldedWellFormed()
    requires ProofOk(Folded())
    ensures WellFormed(Abstract(Folded()), 0)
  {
    var g := Abstract(Folded());
    assert g[0].subg == [Edge(1, {(1, 2)}, {(1, 2)})];
    assert g[1].subg == [Edge(0, {(2, 1)}, {})];
    assert EdgeOk(g, g[0].tags, g[0].subg[0]);
    assert EdgeOk(g, g[1].tags, g[1].subg[0]);
  }

  lemma FoldedSteps(i: int, j: int)
    requires ProofOk(Folded()) && Step(Abstract(Folded()), i, j)
    ensures (i == 0 && j == 1) || (i == 1 && j == 0)
    ensures i == 0 ==> Prog(Abstract(Folded()), i, j, 1, 2) && Valid(Abstract(Folded()), i, j, 1, 2)
    ensures i == 1 ==> Valid(Abstract(Folded()), i, j, 2, 1)
  {
    AbstractTraces(Folded(), i, j, 1, 2);
    AbstractTraces(Folded(), i, j, 2, 1);
  }

  lemma {:induction false} Alternates(p: nat -> int, i: nat)
    requires ProofOk(Folded()) && IsPath(Abstract(Folded()), 0, p)
    ensures p(i) == i % 2
  {
    if i > 0 {
      Alternates(p, i - 1);
      assert StepAt(Abstract(Folded()), p, i - 1);
      FoldedSteps(p(i - 1), p(i));
    }
  }

  /** The tag at each node: 1 at the root, 2 at the other. */
  function Tag(i: nat): int {
    i % 2 + 1
  }

  lemma TagFollows(p: nat -> int, i: nat)
    requires ProofOk(Folded()) && IsPath(Abstract(Folded()), 0, p)
    ensures ValidAt(Abstract(Folded()), p, Tag, i) && (i % 2 == 0 ==> ProgAt(Abstract(Folded()), p, Tag, i))
  {
    assert StepAt(Abstract(Folded()), p, i);
    Alternates(p, i);
    FoldedSteps(p(i), p(i + 1));
  }

  lemma FoldedGTC()
    requires ProofOk(Folded())
    ensures GTC(Abstract(Folded()), 0)
  {
    var g := Abstract(Folded());
    forall p: nat -> int | IsPath(g, 0, p)
      ensures Followed(g, p)
    {
      forall i: nat
        ensures ValidAt(g, p, Tag, i)
      {
        TagFollows(p, i);
      }
      forall n: nat
        ensures ProgressesAfter(g, p, Tag, n)
      {
        TagFollows(p, 2 * n);
        assert n <= 2 * n && ProgAt(g, p, Tag, 2 * n);
      }
      assert IsTrace(g, p, 0, Tag) && InfinitelyProgressing(g, p, Tag);
      assert FollowedFrom(g, p, 0);
    }
  }

  // ---------- The search ----------

  lemma UnfoldsTop()
    ensures MapInf(Unfolding(TOP), 0, Mk(TOP)) == Ok([App([1], Unfolded())])
  {
    var prf, premises := Mk(TOP), [Premise(UNFOLDED, {(1, 2)}, {(1, 2)})];
    assert FreshIdx(prf) == 1;
    var r := AddInf(0, "Unfold", premises, prf).value;
    assert r.0 == [1];
    assert seq(1, k requires 0 <= k < 1 => (premises[k].tv, premises[k].tp)) == [({(1, 2)}, {(1, 2)})];
    assert r.1 == Unfolded();
    assert Unfolding(TOP)[1..] == [];
    var a := [App([1], Unfolded())];
    assert a + [] == a;
  }

  lemma NothingToFold(check: Check)
    ensures MkBackrule(false, AllNodes, Folding, check, 0, Mk(TOP)) == Ok([])
  {
    var prf := Mk(TOP);
    assert 0 in prf && FreshIdx(prf) == 1;
    assert AllNodes(0, prf) == [];
  }

  lemma FoldsUnfolded(check: Check)
    requires CheckCorrect(check)
    ensures MkBackrule(false, AllNodes, Folding, check, 1, Unfolded()) == Ok([App([], Folded())])
  {
    var prf, a, none := Unfolded(), [App([], Folded())], [];
    assert 1 in prf && FreshIdx(prf) == 2;
    assert NodesBelow(1, prf, 1) == [0] && NodesBelow(1, prf, 2) == [0];
    assert [0][1..] == [] && Folding(UNFOLDED, TOP)[1..] == [] && a + none == a && a[1..] == none;
    assert LinksTo(Folding(UNFOLDED, TOP), 1, 0, prf) == Ok(a);
    assert AllLinks(Folding, 1, [0], prf) == Ok(a);
    FoldedOk();
    FoldedWellFormed();
    FoldedGTC();
    AbstractSimple(Folded());
    assert CheckProof(check, Folded()) == Ok(true);
    assert FilterChecked(check, a) == Ok(a);
  }

  /** The rules that the search is given. */
  function Others(): Tactic {
    ChoiceRule([Unfold(), Fold()])
  }

  lemma TopResult(check: Check)
    ensures RuleOf(check, Others())(0, Mk(TOP)) == Ok([App([1], Unfolded())])
  {
    UnfoldsTop();
    NothingToFold(check);
    var a := [App([1], Unfolded())];
    assert Run(check, Unfold(), 0, Mk(TOP)) == Ok(a);
    assert Run(check, Fold(), 0, Mk(TOP)) == Ok([]);
    RunChoice(check, Unfold(), Fold(), 0, Mk(TOP), a, []);
    assert a + [] == a;
  }

  lemma UnfoldedResult(check: Check)
    requires CheckCorrect(check)
    ensures RuleOf(check, Others())(1, Unfolded()) == Ok([App([], Folded())])
  {
    FoldsUnfolded(check);
    var a, none := [App([], Folded())], [];
    assert Run(check, Unfold(), 1, Unfolded()) == Ok(none);
    assert Run(check, Fold(), 1, Unfolded()) == Ok(a);
    RunChoice(check, Unfold(), Fold(), 1, Unfolded(), none, a);
    assert none + a == a;
  }

  /** The search, given what the rules offer. */
  lemma TwoSteps(ax: Rule, r: Rule, p0: Proof, p1: Proof, p2: Proof, bound: int)
    requires bound >= 1 && ax(0, p0) == Ok([]) && ax(1, p1) == Ok([])
    requires r(0, p0) == Ok([App([1], p1)]) && r(1, p1) == Ok([App([], p2)])
    ensures Dfs(ax, r, bound, 0, p0) == Ok(Some(p2))
  {
    assert CloseAll(ax, r, bound - 2, [], p2) == Ok(Some(p2));
    assert TryApps(ax, r, bound - 1, [App([], p2)]) == Ok(Some(p2));
    assert Dfs(ax, r, bound - 1, 1, p1) == Ok(Some(p2));
    assert [1][1..] == [] && CloseAll(ax, r, bound - 1, [], p2) == Ok(Some(p2));
    assert CloseAll(ax, r, bound - 1, [1], p1) == Ok(Some(p2));
    assert TryApps(ax, r, bound, [App([1], p1)]) == Ok(Some(p2));
  }

  /** At every positive bound and for every correct check, the search closes the sequent by a cycle: a proof without
      axioms that meets the trace condition. */
  lemma CycleIsFound(check: Check, bound: int)
    requires CheckCorrect(check) && bound >= 1
    ensures Dfs(RuleOf(check, Axioms()), RuleOf(check, Others()), bound, 0, Mk(TOP)) == Ok(Some(Folded()))
    ensures ProofOk(Folded()) && IsClosed(Folded()) && GTC(Abstract(Folded()), 0)
  {
    FoldedOk();
    FoldedGTC();
    TopResult(check);
    UnfoldedResult(check);
    TwoSteps(RuleOf(check, Axioms()), RuleOf(check, Others()), Mk(TOP), Unfolded(), Folded(), bound);
  }
}
