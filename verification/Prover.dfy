/** Iterative-deepening proof search (src/generic/prover.ml) and the soundness of what it returns. */
module Prover {
  import opened Outcomes
  import opened TraceGraph
  import opened ProofTree
  import opened CyclicSoundness
  import opened Rules
  import opened Combinators

  /** The first application without subgoals. */
  function FindClosed(apps: seq<App>): Option<Proof> {
    if apps == [] then None
    else if apps[0].goals == [] then Some(apps[0].prf)
    else FindClosed(apps[1..])
  }

  function Depth(bound: int): nat {
    if bound < 0 then 0 else bound + 1
  }

  function Dfs(ax: Rule, r: Rule, bound: int, idx: int, prf: Proof): Outcome<Option<Proof>>
    decreases Depth(bound), 2, 0
  {
    if bound < 0 then Ok(None)
    else
      var axApps :- ax(idx, prf);
      match FindClosed(axApps)
      case Some(prf') => Ok(Some(prf'))
      case None =>
        var apps :- r(idx, prf);
        TryApps(ax, r, bound, apps)
  }

  /** The first application all of whose subgoals can be closed. */
  function TryApps(ax: Rule, r: Rule, bound: int, apps: seq<App>): Outcome<Option<Proof>>
    requires bound >= 0
    decreases Depth(bound), 1, |apps|
  {
    if apps == [] then Ok(None)
    else
      var res :- CloseAll(ax, r, bound - 1, apps[0].goals, apps[0].prf);
      match res
      case Some(prf') => Ok(Some(prf'))
      case None => TryApps(ax, r, bound, apps[1..])
  }

  function CloseAll(ax: Rule, r: Rule, bound: int, goals: seq<int>, prf: Proof): Outcome<Option<Proof>>
    decreases Depth(bound), 3, |goals|
  {
    if goals == [] then Ok(Some(prf))
    else
      var res :- Dfs(ax, r, bound, goals[0], prf);
      match res
      case None => Ok(None)
      case Some(prf') => CloseAll(ax, r, bound, goals[1..], prf')
  }

  // ---------- The search closes exactly the node it was asked to close ----------

  ghost predicate Closes<M(!new)>(sem: Semantics<M>, prf: Proof, gone: set<int>, res: Outcome<Option<Proof>>)
    requires ProofOk(prf)
  {
    res.Ok? && res.value.Some? ==> Evolves(sem, prf, gone, [], res.value.value)
  }

  lemma {:induction false} FindClosedGood<M(!new)>(sem: Semantics<M>, prf: Proof, idx: int, apps: seq<App>)
    requires ProofOk(prf) && GoodApps(sem, prf, idx, Ok(apps))
    ensures FindClosed(apps).Some? ==> Evolves(sem, prf, {idx}, [], FindClosed(apps).value)
  {
    if apps != [] && apps[0].goals != [] {
      FindClosedGood(sem, prf, idx, apps[1..]);
    }
  }

  lemma {:induction false} DfsCloses<M(!new)>(sem: Semantics<M>, ax: Rule, r: Rule, bound: int, idx: int, prf: Proof)
    requires GoodRule(sem, ax) && GoodRule(sem, r) && ProofOk(prf) && CanAdd(prf, idx)
    ensures Closes(sem, prf, {idx}, Dfs(ax, r, bound, idx, prf))
    decreases Depth(bound), 2, 0
  {
    if bound >= 0 {
      assert GoodApps(sem, prf, idx, ax(idx, prf)) && GoodApps(sem, prf, idx, r(idx, prf));
      if ax(idx, prf).Ok? {
        FindClosedGood(sem, prf, idx, ax(idx, prf).value);
        if r(idx, prf).Ok? {
          TryAppsCloses(sem, ax, r, bound, idx, prf, r(idx, prf).value);
        }
      }
    }
  }

  lemma {:induction false} TryAppsCloses<M(!new)>(
    sem: Semantics<M>, ax: Rule, r: Rule, bound: int, idx: int, prf: Proof, apps: seq<App>
  )
    requires GoodRule(sem, ax) && GoodRule(sem, r) && ProofOk(prf) && bound >= 0
    requires GoodApps(sem, prf, idx, Ok(apps))
    ensures Closes(sem, prf, {idx}, TryApps(ax, r, bound, apps))
    decreases Depth(bound), 1, |apps|
  {
    if apps != [] {
      CloseAllCloses(sem, ax, r, bound - 1, prf, {idx}, apps[0].goals, apps[0].prf);
      TryAppsCloses(sem, ax, r, bound, idx, prf, apps[1..]);
    }
  }

  lemma {:induction false} CloseAllCloses<M(!new)>(sem: Semantics<M>, ax: Rule, r: Rule, bound: int,
                                                   prf0: Proof, gone: set<int>, goals: seq<int>, prf: Proof)
    requires GoodRule(sem, ax) && GoodRule(sem, r) && ProofOk(prf0)
    requires Evolves(sem, prf0, gone, goals, prf)
    ensures Closes(sem, prf0, gone, CloseAll(ax, r, bound, goals, prf))
    decreases Depth(bound), 3, |goals|
  {
    if goals != [] {
      assert goals == [] + ([goals[0]] + goals[1..]);
      assert goals[0] in Elems(goals);
      assert goals[0] in Opens(prf);
      DfsCloses(sem, ax, r, bound, goals[0], prf);
      var res := Dfs(ax, r, bound, goals[0], prf);
      if res.Ok? && res.value.Some? {
        EvolvesStep(sem, prf0, gone, [], goals[0], goals[1..], prf, [], res.value.value);
        assert [] + [] + goals[1..] == goals[1..];
        CloseAllCloses(sem, ax, r, bound, prf0, gone, goals[1..], res.value.value);
      }
    }
  }

  lemma FreshProofGood<M(!new)>(sem: Semantics<M>, s: Sequent)
    ensures GTC(Abstract(Mk(s)), 0) && LocallySound(sem, Mk(s))
  {
    var g := Abstract(Mk(s));
    forall p: nat -> int
      ensures !IsPath(g, 0, p)
    {
      assert p(0) == 0 ==> !StepAt(g, p, 0);
    }
  }

  /** What the search finds is a closed proof of the sequent, it meets the trace condition, and if
      the plugged-in functions are locally sound then the sequent has no counter-model. */
  lemma SearchIsSound<M(!new)>(sem: Semantics<M>, check: Check, ax: Tactic, r: Tactic, bound: int, s: Sequent, prf: Proof)
    requires CheckCorrect(check) && SoundTactic(sem, ax) && SoundTactic(sem, r)
    requires Dfs(RuleOf(check, ax), RuleOf(check, r), bound, 0, Mk(s)) == Ok(Some(prf))
    ensures ProofOk(prf) && IsClosed(prf) && prf[0].node.sequent == s
    ensures GTC(Abstract(prf), 0)
    ensures forall m :: !sem.falsifies(m, s)
  {
    TacticsAreGood(sem, check, ax);
    TacticsAreGood(sem, check, r);
    DfsCloses(sem, RuleOf(check, ax), RuleOf(check, r), bound, 0, Mk(s));
    FreshProofGood(sem, s);
    assert Opens(prf) == {};
    assert IsClosed(prf) by {
      assert forall i :: i in prf && prf[i].node.Open? ==> i in Opens(prf);
    }
    assert Kept(Mk(s), prf, 0);
    forall m
      ensures !sem.falsifies(m, s)
    {
      CyclicProofsAreSound(sem, prf, m);
    }
  }

  // ---------- What the search cannot miss ----------

  /** Closed by the application, or by a derivation without branching from its one subgoal. */
  ghost predicate LinearFrom(ax: Rule, r: Rule, bound: int, a: App)
    decreases Depth(bound), 1
  {
    a.goals == [] || (|a.goals| == 1 && Linear(ax, r, bound, a.goals[0], a.prf))
  }

  /** A derivation without branching, of depth at most `bound`, closes the node. */
  ghost predicate Linear(ax: Rule, r: Rule, bound: int, idx: int, prf: Proof)
    decreases Depth(bound), 0
  {
    bound >= 0 && (
      || (ax(idx, prf).Ok? && exists a :: a in ax(idx, prf).value && a.goals == [])
      || (r(idx, prf).Ok? && exists a :: a in r(idx, prf).value && LinearFrom(ax, r, bound - 1, a))
    )
  }

  lemma {:induction false} FindClosedExact(apps: seq<App>)
    ensures FindClosed(apps).Some? <==> exists a :: a in apps && a.goals == []
    ensures forall k :: 0 <= k < |apps| && apps[k].goals == [] && (forall j :: 0 <= j < k ==> apps[j].goals != []) ==>
              FindClosed(apps) == Some(apps[k].prf)
  {
    if apps != [] {
      FindClosedExact(apps[1..]);
      assert apps == [apps[0]] + apps[1..];
      forall k | 1 <= k < |apps| && apps[k].goals == [] && (forall j :: 0 <= j < k ==> apps[j].goals != [])
        ensures FindClosed(apps) == Some(apps[k].prf)
      {
        assert apps[1..][k - 1] == apps[k];
        assert forall j :: 0 <= j < k - 1 ==> apps[1..][j] == apps[j + 1];
      }
    }
  }

  /** The search takes the first application whose subgoals it can close, or raises with the first one that does. */
  lemma {:induction false} TryAppsFirst(ax: Rule, r: Rule, bound: int, apps: seq<App>, k: nat)
    requires bound >= 0 && k < |apps|
    requires CloseAll(ax, r, bound - 1, apps[k].goals, apps[k].prf) != Ok(None)
    requires forall j :: 0 <= j < k ==> CloseAll(ax, r, bound - 1, apps[j].goals, apps[j].prf) == Ok(None)
    ensures TryApps(ax, r, bound, apps) == CloseAll(ax, r, bound - 1, apps[k].goals, apps[k].prf)
    decreases |apps|
  {
    if k > 0 {
      assert apps[1..][k - 1] == apps[k];
      assert forall j :: 0 <= j < k - 1 ==> apps[1..][j] == apps[j + 1];
      TryAppsFirst(ax, r, bound, apps[1..], k - 1);
    }
  }

  /** Whatever the order of the applications, a derivation without branching is not missed. */
  lemma {:induction false} LinearIsFound(ax: Rule, r: Rule, bound: int, idx: int, prf: Proof)
    requires Linear(ax, r, bound, idx, prf) && Dfs(ax, r, bound, idx, prf).Ok?
    ensures Dfs(ax, r, bound, idx, prf).value.Some?
    decreases Depth(bound), 2, 0
  {
    FindClosedExact(ax(idx, prf).value);
    if FindClosed(ax(idx, prf).value).None? {
      var a :| a in r(idx, prf).value && LinearFrom(ax, r, bound - 1, a);
      LinearIsTried(ax, r, bound, r(idx, prf).value, a);
    }
  }

  lemma {:induction false} LinearIsTried(ax: Rule, r: Rule, bound: int, apps: seq<App>, a: App)
    requires bound >= 0 && a in apps && LinearFrom(ax, r, bound - 1, a) && TryApps(ax, r, bound, apps).Ok?
    ensures TryApps(ax, r, bound, apps).value.Some?
    decreases Depth(bound), 1, |apps|
  {
    if apps[0] == a {
      if a.goals != [] {
        LinearIsFound(ax, r, bound - 1, a.goals[0], a.prf);
        var prf' := Dfs(ax, r, bound - 1, a.goals[0], a.prf).value.value;
        assert CloseAll(ax, r, bound - 1, a.goals[1..], prf') == Ok(Some(prf'));
        assert CloseAll(ax, r, bound - 1, a.goals, a.prf) == Ok(Some(prf'));
      }
    } else if CloseAll(ax, r, bound - 1, apps[0].goals, apps[0].prf).value.None? {
      LinearIsTried(ax, r, bound, apps[1..], a);
    }
  }

  /** `res` is the outcome at depth `b`, and every depth from `bound` up to `b` fails. */
  ghost predicate FirstAt(ax: Rule, r: Rule, s: Sequent, bound: int, b: int, res: Outcome<Option<Proof>>) {
    && bound <= b && res == Dfs(ax, r, b, 0, Mk(s)) && res != Ok(None)
    && forall c :: bound <= c < b ==> Dfs(ax, r, c, 0, Mk(s)) == Ok(None)
  }

  class Search {
    var lastSearchDepth: int

    constructor ()
      ensures lastSearchDepth == 0
    {
      lastSearchDepth := 0;
    }

    /** The result of the least depth, from `bound` on, at which the search does not fail; that depth is recorded. */
    method Idfs(bound: int, maxbound: int, ax: Rule, r: Rule, s: Sequent) returns (res: Outcome<Option<Proof>>)
      modifies this
      ensures res == Ok(None) ==>
                lastSearchDepth == old(lastSearchDepth) &&
                forall b :: bound <= b <= maxbound ==> Dfs(ax, r, b, 0, Mk(s)) == Ok(None)
      ensures res.Ok? && res.value.Some? ==>
                lastSearchDepth <= maxbound && FirstAt(ax, r, s, bound, lastSearchDepth, res)
      ensures res.Raised? ==> exists b :: b <= maxbound && FirstAt(ax, r, s, bound, b, res)
      decreases maxbound - bound
    {
      if bound > maxbound {
        return Ok(None);
      }
      res := Dfs(ax, r, bound, 0, Mk(s));
      assert res != Ok(None) ==> FirstAt(ax, r, s, bound, bound, res);
      if res == Ok(None) {
        res := Idfs(bound + 1, maxbound, ax, r, s);
        if res.Raised? {
          ghost var b :| b <= maxbound && FirstAt(ax, r, s, bound + 1, b, res);
          assert FirstAt(ax, r, s, bound, b, res);
        }
      } else if res.Ok? {
        lastSearchDepth := bound;
      }
    }
  }
}
