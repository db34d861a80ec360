/** Which nodes dead-node removal keeps (src/generic/soundcheck.ml, `remove_dead_nodes`). */
module DeadNodes {
  import opened TraceGraph
  import opened Fusion

  /** One step of an endless walk, which may rest at node 0. */
  ghost predicate Carries(g: AbsProof, p: nat -> int, k: nat) {
    (p(k) == 0 && p(k + 1) == 0) || StepAt(g, p, k)
  }

  ghost predicate LivesBy(g: AbsProof, i: int, p: nat -> int) {
    p(0) == i && forall k: nat :: Carries(g, p, k)
  }

  /** An infinite path or a path to node 0 starts at `i`. */
  ghost predicate Lives(g: AbsProof, i: int) {
    exists p: nat -> int :: LivesBy(g, i, p)
  }

  lemma RootLives(g: AbsProof)
    ensures Lives(g, 0)
  {
    var p: nat -> int := (k: nat) => 0;
    forall k: nat
      ensures Carries(g, p, k)
    {
    }
    assert LivesBy(g, 0, p);
  }

  lemma AvoidsLeaf(g: AbsProof, g2: AbsProof, idx: int, i: int, p: nat -> int, k: nat)
    requires LeafRemoved(g, g2, idx) && idx != 0 && LivesBy(g, i, p)
    ensures p(k) != idx
  {
    assert Carries(g, p, k);
  }

  /** A leaf other than 0 does not live, and its removal costs no other node its life. */
  lemma LeafRemovalLives(g: AbsProof, g2: AbsProof, idx: int, i: int)
    requires LeafRemoved(g, g2, idx) && idx != 0
    ensures !Lives(g, idx)
    ensures i != idx ==> (Lives(g, i) <==> Lives(g2, i))
  {
    forall p: nat -> int
      ensures !LivesBy(g, idx, p)
    {
      if LivesBy(g, idx, p) {
        AvoidsLeaf(g, g2, idx, idx, p, 0);
      }
    }
    if p: nat -> int :| LivesBy(g, i, p) {
      forall k: nat
        ensures Carries(g2, p, k)
      {
        assert Carries(g, p, k);
        AvoidsLeaf(g, g2, idx, i, p, k + 1);
      }
      assert LivesBy(g2, i, p);
    }
    if p: nat -> int :| LivesBy(g2, i, p) {
      forall k: nat
        ensures Carries(g, p, k)
      {
        assert Carries(g2, p, k);
      }
      assert LivesBy(g, i, p);
    }
  }

  ghost function Walk(g: AbsProof, i: int, k: nat): int {
    if k == 0 then i
    else
      var x := Walk(g, i, k - 1);
      if x != 0 && x in g && g[x].subg != [] then g[x].subg[0].goal else x
  }

  lemma {:induction false} WalkStays(g: AbsProof, i: int, k: nat)
    requires AllNodesOk(g) && i in g
    ensures Walk(g, i, k) in g
    decreases k
  {
    if k > 0 {
      WalkStays(g, i, k - 1);
      var n := g[Walk(g, i, k - 1)];
      if n.subg != [] {
        assert NodeOk(g, n) && EdgeOk(g, n.tags, n.subg[0]);
      }
    }
  }

  /** Where only 0 may be a leaf, every node lives. */
  lemma NoLeavesAllLive(g: AbsProof, i: int)
    requires AllNodesOk(g) && i in g && forall j :: j in g && j != 0 ==> g[j].subg != []
    ensures Lives(g, i)
  {
    var p: nat -> int := (k: nat) => Walk(g, i, k);
    forall k: nat
      ensures Carries(g, p, k)
    {
      WalkStays(g, i, k);
      var x := p(k);
      if x != 0 {
        assert g[x].subg[0] in g[x].subg && p(k + 1) == g[x].subg[0].goal;
      }
    }
    assert LivesBy(g, i, p);
  }

  /** Two leaves: node 1 is a well-formed place to start, but it is removed and 0 is not. */
  lemma RootCanBeLost()
    ensures
      var g: AbsProof := map[0 := AbsNode({}, []), 1 := AbsNode({}, [])];
      WellFormed(g, 1) && !Lives(g, 1) && Lives(g, 0)
  {
    var g: AbsProof := map[0 := AbsNode({}, []), 1 := AbsNode({}, [])];
    RootLives(g);
    forall p: nat -> int
      ensures !LivesBy(g, 1, p)
    {
      assert p(0) == 1 ==> !Carries(g, p, 0);
    }
  }
}
