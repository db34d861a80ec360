/**
 * Infinite descent along unfoldings: values of tags that solve the ordinal constraints of the unfolded sequents
 * (src/seplog/rules.ml, src/generic/ord_constraints.ml) rank the paths of a proof graph.
 */
module Descent {
  import opened TraceGraph
  import opened CyclicSoundness
  import opened OrdConstraints
  import Schemas

  /** The constraints, the tags of the unfolded sequent, and the tags of what is not unfolded. */
  datatype Unfolding = Unfolding(cs: Constraints, seqTags: set<int>, restTags: set<int>)

  /** The edge carries no pairs but those that the unfolding emits. */
  ghost predicate Labels(g: AbsProof, a: int, b: int, u: Unfolding) {
    && (forall x, y :: Valid(g, a, b, x, y) ==> (x, y) in Schemas.ValidPairs(u.cs, u.seqTags, u.restTags))
    && (forall x, y :: Prog(g, a, b, x, y) ==> (x, y) in Schemas.ProgressPairs(u.cs, u.seqTags))
  }

  ghost predicate AgreeOn(tags: set<int>, f: int -> nat, f': int -> nat) {
    forall t :: t in tags ==> f(t) == f'(t)
  }

  /** One solution of the constraints gives the tags of both ends of the edge their values. */
  ghost predicate SolvedEdge(g: AbsProof, a: int, b: int, u: Unfolding, v: int -> nat, v': int -> nat) {
    && a in g && b in g && Labels(g, a, b, u)
    && exists f :: Satisfies(f, u.cs) && AgreeOn(g[a].tags, f, v) && AgreeOn(g[b].tags, f, v')
  }

  ghost predicate SolvedAt(g: AbsProof, p: nat -> int, u: nat -> Unfolding, v: nat -> int -> nat, i: nat) {
    SolvedEdge(g, p(i), p(i + 1), u(i), v(i), v(i + 1))
  }

  lemma PairTags(g: AbsProof, a: int, b: int, x: int, y: int)
    requires AllNodesOk(g) && (Valid(g, a, b, x, y) || Prog(g, a, b, x, y))
    ensures Valid(g, a, b, x, y) && b in g && x in g[a].tags && y in g[b].tags
  {
    var e :| e in g[a].subg && e.goal == b && ((x, y) in e.tv || (x, y) in e.tp);
    assert NodeOk(g, g[a]);
    var k :| 0 <= k < |g[a].subg| && g[a].subg[k] == e;
    assert EdgeOk(g, g[a].tags, e) && (x, y) in e.tv;
  }

  lemma SolvedEdgeRanked(g: AbsProof, a: int, b: int, u: Unfolding, v: int -> nat, v': int -> nat)
    requires AllNodesOk(g) && SolvedEdge(g, a, b, u, v, v')
    ensures EdgeRanked(g, a, b, v, v')
  {
    var f :| Satisfies(f, u.cs) && AgreeOn(g[a].tags, f, v) && AgreeOn(g[b].tags, f, v');
    forall x: int, y: int | Valid(g, a, b, x, y) || Prog(g, a, b, x, y)
      ensures v'(y) <= v(x) && (Prog(g, a, b, x, y) ==> v'(y) < v(x))
    {
      PairTags(g, a, b, x, y);
      Schemas.UnfoldingDescends(u.cs, u.seqTags, u.restTags, f, x, y);
    }
  }

  /** A graph that meets the trace condition has no infinite path along which solutions of the unfolded constraints
      value the tags. */
  lemma NoSolvedPath(g: AbsProof, root: int, p: nat -> int, u: nat -> Unfolding, v: nat -> int -> nat)
    requires WellFormed(g, root) && GTC(g, root)
    requires forall i: nat :: SolvedAt(g, p, u, v, i)
    ensures !IsPath(g, root, p)
  {
    forall i: nat
      ensures Ranked(g, p, v, i)
    {
      assert SolvedAt(g, p, u, v, i);
      SolvedEdgeRanked(g, p(i), p(i + 1), u(i), v(i), v(i + 1));
    }
    RankedPathNotFollowed(g, p, v);
  }
}
