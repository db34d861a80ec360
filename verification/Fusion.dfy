/** Infinite-path arguments behind graph minimisation: removing a leaf, and replacing a
    single-child node by composed edges, both preserve and reflect the global trace condition. */
module Fusion {
  import opened TraceGraph

  // ---------- Removing a dead node ----------

  /** `g2` is `g` without the leaf `idx` and without the edges into it. */
  ghost predicate LeafRemoved(g: AbsProof, g2: AbsProof, idx: int) {
    && (forall b :: !Step(g, idx, b))
    && (forall a, b :: Step(g2, a, b) <==> Step(g, a, b) && b != idx)
    && (forall a, b, x, y :: Valid(g2, a, b, x, y) <==> Valid(g, a, b, x, y) && b != idx)
    && (forall a, b, x, y :: Prog(g2, a, b, x, y) <==> Prog(g, a, b, x, y) && b != idx)
  }

  lemma LeafRemovalAt(g: AbsProof, g2: AbsProof, idx: int, p: nat -> int, t: nat -> int, i: nat)
    requires LeafRemoved(g, g2, idx)
    requires p(i + 1) != idx
    ensures StepAt(g, p, i) <==> StepAt(g2, p, i)
    ensures ValidAt(g, p, t, i) <==> ValidAt(g2, p, t, i)
    ensures ProgAt(g, p, t, i) <==> ProgAt(g2, p, t, i)
  {
  }

  lemma LeafRemovalTrace(g: AbsProof, g2: AbsProof, idx: int, p: nat -> int, t: nat -> int)
    requires LeafRemoved(g, g2, idx)
    requires forall i: nat :: p(i) != idx
    ensures forall k: nat :: IsTrace(g, p, k, t) <==> IsTrace(g2, p, k, t)
    ensures InfinitelyProgressing(g, p, t) <==> InfinitelyProgressing(g2, p, t)
  {
    forall i: nat
      ensures ValidAt(g, p, t, i) <==> ValidAt(g2, p, t, i)
      ensures ProgAt(g, p, t, i) <==> ProgAt(g2, p, t, i)
    {
      LeafRemovalAt(g, g2, idx, p, t, i);
    }
    forall n: nat
      ensures ProgressesAfter(g, p, t, n) <==> ProgressesAfter(g2, p, t, n)
    {
    }
  }

  lemma LeafRemovalFollowed(g: AbsProof, g2: AbsProof, idx: int, p: nat -> int)
    requires LeafRemoved(g, g2, idx)
    requires forall i: nat :: p(i) != idx
    ensures Followed(g, p) <==> Followed(g2, p)
  {
    forall t: nat -> int { LeafRemovalTrace(g, g2, idx, p, t); }
    forall k: nat
      ensures FollowedFrom(g, p, k) <==> FollowedFrom(g2, p, k)
    {
    }
  }

  lemma LeafRemovalPreservesGTC(g: AbsProof, g2: AbsProof, idx: int, root: int)
    requires LeafRemoved(g, g2, idx)
    requires root != idx
    ensures GTC(g, root) <==> GTC(g2, root)
  {
    forall p: nat -> int
      ensures IsPath(g, root, p) ==> IsPath(g2, root, p) && (Followed(g, p) <==> Followed(g2, p))
      ensures IsPath(g2, root, p) ==> IsPath(g, root, p) && (Followed(g, p) <==> Followed(g2, p))
    {
      if IsPath(g, root, p) || IsPath(g2, root, p) {
        forall i: nat
          ensures p(i) != idx
        {
          assert IsPath(g, root, p) ==> StepAt(g, p, i);
          assert IsPath(g2, root, p) ==> StepAt(g2, p, i);
        }
        forall i: nat { LeafRemovalAt(g, g2, idx, p, p, i); }
        LeafRemovalFollowed(g, g2, idx, p);
      }
    }
  }

  // ---------- Fusing a single-child node ----------

  /** The tags `x`, `y` and `z` are linked along `a`, `i` and `c`. */
  ghost predicate ValidBy(g: AbsProof, a: int, i: int, c: int, x: int, y: int, z: int) {
    Valid(g, a, i, x, y) && Valid(g, i, c, y, z)
  }

  ghost predicate ProgBy(g: AbsProof, a: int, i: int, c: int, x: int, y: int, z: int) {
    ValidBy(g, a, i, c, x, y, z) && (Prog(g, a, i, x, y) || Prog(g, i, c, y, z))
  }

  ghost predicate ValidVia(g: AbsProof, a: int, i: int, c: int, x: int, z: int) {
    exists y :: ValidBy(g, a, i, c, x, y, z)
  }

  ghost predicate ProgVia(g: AbsProof, a: int, i: int, c: int, x: int, z: int) {
    exists y :: ProgBy(g, a, i, c, x, y, z)
  }

  /** The edge of the fused graph from `a` to `b` stands for the two edges `a` to `idx` to `c`. */
  ghost predicate Composite(g: AbsProof, idx: int, c: int, a: int, b: int) {
    Step(g, a, idx) && b == c
  }

  /** `g2` is `g` with `idx`, whose only edge goes to `c`, fused into its predecessors. */
  ghost predicate NodeFused(g: AbsProof, g2: AbsProof, idx: int, c: int) {
    && c != idx
    && (forall b :: Step(g, idx, b) <==> b == c)
    && (forall a :: Step(g, a, idx) ==> !Step(g, a, c))
    && (forall a, b :: Step(g2, a, b) <==>
          a != idx && b != idx && (Step(g, a, b) || Composite(g, idx, c, a, b)))
    && (forall a, b, x, z :: Valid(g2, a, b, x, z) <==>
          a != idx && b != idx &&
          if Composite(g, idx, c, a, b) then ValidVia(g, a, idx, c, x, z) else Valid(g, a, b, x, z))
    && (forall a, b, x, z :: Prog(g2, a, b, x, z) <==>
          a != idx && b != idx &&
          if Composite(g, idx, c, a, b) then ProgVia(g, a, idx, c, x, z) else Prog(g, a, b, x, z))
  }

  // Positions: `pos(k)` is where the k-th vertex of the fused path sits in the original one.

  ghost predicate GrowsAt(pos: nat -> nat, k: nat) {
    pos(k) < pos(k + 1)
  }

  ghost predicate Grows(pos: nat -> nat) {
    pos(0) == 0 && forall k: nat :: GrowsAt(pos, k)
  }

  lemma {:induction false} PosAtLeast(pos: nat -> nat, k: nat)
    requires Grows(pos)
    ensures k <= pos(k)
  {
    if k > 0 {
      PosAtLeast(pos, k - 1);
      assert GrowsAt(pos, k - 1);
    }
  }

  lemma {:induction false} PosMonotone(pos: nat -> nat, j: nat, k: nat)
    requires Grows(pos)
    requires j <= k
    ensures pos(j) <= pos(k)
  {
    if j < k {
      PosMonotone(pos, j, k - 1);
      assert GrowsAt(pos, k - 1);
    }
  }

  ghost predicate InBlock(pos: nat -> nat, n: nat, k: nat) {
    pos(k) <= n < pos(k + 1)
  }

  lemma {:induction false} BlockExists(pos: nat -> nat, n: nat)
    requires Grows(pos)
    ensures exists k: nat :: InBlock(pos, n, k)
  {
    if n == 0 {
      assert GrowsAt(pos, 0);
      assert InBlock(pos, 0, 0);
    } else {
      BlockExists(pos, n - 1);
      var k: nat :| InBlock(pos, n - 1, k);
      assert GrowsAt(pos, k + 1);
      assert InBlock(pos, n, if n < pos(k + 1) then k else k + 1);
    }
  }

  ghost function BlockOf(pos: nat -> nat, n: nat): (k: nat)
    requires Grows(pos)
    ensures InBlock(pos, n, k)
  {
    BlockExists(pos, n);
    var k: nat :| InBlock(pos, n, k);
    k
  }

  lemma BlockUnique(pos: nat -> nat, n: nat, j: nat, k: nat)
    requires Grows(pos)
    requires InBlock(pos, n, j) && InBlock(pos, n, k)
    ensures j == k
  {
    if j < k {
      PosMonotone(pos, j + 1, k);
    } else if k < j {
      PosMonotone(pos, k + 1, j);
    }
  }

  /** The k-th edge of the fused path `q`, seen in the original path `p`. */
  ghost predicate BlockOk(g: AbsProof, idx: int, c: int, p: nat -> int, q: nat -> int, pos: nat -> nat, k: nat) {
    && q(k) != idx
    && p(pos(k)) == q(k)
    && p(pos(k + 1)) == q(k + 1)
    && if Composite(g, idx, c, q(k), q(k + 1))
       then pos(k + 1) == pos(k) + 2 && p(pos(k) + 1) == idx
       else pos(k + 1) == pos(k) + 1
  }

  ghost predicate Expands(g: AbsProof, idx: int, c: int, p: nat -> int, q: nat -> int, pos: nat -> nat) {
    Grows(pos) && forall k: nat :: BlockOk(g, idx, c, p, q, pos, k)
  }

  /** A position of the original path is the start of its block or the middle of a composite one. */
  lemma WithinBlock(g: AbsProof, idx: int, c: int, p: nat -> int, q: nat -> int, pos: nat -> nat, n: nat) returns (k: nat)
    requires Expands(g, idx, c, p, q, pos)
    ensures InBlock(pos, n, k) && BlockOk(g, idx, c, p, q, pos, k)
    ensures n == pos(k) || (n == pos(k) + 1 && Composite(g, idx, c, q(k), q(k + 1)))
  {
    k := BlockOf(pos, n);
    assert BlockOk(g, idx, c, p, q, pos, k);
  }

  // ---------- Paths correspond ----------

  lemma PathDown(g: AbsProof, g2: AbsProof, idx: int, c: int, p: nat -> int, q: nat -> int, pos: nat -> nat, root: int)
    requires NodeFused(g, g2, idx, c)
    requires Expands(g, idx, c, p, q, pos)
    requires IsPath(g, root, p)
    ensures IsPath(g2, root, q)
  {
    assert BlockOk(g, idx, c, p, q, pos, 0);
    forall k: nat
      ensures StepAt(g2, q, k)
    {
      assert BlockOk(g, idx, c, p, q, pos, k) && BlockOk(g, idx, c, p, q, pos, k + 1);
      assert StepAt(g, p, pos(k));
    }
  }

  lemma PathUp(g: AbsProof, g2: AbsProof, idx: int, c: int, p: nat -> int, q: nat -> int, pos: nat -> nat, root: int)
    requires NodeFused(g, g2, idx, c)
    requires Expands(g, idx, c, p, q, pos)
    requires IsPath(g2, root, q)
    ensures IsPath(g, root, p)
  {
    assert BlockOk(g, idx, c, p, q, pos, 0);
    forall n: nat
      ensures StepAt(g, p, n)
    {
      var k := WithinBlock(g, idx, c, p, q, pos, n);
      assert StepAt(g2, q, k);
    }
  }

  // ---------- Traces correspond ----------

  ghost predicate ProgInBlock(g: AbsProof, p: nat -> int, t: nat -> int, pos: nat -> nat, k: nat) {
    exists n :: pos(k) <= n < pos(k + 1) && ProgAt(g, p, t, n)
  }

  /** The k-th edge of `u` is valid, and progresses if `t` does inside the block. */
  ghost predicate CarriedDown(g: AbsProof, g2: AbsProof, p: nat -> int, q: nat -> int, pos: nat -> nat,
                              t: nat -> int, u: nat -> int, k: nat)
  {
    ValidAt(g2, q, u, k) && (ProgInBlock(g, p, t, pos, k) ==> ProgAt(g2, q, u, k))
  }

  lemma TraceDownAt(g: AbsProof, g2: AbsProof, idx: int, c: int, p: nat -> int, q: nat -> int, pos: nat -> nat,
                    t: nat -> int, u: nat -> int, k: nat)
    requires NodeFused(g, g2, idx, c)
    requires BlockOk(g, idx, c, p, q, pos, k) && q(k + 1) != idx
    requires u(k) == t(pos(k)) && u(k + 1) == t(pos(k + 1))
    requires forall n :: pos(k) <= n < pos(k + 1) ==> ValidAt(g, p, t, n)
    ensures CarriedDown(g, g2, p, q, pos, t, u, k)
  {
    assert ValidAt(g, p, t, pos(k));
    if Composite(g, idx, c, q(k), q(k + 1)) {
      assert ValidAt(g, p, t, pos(k) + 1);
      var x, y, z := t(pos(k)), t(pos(k) + 1), t(pos(k) + 2);
      assert ValidBy(g, q(k), idx, c, x, y, z);
      assert ProgInBlock(g, p, t, pos, k) ==> ProgBy(g, q(k), idx, c, x, y, z);
    }
  }

  lemma ProgressDown(g: AbsProof, g2: AbsProof, p: nat -> int, q: nat -> int, pos: nat -> nat,
                     t: nat -> int, u: nat -> int, k0: nat, n: nat)
    requires Grows(pos)
    requires InfinitelyProgressing(g, p, t)
    requires forall k: nat :: k0 <= k ==> CarriedDown(g, g2, p, q, pos, t, u, k)
    ensures ProgressesAfter(g2, q, u, n)
  {
    var n' := if n < k0 then k0 else n;
    assert ProgressesAfter(g, p, t, pos(n'));
    var m: nat :| pos(n') <= m && ProgAt(g, p, t, m);
    var k := BlockOf(pos, m);
    if k < n' {
      PosMonotone(pos, k + 1, n');
    }
    assert ProgInBlock(g, p, t, pos, k);
    assert CarriedDown(g, g2, p, q, pos, t, u, k);
  }

  lemma TraceDown(g: AbsProof, g2: AbsProof, idx: int, c: int, p: nat -> int, q: nat -> int, pos: nat -> nat)
    requires NodeFused(g, g2, idx, c)
    requires Expands(g, idx, c, p, q, pos)
    requires Followed(g, p)
    ensures Followed(g2, q)
  {
    var k0: nat :| FollowedFrom(g, p, k0);
    var t: nat -> int :| IsTrace(g, p, k0, t) && InfinitelyProgressing(g, p, t);
    var u := (k: nat) => t(pos(k));
    forall k: nat | k0 <= k
      ensures CarriedDown(g, g2, p, q, pos, t, u, k)
    {
      PosAtLeast(pos, k);
      assert BlockOk(g, idx, c, p, q, pos, k) && BlockOk(g, idx, c, p, q, pos, k + 1);
      TraceDownAt(g, g2, idx, c, p, q, pos, t, u, k);
    }
    assert IsTrace(g2, q, k0, u) by {
      forall k: nat | k0 <= k
        ensures ValidAt(g2, q, u, k)
      {
        assert CarriedDown(g, g2, p, q, pos, t, u, k);
      }
    }
    forall n: nat { ProgressDown(g, g2, p, q, pos, t, u, k0, n); }
    assert FollowedFrom(g2, q, k0);
  }

  /** A tag at the fused node that links the two ends of a composite edge, on a progressing way if there is one. */
  ghost function Middle(g: AbsProof, a: int, idx: int, c: int, x: int, z: int): (y: int)
    requires ValidVia(g, a, idx, c, x, z)
    ensures Valid(g, a, idx, x, y) && Valid(g, idx, c, y, z)
    ensures ProgVia(g, a, idx, c, x, z) ==> Prog(g, a, idx, x, y) || Prog(g, idx, c, y, z)
  {
    if ProgVia(g, a, idx, c, x, z) then
      var y :| ProgBy(g, a, idx, c, x, y, z);
      y
    else
      var y :| ValidBy(g, a, idx, c, x, y, z);
      y
  }

  ghost function Lifted(g: AbsProof, idx: int, c: int, q: nat -> int, pos: nat -> nat, u: nat -> int, n: nat): int
    requires Grows(pos)
  {
    var k := BlockOf(pos, n);
    if n == pos(k) || !ValidVia(g, q(k), idx, c, u(k), u(k + 1)) then u(k)
    else Middle(g, q(k), idx, c, u(k), u(k + 1))
  }

  lemma LiftedAtStart(g: AbsProof, idx: int, c: int, q: nat -> int, pos: nat -> nat, u: nat -> int, k: nat)
    requires Grows(pos)
    ensures Lifted(g, idx, c, q, pos, u, pos(k)) == u(k)
  {
    assert GrowsAt(pos, k);
    BlockUnique(pos, pos(k), k, BlockOf(pos, pos(k)));
  }

  lemma LiftedInMiddle(g: AbsProof, idx: int, c: int, q: nat -> int, pos: nat -> nat, u: nat -> int, k: nat)
    requires Grows(pos) && pos(k + 1) == pos(k) + 2
    requires ValidVia(g, q(k), idx, c, u(k), u(k + 1))
    ensures Lifted(g, idx, c, q, pos, u, pos(k) + 1) == Middle(g, q(k), idx, c, u(k), u(k + 1))
  {
    BlockUnique(pos, pos(k) + 1, k, BlockOf(pos, pos(k) + 1));
  }

  /** Lifting one edge of the trace `u` back to the original path. */
  lemma TraceUpEdge(g: AbsProof, g2: AbsProof, idx: int, c: int, p: nat -> int, q: nat -> int, pos: nat -> nat,
                    u: nat -> int, t: nat -> int, k: nat)
    requires NodeFused(g, g2, idx, c)
    requires BlockOk(g, idx, c, p, q, pos, k)
    requires ValidAt(g2, q, u, k)
    requires t(pos(k)) == u(k) && t(pos(k + 1)) == u(k + 1)
    requires Composite(g, idx, c, q(k), q(k + 1)) ==>
               ValidVia(g, q(k), idx, c, u(k), u(k + 1)) &&
               t(pos(k) + 1) == Middle(g, q(k), idx, c, u(k), u(k + 1))
    ensures forall n :: pos(k) <= n < pos(k + 1) ==> ValidAt(g, p, t, n)
    ensures ProgAt(g2, q, u, k) ==> ProgInBlock(g, p, t, pos, k)
  {
    var n0 := pos(k);
    if Composite(g, idx, c, q(k), q(k + 1)) {
      assert ValidAt(g, p, t, n0) && ValidAt(g, p, t, n0 + 1);
      if ProgAt(g2, q, u, k) {
        assert ProgAt(g, p, t, n0) || ProgAt(g, p, t, n0 + 1);
      }
    } else {
      assert ValidAt(g, p, t, n0);
      assert ProgAt(g2, q, u, k) ==> ProgAt(g, p, t, n0);
    }
  }

  lemma TraceUpAt(g: AbsProof, g2: AbsProof, idx: int, c: int, p: nat -> int, q: nat -> int, pos: nat -> nat,
                  u: nat -> int, t: nat -> int, k: nat)
    requires NodeFused(g, g2, idx, c)
    requires Expands(g, idx, c, p, q, pos)
    requires forall n: nat :: t(n) == Lifted(g, idx, c, q, pos, u, n)
    requires ValidAt(g2, q, u, k)
    ensures forall n :: pos(k) <= n < pos(k + 1) ==> ValidAt(g, p, t, n)
    ensures ProgAt(g2, q, u, k) ==> ProgInBlock(g, p, t, pos, k)
  {
    assert BlockOk(g, idx, c, p, q, pos, k);
    LiftedAtStart(g, idx, c, q, pos, u, k);
    LiftedAtStart(g, idx, c, q, pos, u, k + 1);
    assert t(pos(k)) == u(k) && t(pos(k + 1)) == u(k + 1);
    if Composite(g, idx, c, q(k), q(k + 1)) {
      LiftedInMiddle(g, idx, c, q, pos, u, k);
      assert t(pos(k) + 1) == Lifted(g, idx, c, q, pos, u, pos(k) + 1);
    }
    TraceUpEdge(g, g2, idx, c, p, q, pos, u, t, k);
  }

  lemma TraceUp(g: AbsProof, g2: AbsProof, idx: int, c: int, p: nat -> int, q: nat -> int, pos: nat -> nat)
    requires NodeFused(g, g2, idx, c)
    requires Expands(g, idx, c, p, q, pos)
    requires Followed(g2, q)
    ensures Followed(g, p)
  {
    var k0: nat :| FollowedFrom(g2, q, k0);
    var u: nat -> int :| IsTrace(g2, q, k0, u) && InfinitelyProgressing(g2, q, u);
    var t := (n: nat) => Lifted(g, idx, c, q, pos, u, n);
    forall n: nat | pos(k0) <= n
      ensures ValidAt(g, p, t, n)
    {
      var k := WithinBlock(g, idx, c, p, q, pos, n);
      if k < k0 {
        PosMonotone(pos, k + 1, k0);
      }
      TraceUpAt(g, g2, idx, c, p, q, pos, u, t, k);
    }
    forall n: nat
      ensures ProgressesAfter(g, p, t, n)
    {
      var n' := if n < k0 then k0 else n;
      assert ProgressesAfter(g2, q, u, n');
      var k: nat :| n' <= k && ProgAt(g2, q, u, k);
      TraceUpAt(g, g2, idx, c, p, q, pos, u, t, k);
      var m :| pos(k) <= m < pos(k + 1) && ProgAt(g, p, t, m);
      PosAtLeast(pos, k);
    }
    assert IsTrace(g, p, pos(k0), t) && InfinitelyProgressing(g, p, t);
    assert FollowedFrom(g, p, pos(k0));
  }

  // ---------- Every path has its counterpart ----------

  ghost function ContractPos(idx: int, p: nat -> int, k: nat): nat {
    if k == 0 then 0
    else
      var n := ContractPos(idx, p, k - 1);
      if p(n + 1) == idx then n + 2 else n + 1
  }

  lemma {:induction false} ContractAvoids(g: AbsProof, idx: int, c: int, p: nat -> int, root: int, k: nat)
    requires c != idx && (forall b :: Step(g, idx, b) <==> b == c)
    requires IsPath(g, root, p) && root != idx
    ensures p(ContractPos(idx, p, k)) != idx
  {
    if k > 0 {
      var n := ContractPos(idx, p, k - 1);
      assert StepAt(g, p, n + 1);
    }
  }

  lemma Contract(g: AbsProof, g2: AbsProof, idx: int, c: int, p: nat -> int, root: int) returns (q: nat -> int, pos: nat -> nat)
    requires NodeFused(g, g2, idx, c)
    requires IsPath(g, root, p) && root != idx
    ensures Expands(g, idx, c, p, q, pos)
  {
    pos := (k: nat) => ContractPos(idx, p, k);
    q := (k: nat) => p(ContractPos(idx, p, k));
    forall k: nat
      ensures GrowsAt(pos, k) && BlockOk(g, idx, c, p, q, pos, k)
    {
      var n := ContractPos(idx, p, k);
      ContractAvoids(g, idx, c, p, root, k);
      ContractAvoids(g, idx, c, p, root, k + 1);
      assert StepAt(g, p, n) && StepAt(g, p, n + 1);
    }
  }

  ghost function ExpandPos(g: AbsProof, idx: int, c: int, q: nat -> int, k: nat): nat {
    if k == 0 then 0
    else ExpandPos(g, idx, c, q, k - 1) + if Composite(g, idx, c, q(k - 1), q(k)) then 2 else 1
  }

  ghost function ExpandPath(idx: int, q: nat -> int, pos: nat -> nat, n: nat): int
    requires Grows(pos)
  {
    var k := BlockOf(pos, n);
    if n == pos(k) then q(k) else idx
  }

  lemma ExpandPathAt(idx: int, q: nat -> int, pos: nat -> nat, k: nat)
    requires Grows(pos)
    ensures ExpandPath(idx, q, pos, pos(k)) == q(k)
    ensures pos(k) + 1 < pos(k + 1) ==> ExpandPath(idx, q, pos, pos(k) + 1) == idx
  {
    assert GrowsAt(pos, k);
    BlockUnique(pos, pos(k), k, BlockOf(pos, pos(k)));
    if pos(k) + 1 < pos(k + 1) {
      BlockUnique(pos, pos(k) + 1, k, BlockOf(pos, pos(k) + 1));
    }
  }

  lemma ExpandBlocks(g: AbsProof, idx: int, c: int, q: nat -> int) returns (p: nat -> int, pos: nat -> nat)
    requires forall k: nat :: q(k) != idx
    ensures Expands(g, idx, c, p, q, pos)
  {
    pos := (k: nat) => ExpandPos(g, idx, c, q, k);
    forall k: nat
      ensures GrowsAt(pos, k)
    {
    }
    p := (n: nat) => ExpandPath(idx, q, pos, n);
    forall k: nat
      ensures BlockOk(g, idx, c, p, q, pos, k)
    {
      ExpandPathAt(idx, q, pos, k);
      ExpandPathAt(idx, q, pos, k + 1);
    }
  }

  lemma Expand(g: AbsProof, g2: AbsProof, idx: int, c: int, q: nat -> int, root: int) returns (p: nat -> int, pos: nat -> nat)
    requires NodeFused(g, g2, idx, c)
    requires IsPath(g2, root, q)
    ensures Expands(g, idx, c, p, q, pos)
  {
    forall k: nat
      ensures q(k) != idx
    {
      assert StepAt(g2, q, k);
    }
    p, pos := ExpandBlocks(g, idx, c, q);
  }

  lemma FusionPreservesGTC(g: AbsProof, g2: AbsProof, idx: int, c: int, root: int)
    requires NodeFused(g, g2, idx, c)
    requires root != idx
    ensures GTC(g, root) <==> GTC(g2, root)
  {
    if GTC(g2, root) {
      forall p: nat -> int | IsPath(g, root, p)
        ensures Followed(g, p)
      {
        var q, pos := Contract(g, g2, idx, c, p, root);
        PathDown(g, g2, idx, c, p, q, pos, root);
        TraceUp(g, g2, idx, c, p, q, pos);
      }
    }
    if GTC(g, root) {
      forall q: nat -> int | IsPath(g2, root, q)
        ensures Followed(g2, q)
      {
        var p, pos := Expand(g, g2, idx, c, q, root);
        PathUp(g, g2, idx, c, p, q, pos, root);
        TraceDown(g, g2, idx, c, p, q, pos);
      }
    }
  }
}
