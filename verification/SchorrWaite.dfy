/** Pointer-reversal marking (benchmarks/slmc/programs/schorr_waite.c). */
module SchorrWaite {
  class Node {
    var m: bool   // marked
    var c: bool   // which child is explored
    var l: Node?
    var r: Node?
  }

  /** The contents of the nodes at one moment. */
  datatype Shot = Shot(m: map<Node, bool>, c: map<Node, bool>, l: map<Node, Node?>, r: map<Node, Node?>)

  ghost predicate Total(nodes: set<Node>, g: Shot) {
    g.m.Keys == nodes && g.c.Keys == nodes && g.l.Keys == nodes && g.r.Keys == nodes
  }

  /** `g` is what the nodes hold now. */
  ghost predicate Shows(nodes: set<Node>, g: Shot)
    reads nodes
  {
    Total(nodes, g) && forall n :: n in nodes ==> Holds(g, n)
  }

  ghost predicate Holds(g: Shot, n: Node)
    requires n in g.m && n in g.c && n in g.l && n in g.r
    reads n
  {
    g.m[n] == n.m && g.c[n] == n.c && g.l[n] == n.l && g.r[n] == n.r
  }

  ghost predicate In(nodes: set<Node>, n: Node?) {
    n == null || n in nodes
  }

  /** No pointer leads out of `nodes`. */
  ghost predicate Closed(nodes: set<Node>, g: Shot) {
    Total(nodes, g) && forall n {:trigger ClosedAt(nodes, g, n)} :: n in nodes ==> ClosedAt(nodes, g, n)
  }

  ghost predicate ClosedAt(nodes: set<Node>, g: Shot, n: Node)
    requires Total(nodes, g) && n in nodes
  {
    In(nodes, g.l[n]) && In(nodes, g.r[n])
  }

  // ---------- Reachability ----------

  ghost predicate Edge(g: Shot, a: Node, b: Node) {
    (a in g.l && g.l[a] == b) || (a in g.r && g.r[a] == b)
  }

  ghost predicate ReachableIn(nodes: set<Node>, g: Shot, root: Node?, n: Node, k: nat) {
    if k == 0 then n == root
    else exists a :: a in nodes && Edge(g, a, n) && ReachableIn(nodes, g, root, a, k - 1)
  }

  ghost predicate Reachable(nodes: set<Node>, g: Shot, root: Node?, n: Node) {
    exists k: nat :: ReachableIn(nodes, g, root, n, k)
  }

  lemma ReachableStep(nodes: set<Node>, g: Shot, root: Node?, a: Node, b: Node)
    requires a in nodes && Edge(g, a, b) && Reachable(nodes, g, root, a)
    ensures Reachable(nodes, g, root, b)
  {
    var k: nat :| ReachableIn(nodes, g, root, a, k);
    assert ReachableIn(nodes, g, root, b, k + 1);
  }

  // ---------- The invariant ----------

  function Top(stack: seq<Node>): Node? {
    if stack == [] then null else stack[|stack| - 1]
  }

  /** The node below position `i` of the stack. */
  function Under(stack: seq<Node>, i: int): Node?
    requires 0 <= i <= |stack|
  {
    if i == 0 then null else stack[i - 1]
  }

  /** The node above position `i`, the current node `t` being above the top. */
  function Above(stack: seq<Node>, i: int, t: Node?): Node?
    requires 0 <= i < |stack|
  {
    if i == |stack| - 1 then t else stack[i + 1]
  }

  /** One reversed pointer of each node on the stack leads down; it used to lead up. */
  ghost predicate Frame(nodes: set<Node>, g0: Shot, g: Shot, stack: seq<Node>, t: Node?, i: int)
    requires Total(nodes, g0) && Total(nodes, g) && 0 <= i < |stack|
  {
    var n := stack[i];
    && n in nodes && g.m[n]
    && if g.c[n]
       then g.r[n] == Under(stack, i) && g.l[n] == g0.l[n] && g0.r[n] == Above(stack, i, t)
       else g.l[n] == Under(stack, i) && g.r[n] == g0.r[n] && g0.l[n] == Above(stack, i, t)
  }

  ghost predicate Linked(nodes: set<Node>, g0: Shot, g: Shot, stack: seq<Node>, t: Node?)
    requires Total(nodes, g0) && Total(nodes, g)
  {
    forall i :: 0 <= i < |stack| ==> Frame(nodes, g0, g, stack, t, i)
  }

  ghost predicate Distinct(stack: seq<Node>) {
    forall i, j :: 0 <= i < j < |stack| ==> stack[i] != stack[j]
  }

  /** Off the stack every pointer is the original one. */
  ghost predicate Intact(nodes: set<Node>, g0: Shot, g: Shot, stack: seq<Node>)
    requires Total(nodes, g0) && Total(nodes, g)
  {
    forall n :: n in nodes && n !in stack ==> g.l[n] == g0.l[n] && g.r[n] == g0.r[n]
  }

  ghost predicate Seen(g: Shot, n: Node?) {
    n == null || (n in g.m && g.m[n])
  }

  /** A node that is off the stack has both children marked, one whose right child is being explored the left one. */
  ghost predicate DoneAt(nodes: set<Node>, g0: Shot, g: Shot, stack: seq<Node>, n: Node)
    requires Total(nodes, g0) && Total(nodes, g) && n in nodes
  {
    && (g.m[n] && n !in stack ==> Seen(g, g0.l[n]) && Seen(g, g0.r[n]))
    && (n in stack && g.c[n] ==> Seen(g, g0.l[n]))
  }

  /** What has been explored is marked. */
  ghost predicate Explored(nodes: set<Node>, g0: Shot, g: Shot, stack: seq<Node>)
    requires Total(nodes, g0) && Total(nodes, g)
  {
    forall n {:trigger DoneAt(nodes, g0, g, stack, n)} :: n in nodes ==> DoneAt(nodes, g0, g, stack, n)
  }

  ghost predicate OnlyReachable(nodes: set<Node>, g0: Shot, g: Shot, root: Node?, t: Node?)
    requires Total(nodes, g)
  {
    && (forall n {:trigger Reachable(nodes, g0, root, n)} :: n in nodes && g.m[n] ==> Reachable(nodes, g0, root, n))
    && (t != null ==> Reachable(nodes, g0, root, t))
  }

  ghost predicate Inv(nodes: set<Node>, g0: Shot, g: Shot, root: Node?, stack: seq<Node>, t: Node?) {
    && Closed(nodes, g0) && Total(nodes, g) && In(nodes, t)
    && Linked(nodes, g0, g, stack, t) && Distinct(stack) && Intact(nodes, g0, g, stack)
    && root == (if stack == [] then t else stack[0])
    && Explored(nodes, g0, g, stack) && OnlyReachable(nodes, g0, g, root, t)
  }

  // ---------- The three moves ----------

  /** `push`: mark the current node and go left. */
  ghost function Pushed(g: Shot, stack: seq<Node>, t: Node): Shot {
    g.(m := g.m[t := true], c := g.c[t := false], l := g.l[t := Top(stack)])
  }

  /** `swing`: from the left child of the top node to its right child. */
  ghost function Swung(g: Shot, p: Node, t: Node?): Shot
    requires p in g.l
  {
    g.(c := g.c[p := true], l := g.l[p := t], r := g.r[p := g.l[p]])
  }

  /** `pop`: leave the top node, with its right pointer restored. */
  ghost function Popped(g: Shot, p: Node, t: Node?): Shot {
    g.(r := g.r[p := t])
  }

  lemma UnmarkedOffStack(nodes: set<Node>, g0: Shot, g: Shot, stack: seq<Node>, t: Node)
    requires Total(nodes, g0) && Total(nodes, g) && Linked(nodes, g0, g, stack, t)
    requires t in nodes && !g.m[t]
    ensures t !in stack
  {
    forall i | 0 <= i < |stack|
      ensures stack[i] != t
    {
      assert Frame(nodes, g0, g, stack, t, i);
    }
  }

  lemma PushLinks(nodes: set<Node>, g0: Shot, g: Shot, stack: seq<Node>, t: Node)
    requires Total(nodes, g0) && Total(nodes, g) && Linked(nodes, g0, g, stack, t)
    requires t in nodes && t !in stack && g.l[t] == g0.l[t] && g.r[t] == g0.r[t]
    ensures Linked(nodes, g0, Pushed(g, stack, t), stack + [t], g.l[t])
  {
    var g', stack' := Pushed(g, stack, t), stack + [t];
    forall i | 0 <= i < |stack'|
      ensures Frame(nodes, g0, g', stack', g.l[t], i)
    {
      if i < |stack| {
        assert Frame(nodes, g0, g, stack, t, i);
        assert stack'[i] == stack[i];
      }
    }
  }

  lemma SwingLinks(nodes: set<Node>, g0: Shot, g: Shot, stack: seq<Node>, p: Node, t: Node?)
    requires Total(nodes, g0) && Total(nodes, g) && Linked(nodes, g0, g, stack, t) && Distinct(stack)
    requires stack != [] && p == Top(stack) && p in nodes && !g.c[p]
    ensures Linked(nodes, g0, Swung(g, p, t), stack, g.r[p])
  {
    var g', n := Swung(g, p, t), |stack| - 1;
    forall i | 0 <= i < |stack|
      ensures Frame(nodes, g0, g', stack, g.r[p], i)
    {
      assert Frame(nodes, g0, g, stack, t, i);
      if i < n {
        assert stack[i] != stack[n];
      }
    }
  }

  lemma PopLinks(nodes: set<Node>, g0: Shot, g: Shot, stack: seq<Node>, p: Node, t: Node?)
    requires Total(nodes, g0) && Total(nodes, g) && Linked(nodes, g0, g, stack, t) && Distinct(stack)
    requires stack != [] && p == Top(stack) && p in nodes && g.c[p]
    ensures Linked(nodes, g0, Popped(g, p, t), stack[..|stack| - 1], p)
    ensures g.r[p] == Top(stack[..|stack| - 1]) && t == g0.r[p] && g.l[p] == g0.l[p]
  {
    var g', n := Popped(g, p, t), |stack| - 1;
    var stack' := stack[..n];
    forall i | 0 <= i < n
      ensures Frame(nodes, g0, g', stack', p, i)
    {
      assert Frame(nodes, g0, g, stack, t, i);
      assert stack[i] != stack[n];
    }
    assert Frame(nodes, g0, g, stack, t, n);
  }

  lemma PushExplores(nodes: set<Node>, g0: Shot, g: Shot, stack: seq<Node>, t: Node)
    requires Total(nodes, g0) && Total(nodes, g) && t in nodes && t !in stack
    requires Explored(nodes, g0, g, stack) && Intact(nodes, g0, g, stack)
    ensures Explored(nodes, g0, Pushed(g, stack, t), stack + [t])
    ensures Intact(nodes, g0, Pushed(g, stack, t), stack + [t])
  {
    var g', stack' := Pushed(g, stack, t), stack + [t];
    forall n | n in nodes
      ensures DoneAt(nodes, g0, g', stack', n)
    {
      assert DoneAt(nodes, g0, g, stack, n);
      assert n in stack' <==> n in stack || n == t;
    }
  }

  lemma PushReaches(nodes: set<Node>, g0: Shot, g: Shot, root: Node?, stack: seq<Node>, t: Node)
    requires Total(nodes, g0) && Total(nodes, g) && t in nodes && g.l[t] == g0.l[t]
    requires OnlyReachable(nodes, g0, g, root, t)
    ensures OnlyReachable(nodes, g0, Pushed(g, stack, t), root, g.l[t])
  {
    var t' := g.l[t];
    if t' != null {
      assert Edge(g0, t, t');
      ReachableStep(nodes, g0, root, t, t');
    }
  }

  lemma PushedStack(stack: seq<Node>, t: Node)
    requires Distinct(stack) && t !in stack
    ensures Distinct(stack + [t]) && (stack + [t])[0] == if stack == [] then t else stack[0]
  {
    var stack' := stack + [t];
    forall i, j | 0 <= i < j < |stack'|
      ensures stack'[i] != stack'[j]
    {
      assert stack[i] in stack;
    }
  }

  lemma PushKeeps(nodes: set<Node>, g0: Shot, g: Shot, root: Node?, stack: seq<Node>, t: Node)
    requires Inv(nodes, g0, g, root, stack, t) && t in nodes && !g.m[t]
    ensures Inv(nodes, g0, Pushed(g, stack, t), root, stack + [t], g.l[t])
  {
    UnmarkedOffStack(nodes, g0, g, stack, t);
    PushedStack(stack, t);
    PushLinks(nodes, g0, g, stack, t);
    PushReaches(nodes, g0, g, root, stack, t);
    assert ClosedAt(nodes, g0, t);
    PushExplores(nodes, g0, g, stack, t);
  }

  lemma TopIsMarked(nodes: set<Node>, g0: Shot, g: Shot, stack: seq<Node>, t: Node?)
    requires Total(nodes, g0) && Total(nodes, g) && Linked(nodes, g0, g, stack, t) && stack != []
    ensures Top(stack) in nodes && g.m[Top(stack)]
    ensures !g.c[Top(stack)] ==> g0.l[Top(stack)] == t && g.r[Top(stack)] == g0.r[Top(stack)]
  {
    assert Frame(nodes, g0, g, stack, t, |stack| - 1);
  }

  lemma SwingExplores(nodes: set<Node>, g0: Shot, g: Shot, stack: seq<Node>, p: Node, t: Node?)
    requires Total(nodes, g0) && Total(nodes, g) && p in nodes && p in stack && Seen(g, t) && g0.l[p] == t
    requires Explored(nodes, g0, g, stack) && Intact(nodes, g0, g, stack)
    ensures Explored(nodes, g0, Swung(g, p, t), stack) && Intact(nodes, g0, Swung(g, p, t), stack)
  {
    forall n | n in nodes
      ensures DoneAt(nodes, g0, Swung(g, p, t), stack, n)
    {
      assert DoneAt(nodes, g0, g, stack, n);
    }
  }

  lemma SwingKeeps(nodes: set<Node>, g0: Shot, g: Shot, root: Node?, stack: seq<Node>, p: Node, t: Node?)
    requires Inv(nodes, g0, g, root, stack, t) && Seen(g, t)
    requires stack != [] && p == Top(stack) && p in nodes && !g.c[p]
    ensures Inv(nodes, g0, Swung(g, p, t), root, stack, g.r[p])
  {
    TopIsMarked(nodes, g0, g, stack, t);
    assert ClosedAt(nodes, g0, p);
    SwingLinks(nodes, g0, g, stack, p, t);
    var g', t' := Swung(g, p, t), g.r[p];
    assert OnlyReachable(nodes, g0, g', root, t') by {
      if t' != null {
        assert Edge(g0, p, t');
        ReachableStep(nodes, g0, root, p, t');
      }
    }
    SwingExplores(nodes, g0, g, stack, p, t);
  }

  lemma PopExplores(
    nodes: set<Node>, g0: Shot, g: Shot, stack: seq<Node>, stack': seq<Node>, p: Node, t: Node?
  )
    requires Without(stack, stack', p)
    requires Total(nodes, g0) && Total(nodes, g) && p in nodes && p in stack && g.c[p]
    requires Explored(nodes, g0, g, stack) && Intact(nodes, g0, g, stack)
    requires Seen(g, t) && t == g0.r[p] && g.l[p] == g0.l[p]
    ensures Explored(nodes, g0, Popped(g, p, t), stack') && Intact(nodes, g0, Popped(g, p, t), stack')
  {
    forall n | n in nodes
      ensures DoneAt(nodes, g0, Popped(g, p, t), stack', n)
    {
      assert DoneAt(nodes, g0, g, stack, n);
    }
  }

  ghost predicate Without(stack: seq<Node>, stack': seq<Node>, p: Node) {
    && (forall n :: n in stack' ==> n in stack)
    && (forall n :: n in stack && n != p ==> n in stack')
  }

  lemma PoppedStack(stack: seq<Node>, stack': seq<Node>, p: Node)
    requires stack != [] && p == Top(stack) && stack' == stack[..|stack| - 1] && Distinct(stack)
    ensures Without(stack, stack', p) && p in stack && Distinct(stack')
    ensures (if stack' == [] then p else stack'[0]) == stack[0]
  {
    assert stack == stack' + [p];
    forall n | n in stack'
      ensures n in stack
    {
      var i :| 0 <= i < |stack'| && stack'[i] == n;
      assert stack[i] == n;
    }
    forall i, j | 0 <= i < j < |stack'|
      ensures stack'[i] != stack'[j]
    {
      assert stack[i] != stack[j];
    }
  }

  lemma PopReaches(nodes: set<Node>, g0: Shot, g: Shot, root: Node?, p: Node, t: Node?)
    requires Total(nodes, g) && p in nodes && g.m[p] && OnlyReachable(nodes, g0, g, root, t)
    ensures Total(nodes, Popped(g, p, t)) && OnlyReachable(nodes, g0, Popped(g, p, t), root, p)
  {
    assert Reachable(nodes, g0, root, p);
  }

  lemma PopKeeps(nodes: set<Node>, g0: Shot, g: Shot, root: Node?, stack: seq<Node>, p: Node, t: Node?)
    requires Inv(nodes, g0, g, root, stack, t) && Seen(g, t)
    requires stack != [] && p == Top(stack) && p in nodes && g.c[p]
    ensures Inv(nodes, g0, Popped(g, p, t), root, stack[..|stack| - 1], p)
    ensures g.r[p] == Top(stack[..|stack| - 1])
  {
    TopIsMarked(nodes, g0, g, stack, t);
    PopReaches(nodes, g0, g, root, p, t);
    PopLinks(nodes, g0, g, stack, p, t);
    PoppedStack(stack, stack[..|stack| - 1], p);
    PopExplores(nodes, g0, g, stack, stack[..|stack| - 1], p, t);
  }

  /** With the stack empty the search is over: exactly the reachable nodes are marked. */
  lemma {:induction false} AllReached(nodes: set<Node>, g0: Shot, g: Shot, root: Node?, n: Node, k: nat)
    requires Inv(nodes, g0, g, root, [], root) && Seen(g, root)
    requires ReachableIn(nodes, g0, root, n, k)
    ensures n in nodes && g.m[n]
    decreases k
  {
    if k > 0 {
      var a :| a in nodes && Edge(g0, a, n) && ReachableIn(nodes, g0, root, a, k - 1);
      AllReached(nodes, g0, g, root, a, k - 1);
      assert DoneAt(nodes, g0, g, [], a);
    }
  }

  ghost function Unmarked(nodes: set<Node>, g: Shot): set<Node>
    requires Total(nodes, g)
  {
    set n | n in nodes && !g.m[n]
  }

  /** Nodes on the stack whose right child is still to be visited. */
  ghost function Pending(nodes: set<Node>, g: Shot, stack: seq<Node>): set<Node>
    requires Total(nodes, g)
  {
    set n | n in nodes && n in stack && !g.c[n]
  }

  lemma PushShrinks(nodes: set<Node>, g: Shot, stack: seq<Node>, t: Node)
    requires Total(nodes, g) && t in nodes && !g.m[t]
    ensures Unmarked(nodes, Pushed(g, stack, t)) < Unmarked(nodes, g)
  {
    assert t in Unmarked(nodes, g) && t !in Unmarked(nodes, Pushed(g, stack, t));
  }

  lemma SwingShrinks(nodes: set<Node>, g: Shot, stack: seq<Node>, p: Node, t: Node?)
    requires Total(nodes, g) && p in nodes && p in stack && !g.c[p]
    ensures Unmarked(nodes, Swung(g, p, t)) == Unmarked(nodes, g)
    ensures Pending(nodes, Swung(g, p, t), stack) < Pending(nodes, g, stack)
  {
    assert p in Pending(nodes, g, stack) && p !in Pending(nodes, Swung(g, p, t), stack);
  }

  lemma PopShrinks(nodes: set<Node>, g: Shot, stack: seq<Node>, stack': seq<Node>, p: Node, t: Node?)
    requires Total(nodes, g) && p in nodes && g.c[p] && stack == stack' + [p]
    ensures Unmarked(nodes, Popped(g, p, t)) == Unmarked(nodes, g)
    ensures Pending(nodes, Popped(g, p, t), stack') == Pending(nodes, g, stack)
  {
  }

  /** A later configuration of the search is smaller. */
  ghost predicate Shrinks(nodes: set<Node>, g: Shot, stack: seq<Node>, g': Shot, stack': seq<Node>)
    requires Total(nodes, g) && Total(nodes, g')
  {
    || Unmarked(nodes, g') < Unmarked(nodes, g)
    || (Unmarked(nodes, g') == Unmarked(nodes, g) && Pending(nodes, g', stack') < Pending(nodes, g, stack))
    || (Unmarked(nodes, g') == Unmarked(nodes, g) && Pending(nodes, g', stack') == Pending(nodes, g, stack)
        && |stack'| < |stack|)
  }

  /** What the loop of `Mark` keeps: `p` is the top of a well-formed stack. */
  ghost predicate Running(
    nodes: set<Node>, g0: Shot, g: Shot, root: Node?, stack: seq<Node>, t: Node?, p: Node?
  )
    reads nodes
  {
    Shows(nodes, g) && p == Top(stack) && Inv(nodes, g0, g, root, stack, t)
  }

  lemma PushStep(nodes: set<Node>, g0: Shot, g: Shot, root: Node?, stack: seq<Node>, t: Node)
    requires Inv(nodes, g0, g, root, stack, t) && t in nodes && !g.m[t]
    ensures Inv(nodes, g0, Pushed(g, stack, t), root, stack + [t], g.l[t])
    ensures Shrinks(nodes, g, stack, Pushed(g, stack, t), stack + [t]) && Top(stack + [t]) == t
  {
    PushKeeps(nodes, g0, g, root, stack, t);
    PushShrinks(nodes, g, stack, t);
  }

  lemma SwingStep(nodes: set<Node>, g0: Shot, g: Shot, root: Node?, stack: seq<Node>, p: Node, t: Node?)
    requires Inv(nodes, g0, g, root, stack, t) && Seen(g, t)
    requires stack != [] && p == Top(stack) && p in nodes && !g.c[p]
    ensures Inv(nodes, g0, Swung(g, p, t), root, stack, g.r[p])
    ensures Shrinks(nodes, g, stack, Swung(g, p, t), stack)
  {
    SwingKeeps(nodes, g0, g, root, stack, p, t);
    SwingShrinks(nodes, g, stack, p, t);
  }

  lemma PopStep(nodes: set<Node>, g0: Shot, g: Shot, root: Node?, stack: seq<Node>, p: Node, t: Node?)
    requires Inv(nodes, g0, g, root, stack, t) && Seen(g, t)
    requires stack != [] && p == Top(stack) && p in nodes && g.c[p]
    ensures Inv(nodes, g0, Popped(g, p, t), root, stack[..|stack| - 1], p)
    ensures Shrinks(nodes, g, stack, Popped(g, p, t), stack[..|stack| - 1])
    ensures g.r[p] == Top(stack[..|stack| - 1])
  {
    PopKeeps(nodes, g0, g, root, stack, p, t);
    PopShrinks(nodes, g, stack, stack[..|stack| - 1], p, t);
  }

  method Push(t: Node, p: Node?, ghost nodes: set<Node>, ghost g: Shot, ghost stack: seq<Node>)
    returns (t': Node?, p': Node, ghost g': Shot)
    requires Shows(nodes, g) && t in nodes && p == Top(stack)
    modifies t
    ensures t' == g.l[t] && p' == t && g' == Pushed(g, stack, t) && Shows(nodes, g')
  {
    g' := Pushed(g, stack, t);
    var q := p;
    p' := t;
    t' := t.l;
    p'.l := q;
    p'.m := true;
    p'.c := false;
    forall n | n in nodes
      ensures Holds(g', n)
    {
      assert old(Holds(g, n));
      assert n != t ==> Holds(g, n);
    }
  }

  method Swing(t: Node?, p: Node, ghost nodes: set<Node>, ghost g: Shot) returns (t': Node?, ghost g': Shot)
    requires Shows(nodes, g) && p in nodes
    modifies p
    ensures t' == g.r[p] && g' == Swung(g, p, t) && Shows(nodes, g')
  {
    g' := Swung(g, p, t);
    var q := t;
    t' := p.r;
    p.r := p.l;
    p.l := q;
    p.c := true;
    forall n | n in nodes
      ensures Holds(g', n)
    {
      assert old(Holds(g, n));
    }
  }

  method Pop(t: Node?, p: Node, ghost nodes: set<Node>, ghost g: Shot)
    returns (t': Node, p': Node?, ghost g': Shot)
    requires Shows(nodes, g) && p in nodes
    modifies p
    ensures t' == p && p' == g.r[p] && g' == Popped(g, p, t) && Shows(nodes, g')
  {
    g' := Popped(g, p, t);
    var q := t;
    t' := p;
    p' := p.r;
    t'.r := q;
    forall n | n in nodes
      ensures Holds(g', n)
    {
      assert old(Holds(g, n));
    }
  }

  /** One round of the loop. */
  method Advance(
    t: Node?, p: Node?, ghost nodes: set<Node>, ghost g0: Shot, ghost g: Shot, ghost root: Node?,
    ghost stack: seq<Node>
  ) returns (t': Node?, p': Node?, ghost g': Shot, ghost stack': seq<Node>)
    requires Running(nodes, g0, g, root, stack, t, p)
    requires p != null || (t != null && !t.m)
    modifies nodes
    ensures Running(nodes, g0, g', root, stack', t', p') && Shrinks(nodes, g, stack, g', stack')
  {
    if t == null || t.m {
      TopIsMarked(nodes, g0, g, stack, t);
      p' := p;
      if p.c {
        PopStep(nodes, g0, g, root, stack, p, t);
        stack' := stack[..|stack| - 1];
        t', p', g' := Pop(t, p, nodes, g);
      } else {
        SwingStep(nodes, g0, g, root, stack, p, t);
        stack' := stack;
        t', g' := Swing(t, p, nodes, g);
      }
    } else {
      PushStep(nodes, g0, g, root, stack, t);
      stack' := stack + [t];
      t', p', g' := Push(t, p, nodes, g, stack);
    }
  }

  lemma Finished(nodes: set<Node>, g0: Shot, g: Shot, root: Node?, stack: seq<Node>, t: Node?)
    requires Inv(nodes, g0, g, root, stack, t) && stack == [] && Seen(g, t)
    ensures t == root && Intact(nodes, g0, g, [])
    ensures forall n :: n in nodes ==> (g.m[n] <==> Reachable(nodes, g0, root, n))
  {
    forall n | n in nodes && Reachable(nodes, g0, root, n)
      ensures g.m[n]
    {
      var k: nat :| ReachableIn(nodes, g0, root, n, k);
      AllReached(nodes, g0, g, root, n, k);
    }
  }

  lemma Started(nodes: set<Node>, g0: Shot, root: Node?)
    requires Closed(nodes, g0) && In(nodes, root) && forall n :: n in nodes ==> !g0.m[n]
    ensures Inv(nodes, g0, g0, root, [], root)
  {
    assert root != null ==> ReachableIn(nodes, g0, root, root, 0);
  }

  /**
   * Marks exactly the nodes reachable from `root`, in any graph closed under
   * pointers and unmarked to begin with, and puts every pointer back.
   */
  method Mark(root: Node?, ghost nodes: set<Node>, ghost g0: Shot)
    requires Shows(nodes, g0) && Closed(nodes, g0) && In(nodes, root)
    requires forall n :: n in nodes ==> !n.m
    modifies nodes
    ensures forall n :: n in nodes ==> n.l == old(n.l) && n.r == old(n.r)
    ensures forall n :: n in nodes ==> (n.m <==> Reachable(nodes, g0, root, n))
  {
    ghost var g := g0;
    ghost var stack: seq<Node> := [];
    var t: Node?, p: Node? := root, null;
    Started(nodes, g0, root);
    while p != null || (t != null && !t.m)
      invariant Running(nodes, g0, g, root, stack, t, p)
      decreases Unmarked(nodes, g), Pending(nodes, g, stack), |stack|
    {
      t, p, g, stack := Advance(t, p, nodes, g0, g, root, stack);
    }
    Finished(nodes, g0, g, root, stack, t);
  }
}
