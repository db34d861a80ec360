/**
 * Binary trees with parent links in which every node carries the size of its
 * subtree, repaired along the ancestors when a node is added
 * (benchmarks/slmc/programs/composite4.c).
 */
module Composite {
  import opened Sets

  const INT_MAX := 2147483647
  newtype Int32 = x: int | -0x8000_0000 <= x < 0x8000_0000

  class Node {
    var left: Node?
    var right: Node?
    var parent: Node?
    var count: Int32

    constructor (p: Node?)
      ensures left == null && right == null && parent == p && count == 1
    {
      left, right, parent, count := null, null, p, 1;
    }
  }

  /** The contents of the nodes at one moment, with the depth of each node. */
  datatype Shot = Shot(
    left: map<Node, Node?>, right: map<Node, Node?>, parent: map<Node, Node?>, count: map<Node, Int32>,
    depth: map<Node, nat>)

  ghost predicate Total(nodes: set<Node>, g: Shot) {
    && g.left.Keys == nodes && g.right.Keys == nodes && g.parent.Keys == nodes
    && g.count.Keys == nodes && g.depth.Keys == nodes
  }

  ghost predicate Holds(g: Shot, n: Node)
    requires n in g.left && n in g.right && n in g.parent && n in g.count
    reads n
  {
    g.left[n] == n.left && g.right[n] == n.right && g.parent[n] == n.parent && g.count[n] == n.count
  }

  /** `g` is what the nodes hold now. */
  ghost predicate Shows(nodes: set<Node>, g: Shot)
    reads nodes
  {
    Total(nodes, g) && forall n :: n in nodes ==> Holds(g, n)
  }

  // ---------- Trees ----------

  ghost predicate ChildOk(nodes: set<Node>, g: Shot, a: Node, c: Node?)
    requires Total(nodes, g) && a in nodes
  {
    c == null || (c in nodes && g.parent[c] == a && g.depth[c] == g.depth[a] + 1)
  }

  ghost predicate ParentOk(nodes: set<Node>, g: Shot, root: Node, a: Node, p: Node?)
    requires Total(nodes, g) && a in nodes
  {
    if p == null then a == root && g.depth[a] == 0
    else a != root && p in nodes && (g.left[p] == a || g.right[p] == a)
  }

  /** Parent and child links agree, and there is one root. */
  ghost predicate ShapeAt(nodes: set<Node>, g: Shot, root: Node, a: Node)
    requires Total(nodes, g) && a in nodes
  {
    && ChildOk(nodes, g, a, g.left[a]) && ChildOk(nodes, g, a, g.right[a])
    && (g.left[a] == g.right[a] ==> g.left[a] == null)
    && ParentOk(nodes, g, root, a, g.parent[a])
    && 1 <= g.count[a]
  }

  ghost predicate Shape(nodes: set<Node>, g: Shot, root: Node) {
    && Total(nodes, g) && root in nodes
    && forall a {:trigger ShapeAt(nodes, g, root, a)} :: a in nodes ==> ShapeAt(nodes, g, root, a)
  }

  ghost function CountOf(g: Shot, c: Node?): int
    requires c == null || c in g.count
  {
    if c == null then 0 else g.count[c] as int
  }

  ghost predicate CountedAt(nodes: set<Node>, g: Shot, a: Node)
    requires Total(nodes, g) && a in nodes
  {
    && (g.left[a] == null || g.left[a] in nodes) && (g.right[a] == null || g.right[a] in nodes)
    && g.count[a] as int == 1 + CountOf(g, g.left[a]) + CountOf(g, g.right[a])
  }

  ghost predicate CountedExcept(nodes: set<Node>, g: Shot, p: Node?)
    requires Total(nodes, g)
  {
    forall a {:trigger CountedAt(nodes, g, a)} :: a in nodes && a != p ==> CountedAt(nodes, g, a)
  }

  // ---------- Subtrees, by ancestors ----------

  ghost function Up(g: Shot, n: Node?, k: nat): Node? {
    if k == 0 then n
    else
      var a := Up(g, n, k - 1);
      if a == null || a !in g.parent then null else g.parent[a]
  }

  ghost predicate Below(g: Shot, a: Node, n: Node)
    requires a in g.depth && n in g.depth
  {
    g.depth[a] <= g.depth[n] && Up(g, n, g.depth[n] - g.depth[a]) == a
  }

  /** The nodes that have `a` among their ancestors, itself included. */
  ghost function Subtree(nodes: set<Node>, g: Shot, a: Node?): set<Node>
    requires Total(nodes, g) && (a == null || a in nodes)
  {
    if a == null then {} else set n | n in nodes && Below(g, a, n)
  }

  lemma {:induction false} UpDepth(nodes: set<Node>, g: Shot, root: Node, n: Node, k: nat)
    requires Shape(nodes, g, root) && n in nodes && k <= g.depth[n]
    ensures Up(g, n, k) != null && Up(g, n, k) in nodes && g.depth[Up(g, n, k)] == g.depth[n] - k
    decreases k
  {
    if k > 0 {
      UpDepth(nodes, g, root, n, k - 1);
      var a := Up(g, n, k - 1);
      assert ShapeAt(nodes, g, root, a);
      assert ShapeAt(nodes, g, root, g.parent[a]);
    }
  }

  lemma RootHasAll(nodes: set<Node>, g: Shot, root: Node)
    requires Shape(nodes, g, root)
    ensures Subtree(nodes, g, root) == nodes
  {
    forall n | n in nodes
      ensures Below(g, root, n)
    {
      assert ShapeAt(nodes, g, root, root);
      UpDepth(nodes, g, root, n, g.depth[n]);
      var a := Up(g, n, g.depth[n]);
      assert ShapeAt(nodes, g, root, a);
      if g.parent[a] != null {
        assert ShapeAt(nodes, g, root, g.parent[a]);
      }
    }
  }

  lemma BelowChild(nodes: set<Node>, g: Shot, root: Node, a: Node, n: Node)
    requires Shape(nodes, g, root) && a in nodes && n in nodes && Below(g, a, n) && n != a
    ensures exists c: Node :: c in nodes && (c == g.left[a] || c == g.right[a]) && Below(g, c, n)
  {
    var k := g.depth[n] - g.depth[a];
    UpDepth(nodes, g, root, n, k - 1);
    var c := Up(g, n, k - 1);
    assert ShapeAt(nodes, g, root, c);
    assert g.parent[c] == a && Below(g, c, n);
  }

  lemma BelowParent(nodes: set<Node>, g: Shot, a: Node, c: Node, n: Node)
    requires Total(nodes, g) && a in nodes && c in nodes && n in nodes && ChildOk(nodes, g, a, c) && Below(g, c, n)
    ensures Below(g, a, n) && n != a
  {
    assert Up(g, n, g.depth[n] - g.depth[a]) == g.parent[c];
  }

  lemma ChildSubtree(nodes: set<Node>, g: Shot, a: Node, c: Node?)
    requires Total(nodes, g) && a in nodes && ChildOk(nodes, g, a, c)
    ensures Subtree(nodes, g, c) <= Subtree(nodes, g, a) - {a}
  {
    if c != null {
      forall n | n in Subtree(nodes, g, c)
        ensures n in Subtree(nodes, g, a) && n != a
      {
        BelowParent(nodes, g, a, c, n);
      }
    }
  }

  lemma SiblingsDisjoint(nodes: set<Node>, g: Shot, b: Node, c: Node)
    requires Total(nodes, g) && b in nodes && c in nodes && g.depth[b] == g.depth[c] && b != c
    ensures Subtree(nodes, g, b) !! Subtree(nodes, g, c)
  {
  }

  lemma SubtreeSplits(nodes: set<Node>, g: Shot, root: Node, a: Node)
    requires Shape(nodes, g, root) && a in nodes && ShapeAt(nodes, g, root, a)
    ensures Subtree(nodes, g, a) == {a} + Subtree(nodes, g, g.left[a]) + Subtree(nodes, g, g.right[a])
    ensures a !in Subtree(nodes, g, g.left[a]) && a !in Subtree(nodes, g, g.right[a])
    ensures Subtree(nodes, g, g.left[a]) !! Subtree(nodes, g, g.right[a])
  {
    var l, r := g.left[a], g.right[a];
    ChildSubtree(nodes, g, a, l);
    ChildSubtree(nodes, g, a, r);
    if l != null && r != null {
      SiblingsDisjoint(nodes, g, l, r);
    }
    assert Up(g, a, 0) == a;
    forall n | n in Subtree(nodes, g, a) && n != a
      ensures n in Subtree(nodes, g, l) || n in Subtree(nodes, g, r)
    {
      BelowChild(nodes, g, root, a, n);
    }
  }

  /** Where every node below `a` agrees with its children, `a` holds the size of its subtree. */
  lemma {:induction false} CountIsSize(nodes: set<Node>, g: Shot, root: Node, a: Node?)
    requires Shape(nodes, g, root) && (a == null || a in nodes)
    requires forall n :: n in Subtree(nodes, g, a) ==> CountedAt(nodes, g, n)
    ensures CountOf(g, a) == |Subtree(nodes, g, a)|
    decreases |Subtree(nodes, g, a)|
  {
    if a != null {
      assert ShapeAt(nodes, g, root, a);
      SubtreeSplits(nodes, g, root, a);
      var l, r := Subtree(nodes, g, g.left[a]), Subtree(nodes, g, g.right[a]);
      assert |Subtree(nodes, g, a)| == 1 + |l| + |r|;
      CountIsSize(nodes, g, root, g.left[a]);
      CountIsSize(nodes, g, root, g.right[a]);
      assert Up(g, a, 0) == a;
      assert CountedAt(nodes, g, a);
    }
  }

  // ---------- Repairing the counts ----------

  ghost function Recounted(g: Shot, p: Node, count: Int32): Shot {
    g.(count := g.count[p := count])
  }

  lemma RecountKeepsShape(nodes: set<Node>, g: Shot, root: Node, p: Node, count: Int32)
    requires Shape(nodes, g, root) && p in nodes && 1 <= count
    ensures Shape(nodes, Recounted(g, p, count), root)
  {
    var g' := Recounted(g, p, count);
    forall a | a in nodes
      ensures ShapeAt(nodes, g', root, a)
    {
      assert ShapeAt(nodes, g, root, a);
    }
  }

  /** The parent is the only other node that a new count concerns. */
  lemma RecountMovesUp(nodes: set<Node>, g: Shot, root: Node, p: Node, count: Int32)
    requires Shape(nodes, g, root) && p in nodes && ShapeAt(nodes, g, root, p) && CountedExcept(nodes, g, p)
    requires count as int == 1 + CountOf(g, g.left[p]) + CountOf(g, g.right[p])
    ensures CountedExcept(nodes, Recounted(g, p, count), g.parent[p])
  {
    var g' := Recounted(g, p, count);
    forall a | a in nodes && a != g.parent[p]
      ensures CountedAt(nodes, g', a)
    {
      assert ShapeAt(nodes, g, root, a);
      if a != p {
        assert CountedAt(nodes, g, a);
      }
    }
  }

  /** A subtree without the node `p` is counted when all but `p` are. */
  lemma OtherSubtreeSize(nodes: set<Node>, g: Shot, root: Node, p: Node, c: Node?)
    requires Shape(nodes, g, root) && p in nodes && CountedExcept(nodes, g, p)
    requires (c == null || c in nodes) && p !in Subtree(nodes, g, c)
    ensures CountOf(g, c) == |Subtree(nodes, g, c)|
  {
    forall n | n in Subtree(nodes, g, c)
      ensures CountedAt(nodes, g, n)
    {
    }
    CountIsSize(nodes, g, root, c);
  }

  lemma SubtreeWithin(nodes: set<Node>, g: Shot, a: Node)
    requires Total(nodes, g) && a in nodes
    ensures |Subtree(nodes, g, a)| <= |nodes|
  {
    SubsetSize(Subtree(nodes, g, a), nodes);
  }

  lemma SizeAt(nodes: set<Node>, g: Shot, root: Node, p: Node)
    requires Shape(nodes, g, root) && p in nodes && ShapeAt(nodes, g, root, p) && CountedExcept(nodes, g, p)
    ensures 1 + CountOf(g, g.left[p]) + CountOf(g, g.right[p]) == |Subtree(nodes, g, p)| <= |nodes|
  {
    SubtreeSplits(nodes, g, root, p);
    OtherSubtreeSize(nodes, g, root, p, g.left[p]);
    OtherSubtreeSize(nodes, g, root, p, g.right[p]);
    SubtreeWithin(nodes, g, p);
  }

  /** With all counts repaired the whole tree fits the integers. */
  lemma CountedFits(nodes: set<Node>, g: Shot, root: Node)
    requires Shape(nodes, g, root) && CountedExcept(nodes, g, null)
    ensures |nodes| <= INT_MAX
  {
    RootHasAll(nodes, g, root);
    CountIsSize(nodes, g, root, root);
  }

  ghost predicate SameTree(g: Shot, g': Shot) {
    g'.left == g.left && g'.right == g.right && g'.parent == g.parent && g'.depth == g.depth
  }

  method SubtreeGetCount(node: Node?, ghost nodes: set<Node>, ghost g: Shot) returns (result: Int32)
    requires Shows(nodes, g) && (node == null || node in nodes)
    ensures result as int == CountOf(g, node)
  {
    result := 0;
    if node != null {
      assert Holds(g, node);
      result := node.count;
    }
  }

  /** One ancestor: its new count, or none when it would not fit. */
  method Recount(n: Node, p: Node, count: Int32, ghost nodes: set<Node>, ghost g: Shot, ghost root: Node)
    returns (ok: bool, pcount: Int32)
    requires Shows(nodes, g) && Shape(nodes, g, root) && n in nodes && p in nodes
    requires g.parent[n] == p && g.count[n] == count && ShapeAt(nodes, g, root, p) && ShapeAt(nodes, g, root, n)
    requires 0 <= CountOf(g, g.left[p]) && 0 <= CountOf(g, g.right[p])
    ensures ok <==> 1 + CountOf(g, g.left[p]) + CountOf(g, g.right[p]) <= INT_MAX
    ensures ok ==> pcount as int == 1 + CountOf(g, g.left[p]) + CountOf(g, g.right[p])
  {
    assert Holds(g, p);
    var left, right := p.left, p.right;
    var leftCount: Int32, rightCount: Int32 := 0, 0;
    if n == left {
      leftCount := count;
      rightCount := SubtreeGetCount(right, nodes, g);
    } else {
      leftCount := SubtreeGetCount(left, nodes, g);
      rightCount := count;
    }
    pcount := 0;
    ok := !(2147483647 - 1 - leftCount < rightCount);
    if ok {
      pcount := 1 + leftCount + rightCount;
    }
  }

  lemma ChildCounts(nodes: set<Node>, g: Shot, root: Node, p: Node)
    requires Shape(nodes, g, root) && p in nodes && ShapeAt(nodes, g, root, p)
    ensures 0 <= CountOf(g, g.left[p]) && 0 <= CountOf(g, g.right[p])
  {
    if g.left[p] != null {
      assert ShapeAt(nodes, g, root, g.left[p]);
    }
    if g.right[p] != null {
      assert ShapeAt(nodes, g, root, g.right[p]);
    }
  }

  method SetCount(p: Node, count: Int32, ghost nodes: set<Node>, ghost g: Shot) returns (ghost g': Shot)
    requires Shows(nodes, g) && p in nodes
    modifies p`count
    ensures g' == Recounted(g, p, count) && Shows(nodes, g')
  {
    g' := Recounted(g, p, count);
    p.count := count;
    forall a | a in nodes
      ensures Holds(g', a)
    {
      assert old(Holds(g, a));
    }
  }

  /** All counts are right except, perhaps, that of the parent `p` of `n`. */
  ghost predicate Broken(nodes: set<Node>, g: Shot, root: Node, n: Node, p: Node?) {
    Shape(nodes, g, root) && CountedExcept(nodes, g, p) && n in nodes && g.parent[n] == p
  }

  lemma ClimbsTo(nodes: set<Node>, g: Shot, root: Node, n: Node, p: Node)
    requires Broken(nodes, g, root, n, p)
    ensures p in nodes && ShapeAt(nodes, g, root, n) && ShapeAt(nodes, g, root, p)
    ensures g.depth[p] < g.depth[n] && 0 <= CountOf(g, g.left[p]) && 0 <= CountOf(g, g.right[p])
    ensures 1 + CountOf(g, g.left[p]) + CountOf(g, g.right[p]) <= |nodes|
  {
    assert ShapeAt(nodes, g, root, n);
    assert ShapeAt(nodes, g, root, p);
    ChildCounts(nodes, g, root, p);
    SizeAt(nodes, g, root, p);
  }

  lemma Climbs(nodes: set<Node>, g: Shot, root: Node, n: Node, p: Node, count: Int32)
    requires Broken(nodes, g, root, n, p) && p in nodes && ShapeAt(nodes, g, root, p) && 1 <= count
    requires count as int == 1 + CountOf(g, g.left[p]) + CountOf(g, g.right[p])
    ensures Broken(nodes, Recounted(g, p, count), root, p, g.parent[p])
  {
    RecountKeepsShape(nodes, g, root, p, count);
    RecountMovesUp(nodes, g, root, p, count);
  }

  /** Everything is in order. */
  ghost predicate Sized(nodes: set<Node>, g: Shot, root: Node) {
    Shape(nodes, g, root) && CountedExcept(nodes, g, null)
  }

  /**
   * Recomputes the counts from the parent `p` of `n` up to the root. It gives
   * up exactly when the tree has more nodes than an `int` can count.
   */
  method FixupAncestors(n: Node, p: Node?, count: Int32, ghost nodes: set<Node>, ghost g: Shot, ghost root: Node)
    returns (ok: bool, ghost g': Shot)
    requires Shows(nodes, g) && Broken(nodes, g, root, n, p) && g.count[n] == count
    modifies nodes`count
    ensures ok <==> |nodes| <= INT_MAX
    ensures ok ==> Shows(nodes, g') && Sized(nodes, g', root) && SameTree(g, g')
    decreases g.depth[n]
  {
    g' := g;
    if p == null {
      ok := true;
      CountedFits(nodes, g, root);
    } else {
      ClimbsTo(nodes, g, root, n, p);
      assert Holds(g, p);
      var grandparent := p.parent;
      var pcount: Int32;
      ok, pcount := Recount(n, p, count, nodes, g, root);
      if ok {
        Climbs(nodes, g, root, n, p, pcount);
        g' := SetCount(p, pcount, nodes, g);
        ok, g' := FixupAncestors(p, grandparent, pcount, nodes, g', root);
      }
    }
  }

  /** In a tree that is in order every node holds the number of nodes of its subtree. */
  lemma SizedCounts(nodes: set<Node>, g: Shot, root: Node, n: Node)
    requires Sized(nodes, g, root) && n in nodes
    ensures g.count[n] as int == |Subtree(nodes, g, n)|
  {
    CountIsSize(nodes, g, root, n);
  }

  // ---------- Adding nodes ----------

  /** A new leaf `n` that knows its parent. */
  ghost function Sprouted(g: Shot, node: Node, n: Node): Shot
    requires node in g.depth
  {
    Shot(g.left[n := null], g.right[n := null], g.parent[n := node], g.count[n := 1],
         g.depth[n := g.depth[node] + 1])
  }

  ghost function LinkedTo(g: Shot, node: Node, n: Node, onLeft: bool): Shot {
    if onLeft then g.(left := g.left[node := n]) else g.(right := g.right[node := n])
  }

  ghost function Grown(g: Shot, node: Node, n: Node, onLeft: bool): Shot
    requires node in g.depth
  {
    LinkedTo(Sprouted(g, node, n), node, n, onLeft)
  }

  lemma SproutedTotal(nodes: set<Node>, g: Shot, node: Node, n: Node)
    requires Total(nodes, g) && node in nodes
    ensures Total(nodes + {n}, Sprouted(g, node, n))
  {
  }

  lemma GrownTotal(nodes: set<Node>, g: Shot, node: Node, n: Node, onLeft: bool)
    requires Total(nodes, g) && node in nodes
    ensures Total(nodes + {n}, Grown(g, node, n, onLeft))
  {
    SproutedTotal(nodes, g, node, n);
    var g' := Sprouted(g, node, n);
    assert g'.left[node := n].Keys == nodes + {n} && g'.right[node := n].Keys == nodes + {n};
  }

  /** What a shot in which only `node` got a child says about a node that was there before. */
  ghost predicate Keeps(nodes: set<Node>, g: Shot, g': Shot, node: Node, n: Node, a: Node)
    requires Total(nodes, g) && Total(nodes + {n}, g') && a in nodes
  {
    && g'.parent[a] == g.parent[a] && g'.depth[a] == g.depth[a] && g'.count[a] == g.count[a]
    && (g'.left[a] == g.left[a] || (a == node && g.left[a] == null && g'.left[a] == n && g'.right[a] == g.right[a]))
    && (g'.right[a] == g.right[a] || (a == node && g.right[a] == null && g'.right[a] == n && g'.left[a] == g.left[a]))
  }

  lemma GrownKeeps(nodes: set<Node>, g: Shot, node: Node, n: Node, onLeft: bool, a: Node)
    requires Total(nodes, g) && node in nodes && n !in nodes && a in nodes
    requires (if onLeft then g.left[node] else g.right[node]) == null
    requires Total(nodes + {n}, Grown(g, node, n, onLeft))
    ensures Keeps(nodes, g, Grown(g, node, n, onLeft), node, n, a)
  {
  }

  lemma KeepsShape(nodes: set<Node>, g: Shot, g': Shot, root: Node, node: Node, n: Node, a: Node)
    requires Total(nodes, g) && Total(nodes + {n}, g') && n !in nodes && a in nodes && ShapeAt(nodes, g, root, a)
    requires forall b :: b in nodes ==> Keeps(nodes, g, g', node, n, b)
    requires g'.parent[n] == node && node in nodes && g'.depth[n] == g.depth[node] + 1
    ensures ShapeAt(nodes + {n}, g', root, a)
  {
    var p := g.parent[a];
    assert Keeps(nodes, g, g', node, n, a);
    if p != null {
      assert Keeps(nodes, g, g', node, n, p);
    }
    assert ParentOk(nodes + {n}, g', root, a, p);
  }

  lemma GrownShape(nodes: set<Node>, g: Shot, root: Node, node: Node, n: Node, onLeft: bool)
    requires Shape(nodes, g, root) && node in nodes && n !in nodes
    requires (if onLeft then g.left[node] else g.right[node]) == null
    ensures Shape(nodes + {n}, Grown(g, node, n, onLeft), root)
  {
    var nodes', g' := nodes + {n}, Grown(g, node, n, onLeft);
    GrownTotal(nodes, g, node, n, onLeft);
    forall a | a in nodes
      ensures Keeps(nodes, g, g', node, n, a)
    {
      GrownKeeps(nodes, g, node, n, onLeft, a);
    }
    forall a | a in nodes'
      ensures ShapeAt(nodes', g', root, a)
    {
      if a in nodes {
        assert ShapeAt(nodes, g, root, a);
        KeepsShape(nodes, g, g', root, node, n, a);
      }
    }
  }

  lemma KeepsCount(nodes: set<Node>, g: Shot, g': Shot, node: Node, n: Node, a: Node)
    requires Total(nodes, g) && Total(nodes + {n}, g') && a in nodes && a != node && CountedAt(nodes, g, a)
    requires forall b :: b in nodes ==> Keeps(nodes, g, g', node, n, b)
    ensures CountedAt(nodes + {n}, g', a)
  {
    assert Keeps(nodes, g, g', node, n, a);
    if g.left[a] != null {
      assert Keeps(nodes, g, g', node, n, g.left[a]);
    }
    if g.right[a] != null {
      assert Keeps(nodes, g, g', node, n, g.right[a]);
    }
  }

  lemma GrownCounts(nodes: set<Node>, g: Shot, root: Node, node: Node, n: Node, onLeft: bool)
    requires Sized(nodes, g, root) && node in nodes && n !in nodes
    requires (if onLeft then g.left[node] else g.right[node]) == null
    ensures Total(nodes + {n}, Grown(g, node, n, onLeft))
    ensures CountedExcept(nodes + {n}, Grown(g, node, n, onLeft), node)
  {
    var nodes', g' := nodes + {n}, Grown(g, node, n, onLeft);
    GrownTotal(nodes, g, node, n, onLeft);
    forall a | a in nodes
      ensures Keeps(nodes, g, g', node, n, a)
    {
      GrownKeeps(nodes, g, node, n, onLeft, a);
    }
    forall a | a in nodes' && a != node
      ensures CountedAt(nodes', g', a)
    {
      if a in nodes {
        assert CountedAt(nodes, g, a);
        KeepsCount(nodes, g, g', node, n, a);
      }
    }
  }

  method CreateTree() returns (root: Node, ghost g: Shot)
    ensures fresh(root) && Shows({root}, g) && Sized({root}, g, root)
  {
    root := new Node(null);
    g := Shot(map[root := null], map[root := null], map[root := null], map[root := 1], map[root := 0]);
    assert ShapeAt({root}, g, root, root) && CountedAt({root}, g, root);
  }

  /** `create_node`. */
  method CreateNode(p: Node, ghost nodes: set<Node>, ghost g: Shot) returns (n: Node, ghost g': Shot)
    requires Shows(nodes, g) && p in nodes
    ensures fresh(n) && g' == Sprouted(g, p, n) && Shows(nodes + {n}, g')
  {
    n := new Node(p);
    g' := Sprouted(g, p, n);
    forall a | a in nodes + {n}
      ensures Holds(g', a)
    {
      if a != n {
        assert old(Holds(g, a));
      }
    }
  }

  method SetChild(node: Node, n: Node, onLeft: bool, ghost nodes: set<Node>, ghost g: Shot) returns (ghost g': Shot)
    requires Shows(nodes, g) && node in nodes
    modifies node
    ensures g' == LinkedTo(g, node, n, onLeft) && Shows(nodes, g')
  {
    g' := LinkedTo(g, node, n, onLeft);
    if onLeft {
      node.left := n;
    } else {
      node.right := n;
    }
    forall a | a in nodes
      ensures Holds(g', a)
    {
      assert old(Holds(g, a));
    }
  }

  /**
   * Adds a left child to a node without one. Unless the tree outgrows the
   * integers, the tree is in order again, with the new leaf in its place and
   * all other links as they were.
   */
  method TreeAddLeft(node: Node, ghost nodes: set<Node>, ghost g: Shot, ghost root: Node)
    returns (ok: bool, n: Node, ghost g': Shot)
    requires Shows(nodes, g) && Sized(nodes, g, root) && node in nodes && node.left == null
    modifies nodes
    ensures fresh(n) && (ok <==> |nodes| + 1 <= INT_MAX)
    ensures ok ==> Shows(nodes + {n}, g') && Sized(nodes + {n}, g', root)
    ensures ok ==> SameTree(Grown(g, node, n, true), g')
  {
    assert Holds(g, node);
    n, g' := CreateNode(node, nodes, g);
    g' := SetChild(node, n, true, nodes + {n}, g');
    GrownShape(nodes, g, root, node, n, true);
    GrownCounts(nodes, g, root, node, n, true);
    ok, g' := FixupAncestors(n, node, 1, nodes + {n}, g', root);
  }

  /** The mirror image. */
  method TreeAddRight(node: Node, ghost nodes: set<Node>, ghost g: Shot, ghost root: Node)
    returns (ok: bool, n: Node, ghost g': Shot)
    requires Shows(nodes, g) && Sized(nodes, g, root) && node in nodes && node.right == null
    modifies nodes
    ensures fresh(n) && (ok <==> |nodes| + 1 <= INT_MAX)
    ensures ok ==> Shows(nodes + {n}, g') && Sized(nodes + {n}, g', root)
    ensures ok ==> SameTree(Grown(g, node, n, false), g')
  {
    assert Holds(g, node);
    n, g' := CreateNode(node, nodes, g);
    g' := SetChild(node, n, false, nodes + {n}, g');
    GrownShape(nodes, g, root, node, n, false);
    GrownCounts(nodes, g, root, node, n, false);
    ok, g' := FixupAncestors(n, node, 1, nodes + {n}, g', root);
  }
}
