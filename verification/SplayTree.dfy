/** The splay tree with subtree maxima: nodes, and the invariant stated node by node. */
module SplayTree {
  import opened Words

  class SplayNode {
    var left: SplayNode?
    var right: SplayNode?
    var parent: SplayNode?
    var val: int
    var size: int
    var maxSize: int

    constructor (val: int, size: int)
      ensures left == null && right == null && parent == null
      ensures this.val == val && this.size == size && maxSize == 0
    {
      left, right, parent := null, null, null;
      this.val, this.size, maxSize := val, size, 0;
    }
  }

  /** What the proofs know about one node: its fields, its position in the order of keys, and the
      half-open range [lo, hi) of positions that its subtree takes up. */
  datatype Sn = Sn(left: SplayNode?, right: SplayNode?, parent: SplayNode?, val: int, size: int, max: int,
                   lo: int, pos: int, hi: int)

  type Sm = map<SplayNode, Sn>

  // Naming a node makes the verifier look at it.
  ghost predicate Look(n: SplayNode) {
    true
  }

  ghost predicate Same(n: SplayNode, v: Sn)
    reads n
  {
    && n.left == v.left && n.right == v.right && n.parent == v.parent
    && n.val == v.val && n.size == v.size && n.maxSize == v.max
  }

  ghost predicate Mirrored(m: Sm)
    reads m.Keys
  {
    forall n: SplayNode {:trigger Look(n)} :: Look(n) && n in m ==> Same(n, m[n])
  }

  function Max(a: int, b: int): int {
    if a > b then a else b
  }

  ghost function MaxAt(m: Sm, x: SplayNode?): int {
    if x != null && x in m then m[x].max else 0
  }

  // compute_subtree_max_size
  ghost function Computed(m: Sm, n: SplayNode): int
    requires n in m
  {
    Max(Max(m[n].size, MaxAt(m, m[n].left)), MaxAt(m, m[n].right))
  }

  ghost predicate LeftOk(m: Sm, n: SplayNode)
    requires n in m
  {
    var v := m[n];
    && (v.left == null <==> v.lo == v.pos)
    && (v.left != null ==> v.left in m && m[v.left].lo == v.lo && m[v.left].hi == v.pos && m[v.left].parent == n)
  }

  ghost predicate RightOk(m: Sm, n: SplayNode)
    requires n in m
  {
    var v := m[n];
    && (v.right == null <==> v.pos + 1 == v.hi)
    && (v.right != null ==> v.right in m && m[v.right].lo == v.pos + 1 && m[v.right].hi == v.hi && m[v.right].parent == n)
  }

  ghost predicate UpOk(m: Sm, n: SplayNode)
    requires n in m
  {
    m[n].parent != null && m[n].parent in m && (m[m[n].parent].left == n || m[m[n].parent].right == n)
  }

  // The links of a node, leaving aside its maximum.
  ghost predicate LinksOk(m: Sm, size: int, n: SplayNode)
    requires n in m
  {
    0 <= m[n].lo <= m[n].pos < m[n].hi <= size && m[n].size >= 0 && LeftOk(m, n) && RightOk(m, n)
  }

  ghost predicate ShapeOk(m: Sm, root: SplayNode, size: int, n: SplayNode)
    requires n in m
  {
    LinksOk(m, size, n) && (n != root ==> UpOk(m, n))
  }

  ghost predicate NodeOk(m: Sm, root: SplayNode, size: int, n: SplayNode)
    requires n in m
  {
    ShapeOk(m, root, size, n) && m[n].max == Computed(m, n)
  }

  // Positions are the order of keys, and no two nodes share one.
  ghost predicate Ordered(m: Sm, a: SplayNode, b: SplayNode)
    requires a in m && b in m
  {
    a != b ==> m[a].pos != m[b].pos && (m[a].pos < m[b].pos <==> m[a].val < m[b].val)
  }

  ghost predicate Order(m: Sm) {
    forall a, b {:trigger Ordered(m, a, b)} :: a in m && b in m ==> Ordered(m, a, b)
  }

  /** A tree of `size` nodes: child and parent links agree, keys are in order, maxima are exact. It may
      hang below a node outside. */
  ghost predicate Hung(m: Sm, root: SplayNode, size: int) {
    && root in m && m[root].lo == 0 && m[root].hi == size && (m[root].parent == null || m[root].parent !in m)
    && (forall n {:trigger NodeOk(m, root, size, n)} :: n in m ==> NodeOk(m, root, size, n))
    && Order(m)
  }

  /** A splay tree. */
  ghost predicate TreeOk(m: Sm, root: SplayNode, size: int) {
    Hung(m, root, size) && m[root].parent == null
  }

  // The nodes below `n` in order.
  ghost function InOrder(m: Sm, root: SplayNode, size: int, n: SplayNode?): seq<SplayNode>
    requires TreeOk(m, root, size) && (n != null ==> n in m)
    decreases if n == null then 0 else m[n].hi - m[n].lo
  {
    if n == null then []
    else
      assert NodeOk(m, root, size, n);
      assert m[n].left != null ==> NodeOk(m, root, size, m[n].left);
      assert m[n].right != null ==> NodeOk(m, root, size, m[n].right);
      InOrder(m, root, size, m[n].left) + [n] + InOrder(m, root, size, m[n].right)
  }

  // The traversal meets the nodes at their positions.
  lemma {:induction false} InOrderPositions(m: Sm, root: SplayNode, size: int, n: SplayNode)
    requires TreeOk(m, root, size) && n in m
    ensures var s := InOrder(m, root, size, n);
      |s| == m[n].hi - m[n].lo && forall i :: 0 <= i < |s| ==> s[i] in m && m[s[i]].pos == m[n].lo + i
    decreases m[n].hi - m[n].lo
  {
    assert NodeOk(m, root, size, n);
    if m[n].left != null {
      assert NodeOk(m, root, size, m[n].left);
      InOrderPositions(m, root, size, m[n].left);
    }
    if m[n].right != null {
      assert NodeOk(m, root, size, m[n].right);
      InOrderPositions(m, root, size, m[n].right);
    }
  }

  // The same nodes with the same positions, keys and sizes.
  ghost predicate SameNodes(m: Sm, m': Sm) {
    && m'.Keys == m.Keys
    && forall n {:trigger m'[n]} :: n in m ==> m'[n].pos == m[n].pos && m'[n].val == m[n].val && m'[n].size == m[n].size
  }

  // Two trees over the same positions have the same traversal, and it meets every node.
  lemma SameTraversal(m: Sm, root: SplayNode, m': Sm, root': SplayNode, size: int)
    requires TreeOk(m, root, size) && TreeOk(m', root', size) && SameNodes(m, m')
    ensures InOrder(m, root, size, root) == InOrder(m', root', size, root')
    ensures forall n :: n in m ==> n in InOrder(m, root, size, root)
  {
    InOrderPositions(m, root, size, root);
    InOrderPositions(m', root', size, root');
    var s, s' := InOrder(m, root, size, root), InOrder(m', root', size, root');
    forall i | 0 <= i < |s|
      ensures s[i] == s'[i]
    {
      assert Ordered(m, s[i], s'[i]);
    }
    forall n | n in m
      ensures n in s
    {
      assert NodeOk(m, root, size, n);
      assert Ordered(m, n, s[m[n].pos]);
    }
  }

  // The traversal is sorted by key.
  lemma TraversalSorted(m: Sm, root: SplayNode, size: int)
    requires TreeOk(m, root, size)
    ensures var s := InOrder(m, root, size, root);
      |s| == size && forall i, j :: 0 <= i < j < |s| ==> s[i] in m && s[j] in m && m[s[i]].val < m[s[j]].val
  {
    InOrderPositions(m, root, size, root);
    var s := InOrder(m, root, size, root);
    forall i, j | 0 <= i < j < |s|
      ensures s[i] in m && s[j] in m && m[s[i]].val < m[s[j]].val
    {
      assert Ordered(m, s[i], s[j]);
    }
  }

  // The maximum recorded at a node is the largest size below it.
  lemma {:induction false} MaxExact(m: Sm, root: SplayNode, size: int, n: SplayNode)
    requires TreeOk(m, root, size) && n in m
    ensures forall x :: x in InOrder(m, root, size, n) ==> x in m && m[x].size <= m[n].max
    ensures exists x :: x in InOrder(m, root, size, n) && x in m && m[x].size == m[n].max
    decreases m[n].hi - m[n].lo
  {
    assert NodeOk(m, root, size, n);
    var l, r := m[n].left, m[n].right;
    assert n in InOrder(m, root, size, n);
    if l != null {
      assert NodeOk(m, root, size, l);
      MaxExact(m, root, size, l);
      var x :| x in InOrder(m, root, size, l) && x in m && m[x].size == m[l].max;
      assert x in InOrder(m, root, size, n);
    }
    if r != null {
      assert NodeOk(m, root, size, r);
      MaxExact(m, root, size, r);
      var x :| x in InOrder(m, root, size, r) && x in m && m[x].size == m[r].max;
      assert x in InOrder(m, root, size, n);
    }
  }
}
