/** The binary search tree with parent links: nodes, the invariant stated node by node, and searching. */
module BsTree {
  const SIZE_MAX: int := 0xffff_ffff_ffff_ffff

  type Size = x: int | 0 <= x <= SIZE_MAX

  class BstNode {
    var left: BstNode?
    var right: BstNode?
    var parent: BstNode?
    var key: Size

    // alloc_bst_node gives zeroed memory.
    constructor (key: Size)
      ensures left == null && right == null && parent == null && this.key == key
    {
      left, right, parent := null, null, null;
      this.key := key;
    }
  }

  class BstRoot {
    var node: BstNode?

    constructor ()
      ensures node == null
    {
      node := null;
    }
  }

  /** What the proofs know about one node: its fields and the open range of keys that its subtree may hold. */
  datatype Bs = Bs(left: BstNode?, right: BstNode?, parent: BstNode?, key: int, lo: int, hi: int)

  type Bsm = map<BstNode, Bs>

  // Naming a node makes the verifier look at it.
  ghost predicate Look(n: BstNode) {
    true
  }

  ghost predicate Same(n: BstNode, v: Bs)
    reads n
  {
    n.left == v.left && n.right == v.right && n.parent == v.parent && n.key == v.key
  }

  ghost predicate Mirrored(m: Bsm)
    reads m.Keys
  {
    forall n: BstNode {:trigger Look(n)} :: Look(n) && n in m ==> Same(n, m[n])
  }

  ghost predicate LeftOk(m: Bsm, n: BstNode)
    requires n in m
  {
    var v := m[n];
    v.left != null ==> v.left in m && m[v.left].lo == v.lo && m[v.left].hi == v.key && m[v.left].parent == n
  }

  ghost predicate RightOk(m: Bsm, n: BstNode)
    requires n in m
  {
    var v := m[n];
    v.right != null ==> v.right in m && m[v.right].lo == v.key && m[v.right].hi == v.hi && m[v.right].parent == n
  }

  ghost predicate UpOk(m: Bsm, n: BstNode)
    requires n in m
  {
    m[n].parent != null && m[n].parent in m && (m[m[n].parent].left == n || m[m[n].parent].right == n)
  }

  ghost predicate NodeOk(m: Bsm, root: BstNode, n: BstNode)
    requires n in m
  {
    -1 <= m[n].lo < m[n].key < m[n].hi <= SIZE_MAX + 1 && LeftOk(m, n) && RightOk(m, n) && (n != root ==> UpOk(m, n))
  }

  ghost predicate RootOk(m: Bsm, root: BstNode) {
    root in m && m[root].parent == null && m[root].lo == -1 && m[root].hi == SIZE_MAX + 1
  }

  /** A search tree whose child and parent links agree. */
  ghost predicate TreeOk(m: Bsm, root: BstNode) {
    RootOk(m, root) && forall n {:trigger NodeOk(m, root, n)} :: n in m ==> NodeOk(m, root, n)
  }

  /** A tree that may be empty. */
  ghost predicate Bst(m: Bsm, root: BstNode?) {
    if root == null then m == map[] else TreeOk(m, root)
  }

  ghost function KeysOf(m: Bsm): set<int> {
    set n | n in m :: m[n].key
  }

  // ---------- Searching ----------

  // The node that a search for the key below `n` arrives at.
  ghost function Find(m: Bsm, root: BstNode, n: BstNode?, key: int): (r: BstNode?)
    requires TreeOk(m, root) && (n != null ==> n in m)
    ensures r != null ==> r in m && m[r].key == key
    decreases if n == null then 0 else m[n].hi - m[n].lo
  {
    if n == null then null
    else
      assert NodeOk(m, root, n);
      assert m[n].left != null ==> NodeOk(m, root, m[n].left);
      assert m[n].right != null ==> NodeOk(m, root, m[n].right);
      if key == m[n].key then n
      else if key > m[n].key then Find(m, root, m[n].right, key)
      else Find(m, root, m[n].left, key)
  }

  // A search that starts where the key may be ends like the search from the root.
  lemma {:induction false} FindFrom(m: Bsm, root: BstNode, n: BstNode, key: int)
    requires TreeOk(m, root) && n in m && m[n].lo < key < m[n].hi
    ensures Find(m, root, root, key) == Find(m, root, n, key)
    decreases SIZE_MAX + 2 - (m[n].hi - m[n].lo)
  {
    assert NodeOk(m, root, n);
    if n != root {
      assert NodeOk(m, root, m[n].parent);
      FindFrom(m, root, m[n].parent, key);
    }
  }

  // Searching from the root finds exactly the keys that are there.
  lemma FindExact(m: Bsm, root: BstNode, key: int)
    requires TreeOk(m, root)
    ensures Find(m, root, root, key) != null <==> key in KeysOf(m)
  {
    if key in KeysOf(m) {
      var x: BstNode :| x in m && m[x].key == key;
      assert NodeOk(m, root, x);
      FindFrom(m, root, x, key);
    }
  }

  // No two nodes hold one key.
  lemma OneNode(m: Bsm, root: BstNode, x: BstNode, y: BstNode)
    requires TreeOk(m, root) && x in m && y in m && m[x].key == m[y].key
    ensures x == y
  {
    assert NodeOk(m, root, x) && NodeOk(m, root, y);
    FindFrom(m, root, x, m[x].key);
    FindFrom(m, root, y, m[y].key);
  }

  /** bst_lookup finds the node with the key exactly if there is one. */
  method BstLookup(root: BstNode?, key: Size, ghost m: Bsm) returns (r: BstNode?)
    requires Mirrored(m) && Bst(m, root)
    ensures r != null <==> key in KeysOf(m)
    ensures r != null ==> r in m && r.key == key && m[r].key == key
  {
    r := root;
    if root != null { FindExact(m, root, key); }
    while r != null
      invariant r != null ==> r in m && root != null
      invariant root != null ==> Find(m, root, root, key) == Find(m, root, r, key)
      decreases if r == null then 0 else m[r].hi - m[r].lo
    {
      assert Look(r) && NodeOk(m, root, r);
      assert r.left != null ==> NodeOk(m, root, r.left);
      assert r.right != null ==> NodeOk(m, root, r.right);
      if key == r.key {
        return;
      }
      if key > r.key {
        r := r.right;
      } else {
        r := r.left;
      }
    }
  }

  // ---------- The least node ----------

  ghost function Least(m: Bsm, root: BstNode, n: BstNode): (r: BstNode)
    requires TreeOk(m, root) && n in m
    ensures r in m && m[r].left == null && m[r].lo == m[n].lo && (if r == n then true else m[r].key < m[n].key && m[r].hi <= m[n].key)
    decreases m[n].hi - m[n].lo
  {
    assert NodeOk(m, root, n);
    assert m[n].left != null ==> NodeOk(m, root, m[n].left);
    if m[n].left == null then n else Least(m, root, m[n].left)
  }

  // The subtrees that begin just above the key of `v` are those on the way from its right child to the least node there.
  lemma {:induction false} LeastRight(m: Bsm, root: BstNode, v: BstNode, x: BstNode)
    requires TreeOk(m, root) && v in m && x in m && m[x].lo == m[v].key
    ensures m[v].right != null && m[v].right in m && Least(m, root, x) == Least(m, root, m[v].right)
    decreases SIZE_MAX + 2 - (m[x].hi - m[x].lo)
  {
    assert NodeOk(m, root, x) && NodeOk(m, root, v);
    var u := m[x].parent;
    assert NodeOk(m, root, u);
    if m[u].left == x {
      LeastRight(m, root, v, u);
    } else {
      OneNode(m, root, u, v);
    }
  }

  // Only what is stored is mirrored; ranges can be restated at any time.
  ghost predicate SameStored(m: Bsm, m': Bsm) {
    && m'.Keys <= m.Keys
    && forall n {:trigger m'[n]} :: n in m' ==> m'[n] == m[n].(lo := m'[n].lo, hi := m'[n].hi)
  }

  lemma MirroredVia(m: Bsm, m': Bsm)
    requires Mirrored(m) && SameStored(m, m')
    ensures Mirrored(m')
  {
    assert forall n: BstNode :: n in m' ==> Look(n) && m'[n] == m[n].(lo := m'[n].lo, hi := m'[n].hi);
  }

  // ---------- Stores ----------

  method SetLeft(n: BstNode, x: BstNode?, ghost m: Bsm) returns (ghost m': Bsm)
    requires Mirrored(m) && n in m
    modifies n
    ensures m' == m[n := m[n].(left := x)] && Mirrored(m')
  {
    assert Look(n);
    n.left := x;
    m' := m[n := m[n].(left := x)];
  }

  method SetRight(n: BstNode, x: BstNode?, ghost m: Bsm) returns (ghost m': Bsm)
    requires Mirrored(m) && n in m
    modifies n
    ensures m' == m[n := m[n].(right := x)] && Mirrored(m')
  {
    assert Look(n);
    n.right := x;
    m' := m[n := m[n].(right := x)];
  }

  method SetParent(n: BstNode, x: BstNode?, ghost m: Bsm) returns (ghost m': Bsm)
    requires Mirrored(m) && n in m
    modifies n
    ensures m' == m[n := m[n].(parent := x)] && Mirrored(m')
  {
    assert Look(n);
    n.parent := x;
    m' := m[n := m[n].(parent := x)];
  }
}
