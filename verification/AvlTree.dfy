/** The AVL tree: nodes, the invariant stated node by node, and what it implies. Parent links are
    repaired lazily, so the invariant claims only the root's; the true parents are known to the proofs. */
module AvlTree {
  const LONG_MIN: int := -0x8000_0000_0000_0000
  const LONG_MAX: int := 0x7fff_ffff_ffff_ffff

  type Long = x: int | LONG_MIN <= x <= LONG_MAX

  class AvlNode {
    var left: AvlNode?
    var right: AvlNode?
    var parent: AvlNode?
    var key: Long
    var bf: int

    // avl_alloc gives zeroed memory.
    constructor (key: Long)
      ensures left == null && right == null && parent == null && this.key == key && bf == 0
    {
      left, right, parent := null, null, null;
      this.key, bf := key, 0;
    }
  }

  /** What the proofs know about one node: its fields, its true parent, the open range of keys that its
      subtree may hold, and its height. */
  datatype An = An(left: AvlNode?, right: AvlNode?, parent: AvlNode?, key: int, bf: int,
                   up: AvlNode?, lo: int, hi: int, h: int)

  type Am = map<AvlNode, An>

  // Naming a node makes the verifier look at it.
  ghost predicate Look(n: AvlNode) {
    true
  }

  ghost predicate Same(n: AvlNode, v: An)
    reads n
  {
    n.left == v.left && n.right == v.right && n.parent == v.parent && n.key == v.key && n.bf == v.bf
  }

  ghost predicate Mirrored(m: Am)
    reads m.Keys
  {
    forall n: AvlNode {:trigger Look(n)} :: Look(n) && n in m ==> Same(n, m[n])
  }

  // The height of a subtree; that of `grown` is taken one lower.
  ghost function Height(m: Am, x: AvlNode?, grown: AvlNode?): int {
    if x == null || x !in m then 0 else m[x].h - if x == grown then 1 else 0
  }

  ghost function Max(a: int, b: int): int {
    if a > b then a else b
  }

  ghost predicate LeftOk(m: Am, n: AvlNode)
    requires n in m
  {
    var v := m[n];
    v.left != null ==> v.left in m && m[v.left].lo == v.lo && m[v.left].hi == v.key && m[v.left].up == n
  }

  ghost predicate RightOk(m: Am, n: AvlNode)
    requires n in m
  {
    var v := m[n];
    v.right != null ==> v.right in m && m[v.right].lo == v.key && m[v.right].hi == v.hi && m[v.right].up == n
  }

  ghost predicate UpOk(m: Am, n: AvlNode)
    requires n in m
  {
    m[n].up != null && m[n].up in m && (m[m[n].up].left == n || m[m[n].up].right == n)
  }

  ghost predicate ShapeOk(m: Am, root: AvlNode, n: AvlNode)
    requires n in m
  {
    && LONG_MIN - 1 <= m[n].lo < m[n].key < m[n].hi <= LONG_MAX + 1 && m[n].h >= 1
    && LeftOk(m, n) && RightOk(m, n) && (n != root ==> UpOk(m, n))
  }

  // The balance factor is the right height minus the left one.
  ghost predicate Balanced(m: Am, grown: AvlNode?, n: AvlNode)
    requires n in m
  {
    var l, r := Height(m, m[n].left, grown), Height(m, m[n].right, grown);
    m[n].h == 1 + Max(l, r) && m[n].bf == r - l && -1 <= m[n].bf <= 1
  }

  ghost predicate NodeOk(m: Am, root: AvlNode, grown: AvlNode?, n: AvlNode)
    requires n in m
  {
    ShapeOk(m, root, n) && Balanced(m, grown, n)
  }

  ghost predicate RootOk(m: Am, root: AvlNode) {
    root in m && m[root].parent == null && m[root].up == null && m[root].lo == LONG_MIN - 1 && m[root].hi == LONG_MAX + 1
  }

  /** A tree in which the node above `grown` has not yet learned that its child is one higher. */
  ghost predicate TreeBut(m: Am, root: AvlNode, grown: AvlNode?) {
    RootOk(m, root) && forall n {:trigger NodeOk(m, root, grown, n)} :: n in m ==> NodeOk(m, root, grown, n)
  }

  /** An AVL tree. */
  ghost predicate TreeOk(m: Am, root: AvlNode) {
    TreeBut(m, root, null)
  }

  ghost function KeysOf(m: Am): set<int> {
    set n | n in m :: m[n].key
  }

  // ---------- What is below a node ----------

  ghost function Below(m: Am, root: AvlNode, n: AvlNode?): (s: set<int>)
    requires TreeOk(m, root) && (n != null ==> n in m)
    ensures n != null ==> forall k :: k in s ==> m[n].lo < k < m[n].hi
    decreases if n == null then 0 else m[n].h
  {
    if n == null then {}
    else
      assert NodeOk(m, root, null, n);
      assert m[n].left != null ==> NodeOk(m, root, null, m[n].left);
      assert m[n].right != null ==> NodeOk(m, root, null, m[n].right);
      Below(m, root, m[n].left) + {m[n].key} + Below(m, root, m[n].right)
  }

  // What is below a node is below the root.
  lemma {:induction false} BelowRoot(m: Am, root: AvlNode, n: AvlNode)
    requires TreeOk(m, root) && n in m
    ensures Below(m, root, n) <= Below(m, root, root)
    decreases LONG_MAX - LONG_MIN + 2 - (m[n].hi - m[n].lo)
  {
    assert NodeOk(m, root, null, n);
    if n != root {
      assert NodeOk(m, root, null, m[n].up);
      BelowRoot(m, root, m[n].up);
    }
  }

  lemma {:induction false} BelowKeys(m: Am, root: AvlNode, n: AvlNode?)
    requires TreeOk(m, root) && (n != null ==> n in m)
    ensures Below(m, root, n) <= KeysOf(m)
    decreases if n == null then 0 else m[n].h
  {
    if n != null {
      assert NodeOk(m, root, null, n);
      assert m[n].left != null ==> NodeOk(m, root, null, m[n].left);
      assert m[n].right != null ==> NodeOk(m, root, null, m[n].right);
      BelowKeys(m, root, m[n].left);
      BelowKeys(m, root, m[n].right);
      assert m[n].key in KeysOf(m);
    }
  }

  // Every node hangs below the root.
  lemma AllBelow(m: Am, root: AvlNode)
    requires TreeOk(m, root)
    ensures Below(m, root, root) == KeysOf(m)
  {
    BelowKeys(m, root, root);
    forall k | k in KeysOf(m)
      ensures k in Below(m, root, root)
    {
      var n :| n in m && m[n].key == k;
      BelowRoot(m, root, n);
    }
  }

  // ---------- avl_lookup ----------

  /** avl_lookup finds the node with the key exactly if there is one. */
  method AvlLookup(root: AvlNode?, key: Long, ghost m: Am) returns (r: AvlNode?)
    requires Mirrored(m) && (if root == null then m == map[] else TreeOk(m, root))
    ensures r != null <==> key in KeysOf(m)
    ensures r != null ==> r in m && r.key == key
  {
    r := root;
    if root != null { AllBelow(m, root); }
    while r != null
      invariant r != null ==> root != null && r in m && (key in KeysOf(m) <==> key in Below(m, root, r))
      invariant r == null ==> key !in KeysOf(m)
      decreases if r == null then 0 else m[r].h
    {
      assert Look(r) && NodeOk(m, root, null, r);
      assert r.left != null ==> NodeOk(m, root, null, r.left);
      assert r.right != null ==> NodeOk(m, root, null, r.right);
      if key > r.key {
        r := r.right;
      } else if key < r.key {
        r := r.left;
      } else {
        assert m[r].key in KeysOf(m);
        return;
      }
    }
  }

  // ---------- Height and size ----------

  ghost function Fib(n: nat): nat {
    if n < 2 then n else Fib(n - 2) + Fib(n - 1)
  }

  lemma DisjointSize(a: set<int>, k: int, b: set<int>)
    requires forall x :: x in a ==> x < k
    requires forall x :: x in b ==> k < x
    ensures |a + {k} + b| == |a| + 1 + |b|
  {
    assert forall x :: x in a + {k} ==> x <= k;
    assert a !! {k} && (a + {k}) !! b;
  }

  // A subtree of height h holds at least Fib(h + 2) - 1 keys.
  lemma {:induction false} Fibonacci(m: Am, root: AvlNode, n: AvlNode?)
    requires TreeOk(m, root) && (n != null ==> n in m)
    ensures Height(m, n, null) >= 0 && |Below(m, root, n)| + 1 >= Fib(Height(m, n, null) + 2)
    decreases if n == null then 0 else m[n].h
  {
    if n == null {
      assert Fib(2) == Fib(0) + Fib(1);
    } else {
      assert NodeOk(m, root, null, n);
      var l, r := m[n].left, m[n].right;
      assert l != null ==> NodeOk(m, root, null, l);
      assert r != null ==> NodeOk(m, root, null, r);
      Fibonacci(m, root, l);
      Fibonacci(m, root, r);
      DisjointSize(Below(m, root, l), m[n].key, Below(m, root, r));
      var a, b := Height(m, l, null), Height(m, r, null);
      FibRises(a + 2);
      FibRises(b + 2);
      var h := m[n].h;
      assert Fib(h + 2) == Fib(h) + Fib(h + 1);
      assert (a == h - 1 && b == h - 1) || (a == h - 1 && b == h - 2) || (a == h - 2 && b == h - 1);
    }
  }

  lemma {:induction false} FibRises(n: nat)
    ensures Fib(n) <= Fib(n + 1)
  {
    if n >= 1 { assert Fib(n + 1) == Fib(n - 1) + Fib(n); }
  }

  /** The height of an AVL tree is logarithmic in its size: Fib(height + 2) is at most the number of keys plus one. */
  lemma HeightBound(m: Am, root: AvlNode)
    requires TreeOk(m, root)
    ensures m[root].h >= 1 && Fib(m[root].h + 2) <= |KeysOf(m)| + 1
  {
    AllBelow(m, root);
    Fibonacci(m, root, root);
    assert NodeOk(m, root, null, root);
  }
}
