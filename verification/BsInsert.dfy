/** Insertion into the binary search tree. */
module BsInsert {
  import opened BsTree

  // The new leaf below `r`.
  ghost function LeafAt(m: Bsm, r: BstNode, key: int): Bs
    requires r in m
  {
    Bs(null, null, r, key, if key > m[r].key then m[r].key else m[r].lo, if key > m[r].key then m[r].hi else m[r].key)
  }

  ghost function Attached(m: Bsm, r: BstNode, n: BstNode, key: int): Bsm
    requires r in m && r != n
  {
    m[n := LeafAt(m, r, key)][r := if key > m[r].key then m[r].(right := n) else m[r].(left := n)]
  }

  // The node that may take the key as its child.
  ghost predicate Opening(m: Bsm, r: BstNode, key: int) {
    r in m && m[r].lo < key < m[r].hi && key != m[r].key && (if key > m[r].key then m[r].right else m[r].left) == null
  }

  lemma AttachedOk(m: Bsm, root: BstNode, r: BstNode, n: BstNode, key: int)
    requires TreeOk(m, root) && Opening(m, r, key) && n !in m
    ensures TreeOk(Attached(m, r, n, key), root)
  {
    var m' := Attached(m, r, n, key);
    assert NodeOk(m, root, r);
    forall x | x in m'
      ensures NodeOk(m', root, x)
    {
      if x != n { assert NodeOk(m, root, x); }
    }
  }

  lemma AttachedKeys(m: Bsm, r: BstNode, n: BstNode, key: int)
    requires r in m && n !in m
    ensures KeysOf(Attached(m, r, n, key)) == KeysOf(m) + {key} && Attached(m, r, n, key).Keys == m.Keys + {n}
  {
    var m' := Attached(m, r, n, key);
    forall k
      ensures k in KeysOf(m) + {key} <==> k in KeysOf(m')
    {
      if k in KeysOf(m) {
        var x: BstNode :| x in m && m[x].key == k;
        assert m'[x].key == k;
      }
      if k == key { assert m'[n].key == k; }
      if k in KeysOf(m') {
        var x: BstNode :| x in m' && m'[x].key == k;
        assert x == n || m[x].key == k;
      }
    }
  }

  // The search for a place has come to `r`.
  ghost predicate Searching(m: Bsm, root: BstNode, r: BstNode, key: int) {
    TreeOk(m, root) && r in m && m[r].lo < key < m[r].hi && Find(m, root, root, key) == Find(m, root, r, key)
  }

  lemma SearchStep(m: Bsm, root: BstNode, r: BstNode, key: int)
    requires Searching(m, root, r, key)
    ensures key == m[r].key ==> key in KeysOf(m)
    ensures var c := if key > m[r].key then m[r].right else m[r].left;
      key != m[r].key ==>
        if c == null then key !in KeysOf(m) && Opening(m, r, key)
        else c in m && 0 < m[c].hi - m[c].lo < m[r].hi - m[r].lo && Searching(m, root, c, key)
  {
    assert NodeOk(m, root, r);
    if m[r].left != null { assert NodeOk(m, root, m[r].left); }
    if m[r].right != null { assert NodeOk(m, root, m[r].right); }
    FindExact(m, root, key);
    var c := if key > m[r].key then m[r].right else m[r].left;
    assert key != m[r].key ==> Find(m, root, r, key) == Find(m, root, c, key);
  }

  // The stores at the end of the search.
  method Attach(r: BstNode, n: BstNode, ghost m: Bsm) returns (ghost m': Bsm)
    requires Mirrored(m) && r in m && n !in m && n.left == null && n.right == null
    modifies r, n
    ensures n.key == old(n.key) && m' == Attached(m, r, n, n.key) && Mirrored(m')
  {
    assert Look(r);
    if n.key > r.key {
      r.right := n;
    } else {
      r.left := n;
    }
    n.parent := r;
    m' := Attached(m, r, n, n.key);
  }

  /** bst_insert: the new node becomes a leaf of the one node that has an opening for its key; a key that is
      there already changes nothing, not even the rejected node. */
  method BstInsert(t: BstRoot, n: BstNode?, ghost m: Bsm) returns (rv: int, ghost m': Bsm)
    requires Mirrored(m) && Bst(m, t.node) && (n != null ==> n !in m && n.left == null && n.right == null)
    modifies t, m.Keys, if n == null then {} else {n}
    ensures Mirrored(m') && Bst(m', t.node)
    ensures rv == (if n == null || n.key in KeysOf(m) then 0 else 1)
    ensures rv == 0 ==> m' == m && t.node == old(t.node)
    ensures rv == 0 && n != null ==>
      n.key == old(n.key) && n.left == old(n.left) && n.right == old(n.right) && n.parent == old(n.parent)
    ensures rv == 1 ==> n.key == old(n.key) && KeysOf(m') == KeysOf(m) + {n.key as int} && m'.Keys == m.Keys + {n}
    ensures rv == 1 ==>
      if old(t.node) == null then t.node == n
      else t.node == old(t.node) && exists r :: r != n && Opening(m, r, n.key) && m' == Attached(m, r, n, n.key)
  {
    rv, m' := 0, m;
    if n == null {
      return;
    }
    if t.node == null {
      t.node := n;
      n.left, n.right, n.parent := null, null, null;
      m' := map[n := Bs(null, null, null, n.key, -1, SIZE_MAX + 1)];
      assert m'[n].key in KeysOf(m');
      return 1, m';
    }
    var head: BstNode := t.node;
    ghost var root := head;
    while true
      invariant Searching(m, root, head, n.key) && m' == m && Mirrored(m) && t.node == root && n.key == old(n.key)
      invariant n.left == null && n.right == null && n.parent == old(n.parent)
      decreases m[head].hi - m[head].lo
    {
      assert Look(head);
      SearchStep(m, root, head, n.key);
      if n.key > head.key {
        if head.right != null {
          head := head.right;
        } else {
          break;
        }
      } else if n.key < head.key {
        if head.left != null {
          head := head.left;
        } else {
          break;
        }
      } else {
        return 0, m';
      }
    }
    SearchStep(m, root, head, n.key);
    AttachedOk(m, root, head, n, n.key);
    AttachedKeys(m, head, n, n.key);
    m' := Attach(head, n, m);
    rv := 1;
  }
}
