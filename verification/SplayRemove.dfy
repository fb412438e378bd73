/** Removal from a splay tree. */
module SplayRemove {
  import opened SplayTree
  import opened SplayStores
  import opened SplaySplay
  import opened SplayInsert

  // The nodes on one side of the root.
  ghost function LeftPart(m: Sm, p: int): Sm {
    map x | x in m && m[x].pos < p :: m[x]
  }

  ghost function RightPart(m: Sm, p: int): Sm {
    map x | x in m && m[x].pos > p :: m[x]
  }

  // The left subtree is a tree below the root.
  lemma LeftHangs(m: Sm, r: SplayNode, size: int)
    requires TreeOk(m, r, size) && m[r].left != null
    ensures m[r].left in m && m[m[r].left].parent == r && Hung(LeftPart(m, m[r].pos), m[r].left, m[r].pos)
  {
    var p, l := m[r].pos, m[r].left;
    var m' := LeftPart(m, p);
    assert NodeOk(m, r, size, r) && NodeOk(m, r, size, l);
    forall x | x in m'
      ensures NodeOk(m', l, p, x)
    {
      Family(m, r, size, x);
      var q := m[x].parent;
      if q != r { Family(m, r, size, q); }
    }
    forall a, b | a in m' && b in m'
      ensures Ordered(m', a, b)
    {
      assert Ordered(m, a, b);
    }
  }

  lemma AfterIsAbove(m: Sm, root: SplayNode, key: int, b: SplayNode)
    requires Nearest(m, root, key) && b in m && m[b].pos > m[root].pos
    ensures m[b].val > key
  {
    assert Apart(m, root, key, b);
  }

  // All keys of the left subtree are below the root's, so nothing is right of the greatest of them.
  lemma NothingRight(m: Sm, r: SplayNode, size: int, m1: Sm, root: SplayNode)
    requires TreeOk(m, r, size) && SameNodes(LeftPart(m, m[r].pos), m1) && TreeOk(m1, root, m[r].pos)
    requires Nearest(m1, root, m[r].val)
    ensures m1[root].right == null && m1[root].pos + 1 == m[r].pos
  {
    assert NodeOk(m1, root, m[r].pos, root);
    var b := m1[root].right;
    if b != null {
      assert b in LeftPart(m, m[r].pos) && Ordered(m, b, r);
      assert NodeOk(m1, root, m[r].pos, b);
      AfterIsAbove(m1, root, m[r].val, b);
    }
  }

  // The tree without its root: the left subtree after splaying, and the right subtree one position lower.
  ghost function Without(m: Sm, r: SplayNode, m1: Sm, root: SplayNode, size: int): Sm
    requires r in m
  {
    var p, b := m[r].pos, m[r].right;
    map x | x in m1.Keys + RightPart(m, p).Keys ::
      if x == root then
        if x in m1 then m1[x].(right := b, hi := size - 1, max := Max(Max(m1[x].size, MaxAt(m1, m1[x].left)), MaxAt(m, b)))
        else Moved(m[x], -1).(parent := null)
      else if x in m1 then m1[x]
      else if x == b then Moved(m[x], -1).(parent := root)
      else Moved(m[x], -1)
  }

  // What the left subtree has become.
  ghost predicate LeftDone(m: Sm, r: SplayNode, size: int, m1: Sm, root: SplayNode) {
    && TreeOk(m, r, size) && SameNodes(LeftPart(m, m[r].pos), m1) && TreeOk(m1, root, m[r].pos)
    && m1[root].right == null && m1[root].pos + 1 == m[r].pos
  }

  lemma WithoutAt(m: Sm, r: SplayNode, size: int, m1: Sm, root: SplayNode, x: SplayNode)
    requires LeftDone(m, r, size, m1, root) && x in m && x != r
    ensures x in Without(m, r, m1, root, size) && (x in m1 <==> m[x].pos < m[r].pos)
    ensures Without(m, r, m1, root, size)[x] ==
      if x in m1 then
        if x == root then
          m1[x].(right := m[r].right, hi := size - 1, max := Max(Max(m1[x].size, MaxAt(m1, m1[x].left)), MaxAt(m, m[r].right)))
        else m1[x]
      else Moved(m[x], -1).(parent := if x == m[r].right then root else m[x].parent)
  {
    Family(m, r, size, x);
  }

  // A node of the right subtree.
  lemma WithoutRight(m: Sm, r: SplayNode, size: int, m1: Sm, root: SplayNode, x: SplayNode)
    requires LeftDone(m, r, size, m1, root) && x in m && m[x].pos > m[r].pos
    ensures x in RightPart(m, m[r].pos) && NodeOk(Without(m, r, m1, root, size), root, size - 1, x)
  {
    Family(m, r, size, x);
    WithoutAt(m, r, size, m1, root, x);
    var a, b, p := m[x].left, m[x].right, m[x].parent;
    if a != null { WithoutAt(m, r, size, m1, root, a); }
    if b != null { WithoutAt(m, r, size, m1, root, b); }
    if p != r { Family(m, r, size, p); WithoutAt(m, r, size, m1, root, p); }
    WithoutAt(m, r, size, m1, root, root);
  }

  // A node of the left subtree below its root.
  lemma WithoutLeft(m: Sm, r: SplayNode, size: int, m1: Sm, root: SplayNode, x: SplayNode)
    requires LeftDone(m, r, size, m1, root) && x in m1 && x != root
    ensures NodeOk(Without(m, r, m1, root, size), root, size - 1, x)
  {
    assert NodeOk(m, r, size, r);
    Family(m1, root, m[r].pos, x);
  }

  lemma WithoutRoot(m: Sm, r: SplayNode, size: int, m1: Sm, root: SplayNode)
    requires LeftDone(m, r, size, m1, root)
    ensures NodeOk(Without(m, r, m1, root, size), root, size - 1, root)
  {
    assert NodeOk(m, r, size, r) && NodeOk(m1, root, m[r].pos, root);
    assert root in LeftPart(m, m[r].pos);
    WithoutAt(m, r, size, m1, root, root);
    var a, b := m1[root].left, m[r].right;
    if a != null {
      Family(m1, root, m[r].pos, a);
      assert a in LeftPart(m, m[r].pos);
      WithoutAt(m, r, size, m1, root, a);
    }
    if b != null {
      Family(m, r, size, b);
      WithoutAt(m, r, size, m1, root, b);
    }
  }

  lemma WithoutOrder(m: Sm, r: SplayNode, size: int, m1: Sm, root: SplayNode)
    requires LeftDone(m, r, size, m1, root)
    ensures Order(Without(m, r, m1, root, size))
  {
    var m' := Without(m, r, m1, root, size);
    forall a, b | a in m' && b in m'
      ensures Ordered(m', a, b)
    {
      assert a in m && b in m;
      WithoutAt(m, r, size, m1, root, a);
      WithoutAt(m, r, size, m1, root, b);
      assert Ordered(m, a, b) && Ordered(m, a, r) && Ordered(m, b, r);
    }
  }

  lemma WithoutOk(m: Sm, r: SplayNode, size: int, m1: Sm, root: SplayNode)
    requires LeftDone(m, r, size, m1, root)
    ensures TreeOk(Without(m, r, m1, root, size), root, size - 1)
  {
    var m' := Without(m, r, m1, root, size);
    assert root in LeftPart(m, m[r].pos);
    assert NodeOk(m1, root, m[r].pos, root);
    forall x | x in m'
      ensures NodeOk(m', root, size - 1, x)
    {
      if x == root {
        WithoutRoot(m, r, size, m1, root);
      } else if x in m1 {
        WithoutLeft(m, r, size, m1, root, x);
      } else {
        WithoutRight(m, r, size, m1, root, x);
      }
    }
    WithoutOrder(m, r, size, m1, root);
  }

  // ---------- A root without a left child ----------

  lemma LoneAt(m: Sm, r: SplayNode, size: int, root: SplayNode, x: SplayNode)
    requires TreeOk(m, r, size) && m[r].left == null && m[r].right == root && x in m && x != r
    ensures x in RightPart(m, m[r].pos)
    ensures Without(m, r, map[], root, size)[x] == Moved(m[x], -1).(parent := if x == root then null else m[x].parent)
  {
    assert NodeOk(m, r, size, r);
    Family(m, r, size, x);
  }

  // A node of the right subtree when there is no left one.
  lemma LoneNode(m: Sm, r: SplayNode, size: int, root: SplayNode, x: SplayNode)
    requires TreeOk(m, r, size) && m[r].left == null && m[r].right == root && x in m && x != r
    ensures x in RightPart(m, m[r].pos) && NodeOk(Without(m, r, map[], root, size), root, size - 1, x)
  {
    assert NodeOk(m, r, size, r);
    Family(m, r, size, x);
    LoneAt(m, r, size, root, x);
    var a, b, p := m[x].left, m[x].right, m[x].parent;
    if a != null { LoneAt(m, r, size, root, a); }
    if b != null { LoneAt(m, r, size, root, b); }
    if p != r { LoneAt(m, r, size, root, p); }
  }

  lemma LoneOk(m: Sm, r: SplayNode, size: int, root: SplayNode)
    requires TreeOk(m, r, size) && m[r].left == null && m[r].right == root
    ensures root in m && root != r
    ensures TreeOk(Without(m, r, map[], root, size), root, size - 1)
  {
    var m' := Without(m, r, map[], root, size);
    assert NodeOk(m, r, size, r) && NodeOk(m, r, size, root);
    LoneNode(m, r, size, root, root);
    forall x | x in m'
      ensures NodeOk(m', root, size - 1, x)
    {
      LoneNode(m, r, size, root, x);
    }
    forall a, b | a in m' && b in m'
      ensures Ordered(m', a, b)
    {
      assert Ordered(m, a, b);
    }
  }

  // A root without children is the whole tree.
  lemma OnlyRoot(m: Sm, r: SplayNode, size: int)
    requires TreeOk(m, r, size) && m[r].left == null && m[r].right == null
    ensures m.Keys == {r} && size == 1
  {
    assert NodeOk(m, r, size, r);
    forall x | x in m
      ensures x == r
    {
      if x != r { Family(m, r, size, x); }
    }
  }

  // ---------- splay_remove_init ----------

  // All nodes but `x`, with their keys and sizes.
  ghost predicate Dropped(m: Sm, m': Sm, x: SplayNode) {
    && x in m && m'.Keys == m.Keys - {x}
    && forall y {:trigger m'[y]} :: y in m' ==> m'[y].val == m[y].val && m'[y].size == m[y].size
  }

  lemma DroppedKeys(m: Sm, m': Sm, x: SplayNode)
    requires Dropped(m, m', x) && Order(m)
    ensures KeysOf(m') == KeysOf(m) - {m[x].val}
  {
    forall k
      ensures k in KeysOf(m) - {m[x].val} <==> k in KeysOf(m')
    {
      if k in KeysOf(m) - {m[x].val} {
        var y :| y in m && m[y].val == k;
        assert m'[y].val == k;
      }
      if k in KeysOf(m') {
        var y :| y in m' && m'[y].val == k;
        assert m[y].val == k && Ordered(m, y, x) && Ordered(m, x, y);
      }
    }
  }

  lemma WithoutDropped(m: Sm, r: SplayNode, size: int, m1: Sm, root: SplayNode)
    requires LeftDone(m, r, size, m1, root) || (TreeOk(m, r, size) && m1 == map[] && m[r].left == null && m[r].right == root)
    ensures Dropped(m, Without(m, r, m1, root, size), r)
  {
    var m' := Without(m, r, m1, root, size);
    forall y | y in m
      ensures y != r <==> y in m'
      ensures y in m' ==> m'[y].val == m[y].val && m'[y].size == m[y].size
    {
      if y != r {
        if m1 == map[] && m[r].left == null { LoneAt(m, r, size, root, y); } else { WithoutAt(m, r, size, m1, root, y); }
      }
    }
  }

  // The stores that join the two subtrees.
  ghost function JoinStores(m: Sm, root: SplayNode, b: SplayNode?): Sm
    requires root in m
  {
    var m1 := m[root := m[root].(right := b)];
    WithParent(m1, b, root)
  }

  ghost function RootStores(m: Sm, root: SplayNode): Sm
    requires root in m
  {
    var m1 := m[root := m[root].(max := Computed(m, root))];
    m1[root := m1[root].(parent := null)]
  }

  lemma WithoutStored(m: Sm, r: SplayNode, size: int, m1: Sm, root: SplayNode)
    requires LeftDone(m, r, size, m1, root)
    requires Mirrored(RootStores(JoinStores(m1 + RightPart(m, m[r].pos), root, m[r].right), root))
    ensures Mirrored(Without(m, r, m1, root, size))
  {
    var b, m' := m[r].right, Without(m, r, m1, root, size);
    var m2 := JoinStores(m1 + RightPart(m, m[r].pos), root, b);
    assert root in LeftPart(m, m[r].pos);
    assert NodeOk(m, r, size, r);
    if b != null { assert NodeOk(m, r, size, b); Family(m, r, size, b); }
    assert NodeOk(m1, root, m[r].pos, root);
    if m1[root].left != null { Family(m1, root, m[r].pos, m1[root].left); }
    forall x {:trigger m'[x]} | x in m'
      ensures x in m2 && m'[x] == RootStores(m2, root)[x].(lo := m'[x].lo, pos := m'[x].pos, hi := m'[x].hi)
    {
      WithoutAt(m, r, size, m1, root, x);
    }
    MirroredVia(RootStores(m2, root), m');
  }

  lemma LoneStored(m: Sm, r: SplayNode, size: int, root: SplayNode)
    requires TreeOk(m, r, size) && m[r].left == null && m[r].right == root && root in RightPart(m, m[r].pos)
    requires Mirrored(RootStores(RightPart(m, m[r].pos), root))
    ensures Mirrored(Without(m, r, map[], root, size))
  {
    var m2, m' := RightPart(m, m[r].pos), Without(m, r, map[], root, size);
    Family(m, r, size, root);
    assert NodeOk(m, r, size, root);
    var a, b := m[root].left, m[root].right;
    if a != null { Family(m, r, size, a); }
    if b != null { Family(m, r, size, b); }
    MirroredVia(RootStores(m2, root), m');
  }

  // The new root's maximum and parent.
  method SettleRoot(root: SplayNode, ghost m: Sm) returns (ghost m': Sm)
    requires Mirrored(m) && KidsIn(m, root)
    modifies root
    ensures m' == RootStores(m, root) && Mirrored(m')
  {
    var a := ComputeSubtreeMaxSize(root, m);
    m' := SetMax(root, a, m);
    m' := SetParent(root, null, m');
  }

  // The left subtree is splayed to its greatest node, whose right link is free, and takes the right subtree.
  method JoinSubtrees(r: SplayNode, key: int, ghost m: Sm, ghost size: int) returns (root: SplayNode, ghost m1: Sm, ghost m': Sm)
    requires Mirrored(m) && TreeOk(m, r, size) && m[r].val == key && m[r].left != null
    modifies m.Keys
    ensures LeftDone(m, r, size, m1, root) && root in m && root != r && r.val == key && Nearest(m1, root, key)
    ensures m' == JoinStores(m1 + RightPart(m, m[r].pos), root, m[r].right) && Mirrored(m')
  {
    LeftHangs(m, r, size);
    ghost var p, lm, rm := m[r].pos, LeftPart(m, m[r].pos), RightPart(m, m[r].pos);
    MirroredVia(m, lm);
    MirroredVia(m, rm);
    assert Look(r);
    root, m1 := TopDownSplay(key, r.left, lm, p);
    NothingRight(m, r, size, m1, root);
    assert root in lm;
    ghost var m2 := m1 + rm;
    assert Mirrored(m2) by { MirroredSum(m1, rm); }
    m' := SetRight(root, r.right, m2);
    RightIn(m, r, size);
    m' := SetParent(r.right, root, m');
  }

  lemma MirroredSum(a: Sm, b: Sm)
    requires Mirrored(a) && Mirrored(b)
    ensures Mirrored(a + b)
  {}

  lemma RightIn(m: Sm, r: SplayNode, size: int)
    requires TreeOk(m, r, size)
    ensures m[r].right != null ==> m[r].right in RightPart(m, m[r].pos) && m[r].right != r
  {
    assert NodeOk(m, r, size, r);
    if m[r].right != null { assert NodeOk(m, r, size, m[r].right); }
  }

  // What the last stores need.
  lemma JoinedKids(m: Sm, r: SplayNode, size: int, m1: Sm, root: SplayNode)
    requires LeftDone(m, r, size, m1, root)
    ensures KidsIn(JoinStores(m1 + RightPart(m, m[r].pos), root, m[r].right), root)
  {
    RightIn(m, r, size);
    assert NodeOk(m1, root, m[r].pos, root);
  }

  lemma LoneKids(m: Sm, r: SplayNode, size: int, root: SplayNode)
    requires TreeOk(m, r, size) && m[r].left == null && m[r].right == root
    ensures root in RightPart(m, m[r].pos) && KidsIn(RightPart(m, m[r].pos), root)
  {
    RightIn(m, r, size);
    Family(m, r, size, root);
    var a, b := m[root].left, m[root].right;
    if a != null { LoneAt(m, r, size, root, a); }
    if b != null { LoneAt(m, r, size, root, b); }
  }

  // The joined root stands next to the key that has gone.
  lemma JoinedNearest(m: Sm, r: SplayNode, size: int, m1: Sm, root: SplayNode)
    requires LeftDone(m, r, size, m1, root) && Nearest(m1, root, m[r].val)
    ensures Nearest(Without(m, r, m1, root, size), root, m[r].val)
  {
    var m' := Without(m, r, m1, root, size);
    assert root in LeftPart(m, m[r].pos);
    forall x | x in m'
      ensures Apart(m', root, m[r].val, x)
    {
      assert x in m && x != r;
      WithoutAt(m, r, size, m1, root, root);
      WithoutAt(m, r, size, m1, root, x);
      assert Ordered(m, x, r) && Ordered(m, r, x);
      if x in m1 {
        assert x in LeftPart(m, m[r].pos) && Apart(m1, root, m[r].val, x);
      }
    }
  }

  // The tree that is left when the root `r` of `m` has been taken out.
  ghost predicate RootTaken(m: Sm, r: SplayNode, size: int, m': Sm, root: SplayNode?) {
    && TreeOk(m, r, size) && Dropped(m, m', r) && Splay(m', root, size - 1)
    && if m[r].left == null then root == m[r].right && (root != null ==> m' == Without(m, r, map[], root, size))
       else root != null && Nearest(m', root, m[r].val)
  }

  // Taking the root out.
  method TakeRoot(r: SplayNode, key: int, ghost m: Sm, ghost size: int) returns (root: SplayNode?, ghost m': Sm)
    requires Mirrored(m) && TreeOk(m, r, size) && m[r].val == key
    modifies m.Keys
    ensures Mirrored(m') && RootTaken(m, r, size, m', root)
    ensures r.left == null && r.right == null && r.parent == null && r.val == key
  {
    assert Look(r);
    if r.left == null {
      root := r.right;
      ghost var m2 := RightPart(m, m[r].pos);
      MirroredVia(m, m2);
      r.left, r.right, r.parent := null, null, null;
      if root != null {
        LoneKids(m, r, size, root);
        m2 := SettleRoot(root, m2);
        LoneStored(m, r, size, root);
        LoneOk(m, r, size, root);
        WithoutDropped(m, r, size, map[], root);
        m' := Without(m, r, map[], root, size);
      } else {
        OnlyRoot(m, r, size);
        m' := map[];
      }
    } else {
      ghost var m1, m2;
      root, m1, m2 := JoinSubtrees(r, key, m, size);
      JoinedKids(m, r, size, m1, root);
      r.left, r.right, r.parent := null, null, null;
      m2 := SettleRoot(root, m2);
      WithoutStored(m, r, size, m1, root);
      WithoutOk(m, r, size, m1, root);
      WithoutDropped(m, r, size, m1, root);
      JoinedNearest(m, r, size, m1, root);
      m' := Without(m, r, m1, root, size);
    }
  }

  /** splay_remove_init: the tree is splayed to the key. If its root then holds the key, it is taken out and left
      without links; otherwise this root, which stands next to the place of the key, is returned. */
  method SplayRemoveInit(n: SplayNode, r: SplayNode?, ghost m: Sm, ghost size: int)
    returns (root: SplayNode?, ghost m': Sm, ghost size': int, ghost gone: SplayNode?, ghost splayed: Sm)
    requires Mirrored(m) && Splay(m, r, size)
    modifies m.Keys
    ensures n.val == old(n.val) && Mirrored(m') && Splay(m', root, size') && KeysOf(m') == KeysOf(m) - {n.val}
    ensures if n.val in KeysOf(m) then
        && gone != null && gone in m && m[gone].val == n.val && Dropped(m, m', gone) && size' == size - 1
        && gone.left == null && gone.right == null && gone.parent == null
        && SameNodes(m, splayed) && Nearest(splayed, gone, n.val) && RootTaken(splayed, gone, size, m', root)
      else SameNodes(m, m') && size' == size && (if r == null then root == null else root != null && Nearest(m', root, n.val))
  {
    root, m', size', gone, splayed := r, m, size, null, m;
    if r == null {
      return;
    }
    assert Look(n);
    var key := n.val;
    var top;
    top, m' := TopDownSplay(key, r, m, size);
    root, splayed := top, m';
    SplayedKeys(m, m', top, key);
    assert Look(top) && Look(n);
    if n.val == top.val {
      gone := top;
      root, m' := TakeRoot(top, n.val, splayed, size);
      DroppedKeys(splayed, m', top);
      size' := size - 1;
      assert Look(n);
    }
  }
}
