/** Insertion into a splay tree. */
module SplayInsert {
  import opened SplayTree
  import opened SplayStores
  import opened SplaySplay

  /** A tree that may be empty. */
  ghost predicate Splay(m: Sm, root: SplayNode?, size: int) {
    if root == null then m == map[] && size == 0 else TreeOk(m, root, size)
  }

  ghost function KeysOf(m: Sm): set<int> {
    set n | n in m :: m[n].val
  }

  // Every other node lies on one side of the root.
  lemma {:induction false} OneSide(m: Sm, root: SplayNode, size: int, x: SplayNode)
    requires TreeOk(m, root, size) && x in m && x != root
    ensures 0 <= m[x].lo <= m[x].pos < m[x].hi <= size && (m[x].hi <= m[root].pos || m[x].lo > m[root].pos)
    decreases size - (m[x].hi - m[x].lo)
  {
    assert NodeOk(m, root, size, x);
    var p := m[x].parent;
    assert NodeOk(m, root, size, p) && NodeOk(m, root, size, root);
    if p != root { OneSide(m, root, size, p); }
  }

  // A node other than the root, its parent and its children.
  lemma Family(m: Sm, r: SplayNode, size: int, x: SplayNode)
    requires TreeOk(m, r, size) && x in m && x != r
    ensures NodeOk(m, r, size, x) && m[x].parent != null && m[x].parent in m && 0 <= m[r].pos < size
    ensures m[x].parent == r ==> m[r].left != m[r].right && (x == m[r].left || x == m[r].right)
    ensures m[x].hi <= m[r].pos || m[x].lo > m[r].pos
    ensures x == m[r].left ==> m[x].hi == m[r].pos
    ensures x == m[r].right ==> m[x].lo == m[r].pos + 1
    ensures x == m[r].left || x == m[r].right ==> m[x].parent == r
    ensures forall a :: a == m[x].left || a == m[x].right ==>
      a == null
        || (a in m && a != r && a != m[r].left && a != m[r].right && m[a].parent == x && m[x].lo <= m[a].pos < m[x].hi)
  {
    OneSide(m, r, size, x);
    assert NodeOk(m, r, size, x) && NodeOk(m, r, size, r);
    var a, b := m[x].left, m[x].right;
    if a != null { assert NodeOk(m, r, size, a); }
    if b != null { assert NodeOk(m, r, size, b); }
  }

  // A node moved up or down by `d` positions.
  ghost function Moved(v: Sn, d: int): Sn {
    v.(lo := v.lo + d, pos := v.pos + d, hi := v.hi + d)
  }

  // ---------- The new node comes just before the old root ----------

  ghost function PutBefore(m: Sm, r: SplayNode, n: SplayNode, val: int, sz: int, size: int): Sm
    requires r in m
  {
    var l, p := m[r].left, m[r].pos;
    var mr := Max(m[r].size, MaxAt(m, m[r].right));
    map x | x in m.Keys + {n} ::
      if x == n then Sn(l, r, null, val, sz, Max(Max(sz, MaxAt(m, l)), mr), 0, p, size + 1)
      else if x == r then Moved(m[r], 1).(left := null, parent := n, lo := p + 1, max := mr)
      else if x == l then m[x].(parent := n)
      else if m[x].pos < p then m[x] else Moved(m[x], 1)
  }

  // What becomes of a node other than the old root.
  lemma BeforeAt(m: Sm, r: SplayNode, n: SplayNode, val: int, sz: int, size: int, x: SplayNode)
    requires TreeOk(m, r, size) && n !in m && x in m && x != r
    ensures PutBefore(m, r, n, val, sz, size)[x] ==
      Moved(m[x], if m[x].pos < m[r].pos then 0 else 1).(parent := if x == m[r].left then n else m[x].parent)
  {
    Family(m, r, size, x);
  }

  lemma BeforeNode(m: Sm, r: SplayNode, n: SplayNode, val: int, sz: int, size: int, x: SplayNode)
    requires TreeOk(m, r, size) && n !in m && sz >= 0 && x in m && x != r
    ensures NodeOk(PutBefore(m, r, n, val, sz, size), n, size + 1, x)
  {
    Family(m, r, size, x);
    BeforeAt(m, r, n, val, sz, size, x);
    var a, b, p := m[x].left, m[x].right, m[x].parent;
    if a != null { BeforeAt(m, r, n, val, sz, size, a); }
    if b != null { BeforeAt(m, r, n, val, sz, size, b); }
    if p != r { BeforeAt(m, r, n, val, sz, size, p); }
  }

  lemma BeforeRoot(m: Sm, r: SplayNode, n: SplayNode, val: int, sz: int, size: int)
    requires TreeOk(m, r, size) && n !in m && sz >= 0
    ensures NodeOk(PutBefore(m, r, n, val, sz, size), n, size + 1, r)
  {
    assert NodeOk(m, r, size, r);
    if m[r].right != null { Family(m, r, size, m[r].right); BeforeAt(m, r, n, val, sz, size, m[r].right); }
  }

  lemma BeforeNew(m: Sm, r: SplayNode, n: SplayNode, val: int, sz: int, size: int)
    requires TreeOk(m, r, size) && n !in m && sz >= 0
    ensures NodeOk(PutBefore(m, r, n, val, sz, size), n, size + 1, n)
  {
    assert NodeOk(m, r, size, r);
    if m[r].left != null { assert NodeOk(m, r, size, m[r].left); }
  }

  lemma BeforeOrder(m: Sm, r: SplayNode, n: SplayNode, val: int, sz: int, size: int)
    requires TreeOk(m, r, size) && n !in m && Nearest(m, r, val) && val < m[r].val
    ensures Order(PutBefore(m, r, n, val, sz, size))
  {
    var m' := PutBefore(m, r, n, val, sz, size);
    forall a, b | a in m' && b in m'
      ensures Ordered(m', a, b)
    {
      if a != n {
        assert Apart(m, r, val, a) && Ordered(m, a, r);
        if a != r { BeforeAt(m, r, n, val, sz, size, a); }
      }
      if b != n {
        assert Apart(m, r, val, b) && Ordered(m, b, r);
        if b != r { BeforeAt(m, r, n, val, sz, size, b); }
      }
      if a != n && b != n { assert Ordered(m, a, b); }
    }
  }

  lemma PutBeforeOk(m: Sm, r: SplayNode, n: SplayNode, val: int, sz: int, size: int)
    requires TreeOk(m, r, size) && n !in m && sz >= 0 && Nearest(m, r, val) && val < m[r].val
    ensures TreeOk(PutBefore(m, r, n, val, sz, size), n, size + 1)
  {
    var m' := PutBefore(m, r, n, val, sz, size);
    forall x | x in m'
      ensures NodeOk(m', n, size + 1, x)
    {
      if x == n {
        BeforeNew(m, r, n, val, sz, size);
      } else if x == r {
        BeforeRoot(m, r, n, val, sz, size);
      } else {
        BeforeNode(m, r, n, val, sz, size, x);
      }
    }
    BeforeOrder(m, r, n, val, sz, size);
  }

  // ---------- The new node comes just after the old root ----------

  ghost function PutAfter(m: Sm, r: SplayNode, n: SplayNode, val: int, sz: int, size: int): Sm
    requires r in m
  {
    var l, p := m[r].right, m[r].pos + 1;
    var mr := Max(m[r].size, MaxAt(m, m[r].left));
    map x | x in m.Keys + {n} ::
      if x == n then Sn(r, l, null, val, sz, Max(Max(sz, mr), MaxAt(m, l)), 0, p, size + 1)
      else if x == r then m[r].(right := null, parent := n, hi := p, max := mr)
      else if x == l then Moved(m[x], 1).(parent := n)
      else if m[x].pos < p then m[x] else Moved(m[x], 1)
  }

  // What becomes of a node other than the old root.
  lemma AfterAt(m: Sm, r: SplayNode, n: SplayNode, val: int, sz: int, size: int, x: SplayNode)
    requires TreeOk(m, r, size) && n !in m && x in m && x != r
    ensures PutAfter(m, r, n, val, sz, size)[x] ==
      Moved(m[x], if m[x].pos < m[r].pos then 0 else 1).(parent := if x == m[r].right then n else m[x].parent)
  {
    Family(m, r, size, x);
  }

  lemma AfterNode(m: Sm, r: SplayNode, n: SplayNode, val: int, sz: int, size: int, x: SplayNode)
    requires TreeOk(m, r, size) && n !in m && sz >= 0 && x in m && x != r
    ensures NodeOk(PutAfter(m, r, n, val, sz, size), n, size + 1, x)
  {
    Family(m, r, size, x);
    AfterAt(m, r, n, val, sz, size, x);
    var a, b, p := m[x].left, m[x].right, m[x].parent;
    if a != null { AfterAt(m, r, n, val, sz, size, a); }
    if b != null { AfterAt(m, r, n, val, sz, size, b); }
    if p != r { AfterAt(m, r, n, val, sz, size, p); }
  }

  lemma AfterRoot(m: Sm, r: SplayNode, n: SplayNode, val: int, sz: int, size: int)
    requires TreeOk(m, r, size) && n !in m && sz >= 0
    ensures NodeOk(PutAfter(m, r, n, val, sz, size), n, size + 1, r)
  {
    assert NodeOk(m, r, size, r);
    if m[r].left != null { Family(m, r, size, m[r].left); AfterAt(m, r, n, val, sz, size, m[r].left); }
  }

  lemma AfterNew(m: Sm, r: SplayNode, n: SplayNode, val: int, sz: int, size: int)
    requires TreeOk(m, r, size) && n !in m && sz >= 0
    ensures NodeOk(PutAfter(m, r, n, val, sz, size), n, size + 1, n)
  {
    assert NodeOk(m, r, size, r);
    if m[r].right != null { assert NodeOk(m, r, size, m[r].right); }
  }

  lemma AfterOrder(m: Sm, r: SplayNode, n: SplayNode, val: int, sz: int, size: int)
    requires TreeOk(m, r, size) && n !in m && Nearest(m, r, val) && val > m[r].val
    ensures Order(PutAfter(m, r, n, val, sz, size))
  {
    var m' := PutAfter(m, r, n, val, sz, size);
    forall a, b | a in m' && b in m'
      ensures Ordered(m', a, b)
    {
      if a != n {
        assert Apart(m, r, val, a) && Ordered(m, a, r);
        if a != r { AfterAt(m, r, n, val, sz, size, a); }
      }
      if b != n {
        assert Apart(m, r, val, b) && Ordered(m, b, r);
        if b != r { AfterAt(m, r, n, val, sz, size, b); }
      }
      if a != n && b != n { assert Ordered(m, a, b); }
    }
  }

  lemma PutAfterOk(m: Sm, r: SplayNode, n: SplayNode, val: int, sz: int, size: int)
    requires TreeOk(m, r, size) && n !in m && sz >= 0 && Nearest(m, r, val) && val > m[r].val
    ensures TreeOk(PutAfter(m, r, n, val, sz, size), n, size + 1)
  {
    var m' := PutAfter(m, r, n, val, sz, size);
    forall x | x in m'
      ensures NodeOk(m', n, size + 1, x)
    {
      if x == n {
        AfterNew(m, r, n, val, sz, size);
      } else if x == r {
        AfterRoot(m, r, n, val, sz, size);
      } else {
        AfterNode(m, r, n, val, sz, size, x);
      }
    }
    AfterOrder(m, r, n, val, sz, size);
  }

  // ---------- splay_insert ----------

  // The new node joins the others, which keep their keys and sizes.
  ghost predicate Added(m: Sm, m': Sm, n: SplayNode, val: int, sz: int) {
    && m'.Keys == m.Keys + {n} && m'[n].val == val && m'[n].size == sz
    && forall x {:trigger m'[x]} :: x in m && x != n ==> m'[x].val == m[x].val && m'[x].size == m[x].size
  }

  // The maxima of the children of the new root, its parent link and its own maximum.
  ghost function Refreshed(m: Sm, n: SplayNode): Sm
    requires n in m
  {
    var l, r := m[n].left, m[n].right;
    var m1 := if l != null && l in m then m[l := m[l].(max := Computed(m, l))] else m;
    var m2 := if r != null && r in m1 then m1[r := m1[r].(max := Computed(m1, r))] else m1;
    var m3 := m2[n := m2[n].(parent := null)];
    m3[n := m3[n].(max := Computed(m3, n))]
  }

  ghost predicate KidsIn(m: Sm, n: SplayNode?) {
    n != null ==> n in m && (m[n].left != null ==> m[n].left in m) && (m[n].right != null ==> m[n].right in m)
  }

  method Refresh(n: SplayNode, ghost m: Sm) returns (ghost m': Sm)
    requires Mirrored(m) && KidsIn(m, n) && KidsIn(m, m[n].left) && KidsIn(m, m[n].right) && m[n].left != n && m[n].right != n
    modifies m.Keys
    ensures m' == Refreshed(m, n) && Mirrored(m') && n.val == old(n.val) && n.size == old(n.size)
  {
    m' := m;
    assert Look(n);
    if n.left != null {
      var a := ComputeSubtreeMaxSize(n.left, m');
      m' := SetMax(n.left, a, m');
    }
    assert Look(n);
    if n.right != null {
      var a := ComputeSubtreeMaxSize(n.right, m');
      m' := SetMax(n.right, a, m');
    }
    m' := SetParent(n, null, m');
    var a := ComputeSubtreeMaxSize(n, m');
    m' := SetMax(n, a, m');
  }

  // The values it leaves, when neither child hangs below the other.
  lemma RefreshedAt(m: Sm, n: SplayNode, x: SplayNode)
    requires KidsIn(m, n) && KidsIn(m, m[n].left) && KidsIn(m, m[n].right) && x in m
    requires m[n].left != n && m[n].right != n
    requires m[n].left != null && m[n].right != null ==>
      m[n].left != m[n].right && m[m[n].right].left != m[n].left && m[m[n].right].right != m[n].left
    ensures var l, r := m[n].left, m[n].right;
      var a, b := if l != null then Computed(m, l) else 0, if r != null then Computed(m, r) else 0;
      && x in Refreshed(m, n)
      && Refreshed(m, n)[x] == (if x == n then m[n].(parent := null, max := Max(Max(m[n].size, a), b))
                                else if x == l then m[x].(max := a) else if x == r then m[x].(max := b) else m[x])
  {}

  // The stores that hang the old root to the right of the new node.
  ghost function HangRight(m: Sm, r: SplayNode, n: SplayNode, w: Sn): Sm
    requires r in m && n !in m
  {
    var m1 := WithParent(m[n := w], m[r].left, n);
    var m2 := WithParent(m1, r, n);
    m2[r := m2[r].(left := null)]
  }

  lemma HangRightAt(m: Sm, r: SplayNode, n: SplayNode, w: Sn, size: int, x: SplayNode)
    requires TreeOk(m, r, size) && n !in m && x in m.Keys + {n}
    ensures var m' := HangRight(m, r, n, w);
      && m'.Keys == m.Keys + {n} && m'[n] == w && m'[r] == m[r].(left := null, parent := n)
      && (x != n && x != r ==> m'[x] == m[x].(parent := if x == m[r].left then n else m[x].parent))
    ensures m[r].left != r && (m[r].left != null ==> m[r].left in m)
  {
    assert NodeOk(m, r, size, r);
    if m[r].left != null { assert NodeOk(m, r, size, m[r].left); }
  }

  lemma BeforeReady(m: Sm, r: SplayNode, n: SplayNode, w: Sn, size: int)
    requires TreeOk(m, r, size) && n !in m && w.left == m[r].left && w.right == r
    ensures var m' := HangRight(m, r, n, w);
      && KidsIn(m', n) && KidsIn(m', m'[n].left) && KidsIn(m', m'[n].right) && m'[n].left != n && m'[n].right != n
      && (m'[n].left != null && m'[n].right != null ==>
            m'[n].left != m'[n].right && m'[m'[n].right].left != m'[n].left && m'[m'[n].right].right != m'[n].left)
      && (w.left != null ==> w.left in m' && Computed(m', w.left) == m[w.left].max)
      && Computed(m', r) == Max(m[r].size, MaxAt(m, m[r].right))
  {
    assert NodeOk(m, r, size, r);
    HangRightAt(m, r, n, w, size, n);
    var l, b := m[r].left, m[r].right;
    if b != null { Family(m, r, size, b); HangRightAt(m, r, n, w, size, b); }
    if l != null {
      Family(m, r, size, l);
      HangRightAt(m, r, n, w, size, l);
      if m[l].left != null { HangRightAt(m, r, n, w, size, m[l].left); }
      if m[l].right != null { HangRightAt(m, r, n, w, size, m[l].right); }
    }
  }

  // Together with the maxima they make the tree with the new node.
  lemma BeforeStored(m: Sm, r: SplayNode, n: SplayNode, w: Sn, size: int)
    requires TreeOk(m, r, size) && n !in m && w.left == m[r].left && w.right == r && Mirrored(Refreshed(HangRight(m, r, n, w), n))
    ensures Mirrored(PutBefore(m, r, n, w.val, w.size, size))
  {
    var m1, m' := HangRight(m, r, n, w), PutBefore(m, r, n, w.val, w.size, size);
    BeforeReady(m, r, n, w, size);
    var m2 := Refreshed(m1, n);
    forall x {:trigger m'[x]} | x in m'
      ensures x in m2 && m'[x] == m2[x].(lo := m'[x].lo, pos := m'[x].pos, hi := m'[x].hi)
    {
      RefreshedAt(m1, n, x);
      HangRightAt(m, r, n, w, size, x);
    }
    MirroredVia(m2, m');
  }

  method AttachOldRight(n: SplayNode, r: SplayNode, ghost m: Sm, ghost size: int) returns (ghost m': Sm)
    requires Mirrored(m) && TreeOk(m, r, size) && n !in m
    modifies m.Keys, n
    ensures n.val == old(n.val) && n.size == old(n.size)
    ensures Mirrored(m') && m' == PutBefore(m, r, n, n.val, n.size, size)
  {
    assert Look(r);
    n.left := r.left;
    n.right := r;
    ghost var w := Sn(n.left, n.right, n.parent, n.val, n.size, n.maxSize, 0, 0, 0);
    HangRightAt(m, r, n, w, size, n);
    m' := SetParent(r.left, n, m[n := w]);
    m' := SetParent(r, n, m');
    m' := SetLeft(r, null, m');
    BeforeReady(m, r, n, w, size);
    m' := Refresh(n, m');
    BeforeStored(m, r, n, w, size);
    m' := PutBefore(m, r, n, n.val, n.size, size);
  }

  // The stores that hang the old root to the left of the new node.
  ghost function HangLeft(m: Sm, r: SplayNode, n: SplayNode, w: Sn): Sm
    requires r in m && n !in m
  {
    var m1 := WithParent(m[n := w], m[r].right, n);
    var m2 := WithParent(m1, r, n);
    m2[r := m2[r].(right := null)]
  }

  lemma HangLeftAt(m: Sm, r: SplayNode, n: SplayNode, w: Sn, size: int, x: SplayNode)
    requires TreeOk(m, r, size) && n !in m && x in m.Keys + {n}
    ensures var m' := HangLeft(m, r, n, w);
      && m'.Keys == m.Keys + {n} && m'[n] == w && m'[r] == m[r].(right := null, parent := n)
      && (x != n && x != r ==> m'[x] == m[x].(parent := if x == m[r].right then n else m[x].parent))
    ensures m[r].right != r && (m[r].right != null ==> m[r].right in m)
  {
    assert NodeOk(m, r, size, r);
    if m[r].right != null { assert NodeOk(m, r, size, m[r].right); }
  }

  lemma AfterReady(m: Sm, r: SplayNode, n: SplayNode, w: Sn, size: int)
    requires TreeOk(m, r, size) && n !in m && w.right == m[r].right && w.left == r
    ensures var m' := HangLeft(m, r, n, w);
      && KidsIn(m', n) && KidsIn(m', m'[n].left) && KidsIn(m', m'[n].right) && m'[n].left != n && m'[n].right != n
      && (m'[n].left != null && m'[n].right != null ==>
            m'[n].left != m'[n].right && m'[m'[n].right].left != m'[n].left && m'[m'[n].right].right != m'[n].left)
      && (w.right != null ==> w.right in m' && Computed(m', w.right) == m[w.right].max)
      && Computed(m', r) == Max(m[r].size, MaxAt(m, m[r].left))
  {
    assert NodeOk(m, r, size, r);
    HangLeftAt(m, r, n, w, size, n);
    var l, b := m[r].right, m[r].left;
    if b != null { Family(m, r, size, b); HangLeftAt(m, r, n, w, size, b); }
    if l != null {
      Family(m, r, size, l);
      HangLeftAt(m, r, n, w, size, l);
      if m[l].left != null { HangLeftAt(m, r, n, w, size, m[l].left); }
      if m[l].right != null { HangLeftAt(m, r, n, w, size, m[l].right); }
    }
  }

  // Together with the maxima they make the tree with the new node.
  lemma AfterStored(m: Sm, r: SplayNode, n: SplayNode, w: Sn, size: int)
    requires TreeOk(m, r, size) && n !in m && w.right == m[r].right && w.left == r && Mirrored(Refreshed(HangLeft(m, r, n, w), n))
    ensures Mirrored(PutAfter(m, r, n, w.val, w.size, size))
  {
    var m1, m' := HangLeft(m, r, n, w), PutAfter(m, r, n, w.val, w.size, size);
    AfterReady(m, r, n, w, size);
    var m2 := Refreshed(m1, n);
    forall x {:trigger m'[x]} | x in m'
      ensures x in m2 && m'[x] == m2[x].(lo := m'[x].lo, pos := m'[x].pos, hi := m'[x].hi)
    {
      RefreshedAt(m1, n, x);
      HangLeftAt(m, r, n, w, size, x);
    }
    MirroredVia(m2, m');
  }

  method AttachOldLeft(n: SplayNode, r: SplayNode, ghost m: Sm, ghost size: int) returns (ghost m': Sm)
    requires Mirrored(m) && TreeOk(m, r, size) && n !in m
    modifies m.Keys, n
    ensures n.val == old(n.val) && n.size == old(n.size)
    ensures Mirrored(m') && m' == PutAfter(m, r, n, n.val, n.size, size)
  {
    assert Look(r);
    n.right := r.right;
    n.left := r;
    ghost var w := Sn(n.left, n.right, n.parent, n.val, n.size, n.maxSize, 0, 0, 0);
    HangLeftAt(m, r, n, w, size, n);
    m' := SetParent(r.right, n, m[n := w]);
    m' := SetParent(r, n, m');
    m' := SetRight(r, null, m');
    AfterReady(m, r, n, w, size);
    m' := Refresh(n, m');
    AfterStored(m, r, n, w, size);
    m' := PutAfter(m, r, n, n.val, n.size, size);
  }


  // The nearest root holds the key exactly if some node does.
  lemma NearestKey(m: Sm, root: SplayNode, key: int)
    requires Nearest(m, root, key)
    ensures key in KeysOf(m) <==> m[root].val == key
  {
    if key in KeysOf(m) {
      var x :| x in m && m[x].val == key;
      assert Apart(m, root, key, x);
    }
  }

  lemma SameKeys(m: Sm, m': Sm)
    requires SameNodes(m, m')
    ensures KeysOf(m') == KeysOf(m)
  {
    forall k
      ensures k in KeysOf(m) <==> k in KeysOf(m')
    {
      if k in KeysOf(m) {
        var x :| x in m && m[x].val == k;
        assert m'[x].val == k;
      }
      if k in KeysOf(m') {
        var x :| x in m' && m'[x].val == k;
        assert m[x].val == k;
      }
    }
  }

  lemma AddedKeys(m: Sm, m': Sm, n: SplayNode, val: int, sz: int)
    requires Added(m, m', n, val, sz) && n !in m
    ensures KeysOf(m') == KeysOf(m) + {val}
  {
    forall k
      ensures k in KeysOf(m) + {val} <==> k in KeysOf(m')
    {
      if k in KeysOf(m) {
        var x :| x in m && m[x].val == k;
        assert m'[x].val == k;
      }
      if k == val { assert m'[n].val == k; }
      if k in KeysOf(m') {
        var x :| x in m' && m'[x].val == k;
        assert x == n || m[x].val == k;
      }
    }
  }

  lemma PutAdded(m: Sm, r: SplayNode, n: SplayNode, val: int, sz: int, size: int)
    requires r in m && n !in m
    ensures Added(m, PutBefore(m, r, n, val, sz, size), n, val, sz)
    ensures Added(m, PutAfter(m, r, n, val, sz, size), n, val, sz)
  {}

  lemma GrownBefore(m0: Sm, m: Sm, r: SplayNode, n: SplayNode, val: int, sz: int, size: int)
    requires TreeOk(m, r, size) && n !in m && sz >= 0 && Nearest(m, r, val) && val < m[r].val && SameNodes(m0, m)
    ensures var m' := PutBefore(m, r, n, val, sz, size);
      Splay(m', n, size + 1) && Added(m0, m', n, val, sz) && KeysOf(m') == KeysOf(m) + {val}
  {
    PutBeforeOk(m, r, n, val, sz, size);
    PutAdded(m, r, n, val, sz, size);
    AddedKeys(m, PutBefore(m, r, n, val, sz, size), n, val, sz);
  }

  lemma GrownAfter(m0: Sm, m: Sm, r: SplayNode, n: SplayNode, val: int, sz: int, size: int)
    requires TreeOk(m, r, size) && n !in m && sz >= 0 && Nearest(m, r, val) && val > m[r].val && SameNodes(m0, m)
    ensures var m' := PutAfter(m, r, n, val, sz, size);
      Splay(m', n, size + 1) && Added(m0, m', n, val, sz) && KeysOf(m') == KeysOf(m) + {val}
  {
    PutAfterOk(m, r, n, val, sz, size);
    PutAdded(m, r, n, val, sz, size);
    AddedKeys(m, PutAfter(m, r, n, val, sz, size), n, val, sz);
  }

  lemma SplayedKeys(m0: Sm, m: Sm, root: SplayNode, key: int)
    requires SameNodes(m0, m) && Nearest(m, root, key)
    ensures KeysOf(m) == KeysOf(m0) && (key in KeysOf(m0) <==> m[root].val == key)
  {
    SameKeys(m0, m);
    NearestKey(m, root, key);
  }

  // The first node of a tree.
  method Sole(n: SplayNode) returns (ghost m: Sm)
    requires n.size >= 0
    modifies n
    ensures n.val == old(n.val) && n.size == old(n.size)
    ensures Mirrored(m) && Splay(m, n, 1) && Added(map[], m, n, n.val, n.size) && KeysOf(m) == {n.val}
  {
    n.left, n.right, n.parent := null, null, null;
    n.maxSize := n.size;
    m := map[n := Sn(null, null, null, n.val, n.size, n.size, 0, 0, 1)];
    AddedKeys(map[], m, n, n.val, n.size);
  }

  /** splay_insert: the key set gains the new key; a key that is there already is only splayed to the root. */
  method SplayInsert(n: SplayNode, r: SplayNode?, ghost m: Sm, ghost size: int)
    returns (root: SplayNode, ghost m': Sm, ghost size': int)
    requires Mirrored(m) && Splay(m, r, size) && n !in m && n.size >= 0
    modifies m.Keys, n
    ensures n.val == old(n.val) && n.size == old(n.size)
    ensures Mirrored(m') && Splay(m', root, size') && root in m' && root.val == n.val
    ensures KeysOf(m') == KeysOf(m) + {n.val}
    ensures if n.val in KeysOf(m) then SameNodes(m, m') && size' == size
            else root == n && Added(m, m', n, n.val, n.size) && size' == size + 1
    ensures root != n ==>
      n.left == old(n.left) && n.right == old(n.right) && n.parent == old(n.parent) && n.maxSize == old(n.maxSize)
  {
    if r != null {
      ghost var m1;
      root, m1 := TopDownSplay(n.val, r, m, size);
      SplayedKeys(m, m1, root, n.val);
      assert Look(root);
      if n.val < root.val {
        GrownBefore(m, m1, root, n, n.val, n.size, size);
        m' := AttachOldRight(n, root, m1, size);
        root, size' := n, size + 1;
      } else if n.val > root.val {
        GrownAfter(m, m1, root, n, n.val, n.size, size);
        m' := AttachOldLeft(n, root, m1, size);
        root, size' := n, size + 1;
      } else {
        m', size' := m1, size;
      }
      assert Look(root);
    } else {
      m' := Sole(n);
      root, size' := n, 1;
    }
  }
}
