/** Stores into splay nodes, and the two rotations. */
module SplayStores {
  import opened SplayTree

  method SetLeft(n: SplayNode, x: SplayNode?, ghost m: Sm) returns (ghost m': Sm)
    requires Mirrored(m) && n in m
    modifies n
    ensures m' == m[n := m[n].(left := x)] && Mirrored(m')
  {
    assert Look(n);
    n.left := x;
    m' := m[n := m[n].(left := x)];
  }

  method SetRight(n: SplayNode, x: SplayNode?, ghost m: Sm) returns (ghost m': Sm)
    requires Mirrored(m) && n in m
    modifies n
    ensures m' == m[n := m[n].(right := x)] && Mirrored(m')
  {
    assert Look(n);
    n.right := x;
    m' := m[n := m[n].(right := x)];
  }

  method SetMax(n: SplayNode, a: int, ghost m: Sm) returns (ghost m': Sm)
    requires Mirrored(m) && n in m
    modifies n
    ensures m' == m[n := m[n].(max := a)] && Mirrored(m')
  {
    assert Look(n);
    n.maxSize := a;
    m' := m[n := m[n].(max := a)];
  }

  ghost function WithParent(m: Sm, n: SplayNode?, p: SplayNode?): Sm {
    if n != null && n in m then m[n := m[n].(parent := p)] else m
  }

  // set_parent
  method SetParent(n: SplayNode?, p: SplayNode?, ghost m: Sm) returns (ghost m': Sm)
    requires Mirrored(m) && (n != null ==> n in m)
    modifies if n == null then {} else {n}
    ensures m' == WithParent(m, n, p) && Mirrored(m')
  {
    m' := m;
    if n != null {
      assert Look(n);
      n.parent := p;
      m' := m[n := m[n].(parent := p)];
    }
  }

  ghost function WithChild(m: Sm, p: SplayNode?, old_: SplayNode, new_: SplayNode): Sm {
    if p != null && p in m then
      m[p := if m[p].left == old_ then m[p].(left := new_) else m[p].(right := new_)]
    else m
  }

  // change_child; the parent may lie outside the tree that is splayed
  method ChangeChild(p: SplayNode?, old_: SplayNode, new_: SplayNode, ghost m: Sm) returns (ghost m': Sm)
    requires Mirrored(m)
    modifies if p == null then {} else {p}
    ensures m' == WithChild(m, p, old_, new_) && Mirrored(m')
    ensures p != null && old(p.left) == old_ ==> p.left == new_ && p.right == old(p.right) && p.val == old(p.val)
  {
    m' := WithChild(m, p, old_, new_);
    if p != null {
      assert Look(p);
      if p.left == old_ {
        p.left := new_;
      } else {
        p.right := new_;
      }
    }
  }

  // A child takes the place of its parent `r` below the node above.
  method Hoist(r: SplayNode, c: SplayNode, ghost m: Sm) returns (ghost m': Sm)
    requires Mirrored(m) && r in m && c in m && c != r && m[r].parent != c && m[r].parent != r
    modifies c, if m[r].parent == null then {} else {m[r].parent}
    ensures m' == WithChild(WithParent(m, c, m[r].parent), m[r].parent, r, c) && Mirrored(m')
    ensures var p := m[r].parent;
      p != null && old(p.left) == r ==> p.left == c && p.right == old(p.right) && p.val == old(p.val)
  {
    assert Look(r);
    var p := r.parent;
    m' := SetParent(c, p, m);
    m' := ChangeChild(p, r, c, m');
  }

  // compute_subtree_max_size
  method ComputeSubtreeMaxSize(n: SplayNode, ghost m: Sm) returns (a: int)
    requires Mirrored(m) && n in m && (m[n].left != null ==> m[n].left in m) && (m[n].right != null ==> m[n].right in m)
    ensures a == Computed(m, n)
  {
    assert Look(n);
    var l := n.left;
    var r := n.right;
    assert l != null ==> Look(l);
    assert r != null ==> Look(r);
    a := Max(Max(n.size, if l != null then l.maxSize else 0), if r != null then r.maxSize else 0);
  }

  // Positions are not stored, so they can be restated at any time.
  ghost predicate SameStored(m: Sm, m': Sm) {
    && m'.Keys <= m.Keys
    && forall n {:trigger m'[n]} :: n in m' ==> m'[n] == m[n].(lo := m'[n].lo, pos := m'[n].pos, hi := m'[n].hi)
  }

  lemma MirroredVia(m: Sm, m': Sm)
    requires Mirrored(m) && SameStored(m, m')
    ensures Mirrored(m')
  {
    assert forall n: SplayNode :: n in m' ==> Look(n) && m'[n] == m[n].(lo := m'[n].lo, pos := m'[n].pos, hi := m'[n].hi);
  }

  // ---------- Rotations ----------

  // The rotated node, its left child, that child's right child and the parent are four nodes.
  ghost predicate RightPivotable(m: Sm, r: SplayNode) {
    && r in m && m[r].left != null && m[r].left in m && m[r].left != r
    && var c, p := m[r].left, m[r].parent;
    && (m[c].right != null ==> m[c].right in m && m[c].right != r && m[c].right != c && m[c].right != p)
    && p != r && p != c
  }

  ghost function PivotRight(m: Sm, r: SplayNode): Sm
    requires RightPivotable(m, r)
  {
    var v := m[r];
    var w := m[v.left];
    map x | x in m ::
      if x == v.left then w.(parent := v.parent, right := r, hi := v.hi)
      else if x == r then v.(left := w.right, parent := v.left, lo := w.pos + 1)
      else if x == w.right then m[x].(parent := r)
      else if x == v.parent then (if m[x].left == r then m[x].(left := v.left) else m[x].(right := v.left))
      else m[x]
  }

  ghost function RightStores(m: Sm, r: SplayNode): Sm
    requires RightPivotable(m, r)
  {
    var p, c, b := m[r].parent, m[r].left, m[m[r].left].right;
    var m1 := WithParent(m, c, p);
    var m2 := WithChild(m1, p, r, c);
    var m3 := m2[r := m2[r].(left := b)];
    var m4 := WithParent(m3, b, r);
    var m5 := WithParent(m4, r, c);
    m5[c := m5[c].(right := r)]
  }

  lemma RightStoresIsPivot(m: Sm, r: SplayNode)
    requires RightPivotable(m, r)
    ensures SameStored(RightStores(m, r), PivotRight(m, r))
  {}

  lemma RightStoresMirrored(m: Sm, r: SplayNode)
    requires RightPivotable(m, r) && Mirrored(RightStores(m, r))
    ensures Mirrored(PivotRight(m, r))
  {
    RightStoresIsPivot(m, r);
    MirroredVia(RightStores(m, r), PivotRight(m, r));
  }

  // right_pivot
  method RightPivot(r: SplayNode, ghost m: Sm) returns (lc: SplayNode, ghost m': Sm)
    requires Mirrored(m) && RightPivotable(m, r)
    modifies m.Keys, if m[r].parent == null then {} else {m[r].parent}
    ensures lc == m[r].left && m' == PivotRight(m, r) && Mirrored(m')
    ensures var p := m[r].parent;
      p != null && p !in m && old(p.left) == r ==> p.left == lc && p.right == old(p.right) && p.val == old(p.val)
  {
    assert Look(r);
    lc := r.left;
    assert Look(lc);
    var b := lc.right;
    m' := Hoist(r, lc, m);
    m' := SetLeft(r, b, m');
    m' := SetParent(b, r, m');
    m' := SetParent(r, lc, m');
    m' := SetRight(lc, r, m');
    RightStoresMirrored(m, r);
    m' := PivotRight(m, r);
  }

  ghost predicate LeftPivotable(m: Sm, r: SplayNode) {
    && r in m && m[r].right != null && m[r].right in m && m[r].right != r
    && var c, p := m[r].right, m[r].parent;
    && (m[c].left != null ==> m[c].left in m && m[c].left != r && m[c].left != c && m[c].left != p)
    && p != r && p != c
  }

  ghost function PivotLeft(m: Sm, r: SplayNode): Sm
    requires LeftPivotable(m, r)
  {
    var v := m[r];
    var w := m[v.right];
    map x | x in m ::
      if x == v.right then w.(parent := v.parent, left := r, lo := v.lo)
      else if x == r then v.(right := w.left, parent := v.right, hi := w.pos)
      else if x == w.left then m[x].(parent := r)
      else if x == v.parent then (if m[x].left == r then m[x].(left := v.right) else m[x].(right := v.right))
      else m[x]
  }

  ghost function LeftStores(m: Sm, r: SplayNode): Sm
    requires LeftPivotable(m, r)
  {
    var p, c, b := m[r].parent, m[r].right, m[m[r].right].left;
    var m1 := WithParent(m, c, p);
    var m2 := WithChild(m1, p, r, c);
    var m3 := m2[r := m2[r].(right := b)];
    var m4 := WithParent(m3, b, r);
    var m5 := WithParent(m4, r, c);
    m5[c := m5[c].(left := r)]
  }

  lemma LeftStoresIsPivot(m: Sm, r: SplayNode)
    requires LeftPivotable(m, r)
    ensures SameStored(LeftStores(m, r), PivotLeft(m, r))
  {}

  lemma LeftStoresMirrored(m: Sm, r: SplayNode)
    requires LeftPivotable(m, r) && Mirrored(LeftStores(m, r))
    ensures Mirrored(PivotLeft(m, r))
  {
    LeftStoresIsPivot(m, r);
    MirroredVia(LeftStores(m, r), PivotLeft(m, r));
  }

  // left_pivot
  method LeftPivot(r: SplayNode, ghost m: Sm) returns (rc: SplayNode, ghost m': Sm)
    requires Mirrored(m) && LeftPivotable(m, r)
    modifies m.Keys, if m[r].parent == null then {} else {m[r].parent}
    ensures rc == m[r].right && m' == PivotLeft(m, r) && Mirrored(m')
    ensures var p := m[r].parent;
      p != null && p !in m && old(p.left) == r ==> p.left == rc && p.right == old(p.right) && p.val == old(p.val)
  {
    assert Look(r);
    rc := r.right;
    assert Look(rc);
    var b := rc.left;
    m' := Hoist(r, rc, m);
    m' := SetRight(r, b, m');
    m' := SetParent(b, r, m');
    m' := SetParent(r, rc, m');
    m' := SetLeft(rc, r, m');
    LeftStoresMirrored(m, r);
    m' := PivotLeft(m, r);
  }
}
