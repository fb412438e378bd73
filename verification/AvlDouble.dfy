/** The double rotations of the AVL tree. They leave the parent links of the two grandchildren that move
    as they were. */
module AvlDouble {
  import opened AvlTree
  import opened AvlPivot

  // The balance factors of the two outer nodes, from that of the node that rises between them.
  ghost function LowSide(b: int): int {
    if b < 0 then 1 else 0
  }

  ghost function HighSide(b: int): int {
    if b > 0 then -1 else 0
  }

  // The top takes the place of `r`, and is the parent of `r` and `c`.
  ghost function Raised(m: Am, r: AvlNode, c: AvlNode, t: AvlNode, p: AvlNode?): Am {
    WithParent(WithParent(WithChild(WithParent(m, t, p), p, r, t), r, t), c, t)
  }

  lemma RaisedAt(m: Am, r: AvlNode, c: AvlNode, t: AvlNode, p: AvlNode?, x: AvlNode)
    requires r in m && c in m && t in m && x in m && r != c && t != c && t != r && p != r && p != c && p != t
    ensures x in Raised(m, r, c, t, p)
    ensures Raised(m, r, c, t, p)[x] ==
      m[x].(parent := if x == t then p else if x == r || x == c then t else m[x].parent,
            left := if x == p && m[x].left == r then t else m[x].left,
            right := if x == p && m[x].left != r then t else m[x].right)
  {}

  // ---------- do_double_right_pivot ----------

  // A left side that is too high, with its own higher side inside.
  ghost predicate RightFoldable(m: Am, root: AvlNode, r: AvlNode) {
    && Tilted(m, root, r) && m[r].bf == -2 && m[r].left != null && m[r].left in m
    && m[m[r].left].bf == 1 && m[m[r].left].right != null && m[m[r].left].right in m
  }

  // The node below, and the grandchild that becomes the top.
  ghost predicate RightFold(m: Am, r: AvlNode, c: AvlNode, t: AvlNode) {
    r in m && m[r].left == c && c in m && m[c].right == t && t in m && r != c && t != c && t != r
  }

  ghost function FoldRight(m: Am, r: AvlNode, c: AvlNode, t: AvlNode): Am
    requires RightFold(m, r, c, t)
  {
    var v, w, u := m[r], m[c], m[t];
    map x | x in m ::
      if x == t then u.(parent := v.parent, up := v.up, left := c, right := r, lo := v.lo, hi := v.hi, bf := 0, h := v.h)
      else if x == c then w.(right := u.left, parent := t, up := t, hi := u.key, bf := HighSide(u.bf), h := v.h - 1)
      else if x == r then v.(left := u.right, parent := t, up := t, lo := u.key, bf := LowSide(u.bf), h := v.h - 1)
      else if x == u.left then m[x].(up := c)
      else if x == u.right then m[x].(up := r)
      else if x == v.up then (if m[x].left == r then m[x].(left := t) else m[x].(right := t))
      else m[x]
  }

  // The nodes around the rotation are different nodes.
  lemma RightFoldAround(m: Am, root: AvlNode, r: AvlNode)
    requires RightFoldable(m, root, r)
    ensures var c := m[r].left; var t := m[c].right; var a, b, p := m[t].left, m[t].right, m[r].up;
      && RightFold(m, r, c, t) && p != r && p != c && p != t && c != root && t != root && m[c].up == r && m[t].up == c
      && NodeOk(m, root, null, c) && NodeOk(m, root, null, t)
      && (a != null ==> a in m && a != r && a != c && a != t && a != p && m[a].up == t && a != root && NodeOk(m, root, null, a))
      && (b != null ==> b in m && b != r && b != c && b != t && b != p && m[b].up == t && b != root && NodeOk(m, root, null, b))
      && (a != null && b != null ==> a != b)
      && (p == null <==> r == root) && (p != null ==> p in m)
  {
    var c := m[r].left;
    assert NodeOk(m, root, null, c);
    var t := m[c].right;
    assert NodeOk(m, root, null, t);
    var a, b, p := m[t].left, m[t].right, m[r].up;
    if a != null { assert NodeOk(m, root, null, a); }
    if b != null { assert NodeOk(m, root, null, b); }
    if p != null && p != r && p in m { assert NodeOk(m, root, null, p); }
  }

  lemma FoldRightAt(m: Am, root: AvlNode, r: AvlNode, c: AvlNode, t: AvlNode, x: AvlNode)
    requires RightFoldable(m, root, r) && RightFold(m, r, c, t) && x in m && x != r && x != c && x != t
    ensures var m' := FoldRight(m, r, c, t);
      && m'[x] == m[x].(left := m'[x].left, right := m'[x].right, up := m'[x].up)
      && m'[x].up == (if x == m[t].left then c else if x == m[t].right then r else m[x].up)
      && (m'[x].left == if x == m[r].up && m[x].left == r then t else m[x].left)
      && (m'[x].right == if x == m[r].up && m[x].left != r then t else m[x].right)
  {
    RightFoldAround(m, root, r);
  }

  // The three rotated nodes.
  lemma FoldRightThree(m: Am, root: AvlNode, r: AvlNode, c: AvlNode, t: AvlNode)
    requires RightFoldable(m, root, r) && RightFold(m, r, c, t)
    ensures var m', root' := FoldRight(m, r, c, t), if r == root then t else root;
      NodeOk(m', root', null, c) && NodeOk(m', root', null, r) && NodeOk(m', root', null, t) && RootOk(m', root')
  {
    RightFoldAround(m, root, r);
    var e, a, b, d, p := m[c].left, m[t].left, m[t].right, m[r].right, m[r].up;
    if e != null { assert NodeOk(m, root, null, e); FoldRightAt(m, root, r, c, t, e); }
    if a != null { FoldRightAt(m, root, r, c, t, a); }
    if b != null { FoldRightAt(m, root, r, c, t, b); }
    if d != null { assert NodeOk(m, root, null, d); FoldRightAt(m, root, r, c, t, d); }
    if r != root { assert NodeOk(m, root, null, p); FoldRightAt(m, root, r, c, t, p); FoldRightAt(m, root, r, c, t, root); }
  }

  // Any other node: what is above it, and what is below.
  lemma FoldRightUp(m: Am, root: AvlNode, r: AvlNode, c: AvlNode, t: AvlNode, x: AvlNode)
    requires RightFoldable(m, root, r) && RightFold(m, r, c, t) && x in m && x != r && x != c && x != t && x != root
    ensures UpOk(FoldRight(m, r, c, t), x)
  {
    RightFoldAround(m, root, r);
    assert NodeOk(m, root, null, x);
    FoldRightAt(m, root, r, c, t, x);
    var p := m[x].up;
    if p != r && p != c && p != t { FoldRightAt(m, root, r, c, t, p); }
  }

  lemma FoldRightDown(m: Am, root: AvlNode, r: AvlNode, c: AvlNode, t: AvlNode, x: AvlNode)
    requires RightFoldable(m, root, r) && RightFold(m, r, c, t) && x in m && x != r && x != c && x != t
    ensures var m' := FoldRight(m, r, c, t); LeftOk(m', x) && RightOk(m', x) && Balanced(m', null, x)
  {
    RightFoldAround(m, root, r);
    assert NodeOk(m, root, null, x);
    FoldRightAt(m, root, r, c, t, x);
    var a, b := m[x].left, m[x].right;
    if a != null && a != r { assert NodeOk(m, root, null, a); FoldRightAt(m, root, r, c, t, a); }
    if b != null && b != r { assert NodeOk(m, root, null, b); FoldRightAt(m, root, r, c, t, b); }
  }

  lemma FoldRightOther(m: Am, root: AvlNode, r: AvlNode, c: AvlNode, t: AvlNode, x: AvlNode)
    requires RightFoldable(m, root, r) && RightFold(m, r, c, t) && x in m && x != r && x != c && x != t
    ensures NodeOk(FoldRight(m, r, c, t), if r == root then t else root, null, x)
  {
    RightFoldAround(m, root, r);
    assert NodeOk(m, root, null, x);
    FoldRightAt(m, root, r, c, t, x);
    if x != root { FoldRightUp(m, root, r, c, t, x); }
    FoldRightDown(m, root, r, c, t, x);
  }

  lemma FoldRightKeys(m: Am, r: AvlNode, c: AvlNode, t: AvlNode)
    requires RightFold(m, r, c, t)
    ensures SameKeys(m, FoldRight(m, r, c, t)) && FoldRight(m, r, c, t)[t].h == m[r].h
  {}

  // The double rotation mends the tree.
  lemma FoldRightOk(m: Am, root: AvlNode, r: AvlNode, c: AvlNode, t: AvlNode)
    requires RightFoldable(m, root, r) && RightFold(m, r, c, t)
    ensures TreeOk(FoldRight(m, r, c, t), if r == root then t else root)
  {
    var m', root' := FoldRight(m, r, c, t), if r == root then t else root;
    FoldRightThree(m, root, r, c, t);
    forall x | x in m'
      ensures NodeOk(m', root', null, x)
    {
      if x != r && x != c && x != t { FoldRightOther(m, root, r, c, t, x); }
    }
  }

  // The stores into the three nodes, then those around them.
  ghost function RightFoldKids(m: Am, r: AvlNode, c: AvlNode, t: AvlNode): Am
    requires RightFold(m, r, c, t)
  {
    var u := m[t];
    m[c := m[c].(right := u.left, bf := HighSide(u.bf))][r := m[r].(left := u.right, bf := LowSide(u.bf))]
     [t := u.(left := c, right := r, bf := 0)]
  }

  ghost function RightFoldStores(m: Am, r: AvlNode, c: AvlNode, t: AvlNode): Am
    requires RightFold(m, r, c, t)
  {
    Raised(RightFoldKids(m, r, c, t), r, c, t, m[r].parent)
  }

  lemma RightFoldStoresAt(m: Am, root: AvlNode, r: AvlNode, c: AvlNode, t: AvlNode, x: AvlNode)
    requires RightFoldable(m, root, r) && RightFold(m, r, c, t) && x in m
    ensures var m1, w := RightFoldStores(m, r, c, t), FoldRight(m, r, c, t)[x];
      x in m1 && w == m1[x].(up := w.up, lo := w.lo, hi := w.hi, h := w.h)
  {
    RightFoldAround(m, root, r);
    RaisedAt(RightFoldKids(m, r, c, t), r, c, t, m[r].parent, x);
  }

  lemma RightFoldStored(m: Am, root: AvlNode, r: AvlNode, c: AvlNode, t: AvlNode)
    requires RightFoldable(m, root, r) && RightFold(m, r, c, t) && Mirrored(RightFoldStores(m, r, c, t))
    ensures Mirrored(FoldRight(m, r, c, t))
  {
    RightFoldAround(m, root, r);
    var m1, m' := RightFoldStores(m, r, c, t), FoldRight(m, r, c, t);
    forall x {:trigger m'[x]} | x in m'
      ensures x in m1 && m'[x] == m1[x].(up := m'[x].up, lo := m'[x].lo, hi := m'[x].hi, h := m'[x].h)
    {
      RightFoldStoresAt(m, root, r, c, t, x);
    }
    MirroredVia(m1, m');
  }

  method RightFoldBfs(r: AvlNode, lc: AvlNode, np: AvlNode, ghost m: Am) returns (ghost m': Am)
    requires Mirrored(m) && RightFold(m, r, lc, np)
    modifies r, lc, np
    ensures m' == m[r := m[r].(bf := LowSide(m[np].bf))][lc := m[lc].(bf := HighSide(m[np].bf))][np := m[np].(bf := 0)]
    ensures Mirrored(m')
  {
    assert Look(np);
    if np.bf > 0 {
      m' := SetBf(r, 0, m);
      m' := SetBf(lc, -1, m');
    } else if np.bf < 0 {
      m' := SetBf(r, 1, m);
      m' := SetBf(lc, 0, m');
    } else {
      m' := SetBf(r, 0, m);
      m' := SetBf(lc, 0, m');
    }
    m' := SetBf(np, 0, m');
  }

  method RightFoldLinks(r: AvlNode, lc: AvlNode, np: AvlNode, ghost m: Am) returns (ghost m': Am)
    requires Mirrored(m) && RightFold(m, r, lc, np)
    modifies r, lc, np
    ensures m' == m[lc := m[lc].(right := m[np].left)][r := m[r].(left := m[np].right)][np := m[np].(left := lc, right := r)]
    ensures Mirrored(m')
  {
    assert Look(np);
    m' := SetRight(lc, np.left, m);
    m' := SetLeft(np, lc, m');
    assert Look(np);
    m' := SetLeft(r, np.right, m');
    m' := SetRight(np, r, m');
  }

  method RightFoldParents(r: AvlNode, lc: AvlNode, np: AvlNode, ghost m: Am) returns (ghost m': Am)
    requires Mirrored(m) && r in m && lc in m && np in m && np != r && m[r].parent != np && m[r].parent != r
    requires m[r].parent != null ==> m[r].parent in m
    modifies m.Keys
    ensures Mirrored(m')
    ensures m' == Raised(m, r, lc, np, m[r].parent)
  {
    m' := TakePlace(np, r, m);
    m' := SetParent(r, np, m');
    m' := SetParent(lc, np, m');
  }

  /** do_double_right_pivot mends the tree and gives it back the height that was expected. */
  method DoDoubleRightPivot(r: AvlNode, ghost m: Am, ghost root: AvlNode) returns (np: AvlNode, ghost m': Am)
    requires Mirrored(m) && RightFoldable(m, root, r)
    modifies m.Keys
    ensures Mirrored(m') && TreeOk(m', if r == root then np else root) && SameKeys(m, m')
    ensures r != root ==> m'[root].h == m[root].h
    ensures RightFold(m, r, m[r].left, np) && m' == FoldRight(m, r, m[r].left, np)
    ensures np in m && m'[np].h == m[r].h && m'[np].up == m[r].up && m'[np].parent == m[r].parent
  {
    RightFoldAround(m, root, r);
    assert Look(r);
    var lc := r.left;
    assert Look(lc);
    np := lc.right;
    m' := RightFoldBfs(r, lc, np, m);
    m' := RightFoldLinks(r, lc, np, m');
    assert m' == RightFoldKids(m, r, lc, np);
    m' := RightFoldParents(r, lc, np, m');
    RightFoldStored(m, root, r, lc, np);
    FoldRightOk(m, root, r, lc, np);
    FoldRightKeys(m, r, lc, np);
    if r != root { FoldRightAt(m, root, r, lc, np, root); }
    m' := FoldRight(m, r, lc, np);
  }

  // ---------- do_double_left_pivot ----------

  // A right side that is too high, with its own higher side inside.
  ghost predicate LeftFoldable(m: Am, root: AvlNode, r: AvlNode) {
    && Tilted(m, root, r) && m[r].bf == 2 && m[r].right != null && m[r].right in m
    && m[m[r].right].bf == -1 && m[m[r].right].left != null && m[m[r].right].left in m
  }

  // The node below, and the grandchild that becomes the top.
  ghost predicate LeftFold(m: Am, r: AvlNode, c: AvlNode, t: AvlNode) {
    r in m && m[r].right == c && c in m && m[c].left == t && t in m && r != c && t != c && t != r
  }

  ghost function FoldLeft(m: Am, r: AvlNode, c: AvlNode, t: AvlNode): Am
    requires LeftFold(m, r, c, t)
  {
    var v, w, u := m[r], m[c], m[t];
    map x | x in m ::
      if x == t then u.(parent := v.parent, up := v.up, right := c, left := r, hi := v.hi, lo := v.lo, bf := 0, h := v.h)
      else if x == c then w.(left := u.right, parent := t, up := t, lo := u.key, bf := LowSide(u.bf), h := v.h - 1)
      else if x == r then v.(right := u.left, parent := t, up := t, hi := u.key, bf := HighSide(u.bf), h := v.h - 1)
      else if x == u.right then m[x].(up := c)
      else if x == u.left then m[x].(up := r)
      else if x == v.up then (if m[x].left == r then m[x].(left := t) else m[x].(right := t))
      else m[x]
  }

  // The nodes around the rotation are different nodes.
  lemma LeftFoldAround(m: Am, root: AvlNode, r: AvlNode)
    requires LeftFoldable(m, root, r)
    ensures var c := m[r].right; var t := m[c].left; var a, b, p := m[t].right, m[t].left, m[r].up;
      && LeftFold(m, r, c, t) && p != r && p != c && p != t && c != root && t != root && m[c].up == r && m[t].up == c
      && NodeOk(m, root, null, c) && NodeOk(m, root, null, t)
      && (a != null ==> a in m && a != r && a != c && a != t && a != p && m[a].up == t && a != root && NodeOk(m, root, null, a))
      && (b != null ==> b in m && b != r && b != c && b != t && b != p && m[b].up == t && b != root && NodeOk(m, root, null, b))
      && (a != null && b != null ==> a != b)
      && (p == null <==> r == root) && (p != null ==> p in m)
  {
    var c := m[r].right;
    assert NodeOk(m, root, null, c);
    var t := m[c].left;
    assert NodeOk(m, root, null, t);
    var a, b, p := m[t].right, m[t].left, m[r].up;
    if a != null { assert NodeOk(m, root, null, a); }
    if b != null { assert NodeOk(m, root, null, b); }
    if p != null && p != r && p in m { assert NodeOk(m, root, null, p); }
  }

  lemma FoldLeftAt(m: Am, root: AvlNode, r: AvlNode, c: AvlNode, t: AvlNode, x: AvlNode)
    requires LeftFoldable(m, root, r) && LeftFold(m, r, c, t) && x in m && x != r && x != c && x != t
    ensures var m' := FoldLeft(m, r, c, t);
      && m'[x] == m[x].(right := m'[x].right, left := m'[x].left, up := m'[x].up)
      && m'[x].up == (if x == m[t].right then c else if x == m[t].left then r else m[x].up)
      && (m'[x].right == if x == m[r].up && m[x].left != r then t else m[x].right)
      && (m'[x].left == if x == m[r].up && m[x].left == r then t else m[x].left)
  {
    LeftFoldAround(m, root, r);
  }

  // The three rotated nodes.
  lemma FoldLeftThree(m: Am, root: AvlNode, r: AvlNode, c: AvlNode, t: AvlNode)
    requires LeftFoldable(m, root, r) && LeftFold(m, r, c, t)
    ensures var m', root' := FoldLeft(m, r, c, t), if r == root then t else root;
      NodeOk(m', root', null, c) && NodeOk(m', root', null, r) && NodeOk(m', root', null, t) && RootOk(m', root')
  {
    LeftFoldAround(m, root, r);
    var e, a, b, d, p := m[c].right, m[t].right, m[t].left, m[r].left, m[r].up;
    if e != null { assert NodeOk(m, root, null, e); FoldLeftAt(m, root, r, c, t, e); }
    if a != null { FoldLeftAt(m, root, r, c, t, a); }
    if b != null { FoldLeftAt(m, root, r, c, t, b); }
    if d != null { assert NodeOk(m, root, null, d); FoldLeftAt(m, root, r, c, t, d); }
    if r != root { assert NodeOk(m, root, null, p); FoldLeftAt(m, root, r, c, t, p); FoldLeftAt(m, root, r, c, t, root); }
  }

  // Any other node: what is above it, and what is below.
  lemma FoldLeftUp(m: Am, root: AvlNode, r: AvlNode, c: AvlNode, t: AvlNode, x: AvlNode)
    requires LeftFoldable(m, root, r) && LeftFold(m, r, c, t) && x in m && x != r && x != c && x != t && x != root
    ensures UpOk(FoldLeft(m, r, c, t), x)
  {
    LeftFoldAround(m, root, r);
    assert NodeOk(m, root, null, x);
    FoldLeftAt(m, root, r, c, t, x);
    var p := m[x].up;
    if p != r && p != c && p != t { FoldLeftAt(m, root, r, c, t, p); }
  }

  lemma FoldLeftDown(m: Am, root: AvlNode, r: AvlNode, c: AvlNode, t: AvlNode, x: AvlNode)
    requires LeftFoldable(m, root, r) && LeftFold(m, r, c, t) && x in m && x != r && x != c && x != t
    ensures var m' := FoldLeft(m, r, c, t); RightOk(m', x) && LeftOk(m', x) && Balanced(m', null, x)
  {
    LeftFoldAround(m, root, r);
    assert NodeOk(m, root, null, x);
    FoldLeftAt(m, root, r, c, t, x);
    var a, b := m[x].right, m[x].left;
    if a != null && a != r { assert NodeOk(m, root, null, a); FoldLeftAt(m, root, r, c, t, a); }
    if b != null && b != r { assert NodeOk(m, root, null, b); FoldLeftAt(m, root, r, c, t, b); }
  }

  lemma FoldLeftOther(m: Am, root: AvlNode, r: AvlNode, c: AvlNode, t: AvlNode, x: AvlNode)
    requires LeftFoldable(m, root, r) && LeftFold(m, r, c, t) && x in m && x != r && x != c && x != t
    ensures NodeOk(FoldLeft(m, r, c, t), if r == root then t else root, null, x)
  {
    LeftFoldAround(m, root, r);
    assert NodeOk(m, root, null, x);
    FoldLeftAt(m, root, r, c, t, x);
    if x != root { FoldLeftUp(m, root, r, c, t, x); }
    FoldLeftDown(m, root, r, c, t, x);
  }

  lemma FoldLeftKeys(m: Am, r: AvlNode, c: AvlNode, t: AvlNode)
    requires LeftFold(m, r, c, t)
    ensures SameKeys(m, FoldLeft(m, r, c, t)) && FoldLeft(m, r, c, t)[t].h == m[r].h
  {}

  // The double rotation mends the tree.
  lemma FoldLeftOk(m: Am, root: AvlNode, r: AvlNode, c: AvlNode, t: AvlNode)
    requires LeftFoldable(m, root, r) && LeftFold(m, r, c, t)
    ensures TreeOk(FoldLeft(m, r, c, t), if r == root then t else root)
  {
    var m', root' := FoldLeft(m, r, c, t), if r == root then t else root;
    FoldLeftThree(m, root, r, c, t);
    forall x | x in m'
      ensures NodeOk(m', root', null, x)
    {
      if x != r && x != c && x != t { FoldLeftOther(m, root, r, c, t, x); }
    }
  }

  // The stores into the three nodes, then those around them.
  ghost function LeftFoldKids(m: Am, r: AvlNode, c: AvlNode, t: AvlNode): Am
    requires LeftFold(m, r, c, t)
  {
    var u := m[t];
    m[c := m[c].(left := u.right, bf := LowSide(u.bf))][r := m[r].(right := u.left, bf := HighSide(u.bf))]
     [t := u.(right := c, left := r, bf := 0)]
  }

  ghost function LeftFoldStores(m: Am, r: AvlNode, c: AvlNode, t: AvlNode): Am
    requires LeftFold(m, r, c, t)
  {
    Raised(LeftFoldKids(m, r, c, t), r, c, t, m[r].parent)
  }

  lemma LeftFoldStoresAt(m: Am, root: AvlNode, r: AvlNode, c: AvlNode, t: AvlNode, x: AvlNode)
    requires LeftFoldable(m, root, r) && LeftFold(m, r, c, t) && x in m
    ensures var m1, w := LeftFoldStores(m, r, c, t), FoldLeft(m, r, c, t)[x];
      x in m1 && w == m1[x].(up := w.up, lo := w.lo, hi := w.hi, h := w.h)
  {
    LeftFoldAround(m, root, r);
    RaisedAt(LeftFoldKids(m, r, c, t), r, c, t, m[r].parent, x);
  }

  lemma LeftFoldStored(m: Am, root: AvlNode, r: AvlNode, c: AvlNode, t: AvlNode)
    requires LeftFoldable(m, root, r) && LeftFold(m, r, c, t) && Mirrored(LeftFoldStores(m, r, c, t))
    ensures Mirrored(FoldLeft(m, r, c, t))
  {
    LeftFoldAround(m, root, r);
    var m1, m' := LeftFoldStores(m, r, c, t), FoldLeft(m, r, c, t);
    forall x {:trigger m'[x]} | x in m'
      ensures x in m1 && m'[x] == m1[x].(up := m'[x].up, lo := m'[x].lo, hi := m'[x].hi, h := m'[x].h)
    {
      LeftFoldStoresAt(m, root, r, c, t, x);
    }
    MirroredVia(m1, m');
  }

  method LeftFoldBfs(r: AvlNode, rc: AvlNode, np: AvlNode, ghost m: Am) returns (ghost m': Am)
    requires Mirrored(m) && LeftFold(m, r, rc, np)
    modifies r, rc, np
    ensures m' == m[r := m[r].(bf := HighSide(m[np].bf))][rc := m[rc].(bf := LowSide(m[np].bf))][np := m[np].(bf := 0)]
    ensures Mirrored(m')
  {
    assert Look(np);
    if np.bf < 0 {
      m' := SetBf(r, 0, m);
      m' := SetBf(rc, 1, m');
    } else if np.bf > 0 {
      m' := SetBf(r, -1, m);
      m' := SetBf(rc, 0, m');
    } else {
      m' := SetBf(r, 0, m);
      m' := SetBf(rc, 0, m');
    }
    m' := SetBf(np, 0, m');
  }

  method LeftFoldLinks(r: AvlNode, rc: AvlNode, np: AvlNode, ghost m: Am) returns (ghost m': Am)
    requires Mirrored(m) && LeftFold(m, r, rc, np)
    modifies r, rc, np
    ensures m' == m[rc := m[rc].(left := m[np].right)][r := m[r].(right := m[np].left)][np := m[np].(right := rc, left := r)]
    ensures Mirrored(m')
  {
    assert Look(np);
    m' := SetLeft(rc, np.right, m);
    m' := SetRight(np, rc, m');
    assert Look(np);
    m' := SetRight(r, np.left, m');
    m' := SetLeft(np, r, m');
  }

  method LeftFoldParents(r: AvlNode, rc: AvlNode, np: AvlNode, ghost m: Am) returns (ghost m': Am)
    requires Mirrored(m) && r in m && rc in m && np in m && np != r && m[r].parent != np && m[r].parent != r
    requires m[r].parent != null ==> m[r].parent in m
    modifies m.Keys
    ensures Mirrored(m')
    ensures m' == Raised(m, r, rc, np, m[r].parent)
  {
    m' := TakePlace(np, r, m);
    m' := SetParent(r, np, m');
    m' := SetParent(rc, np, m');
  }

  /** do_double_left_pivot mends the tree and gives it back the height that was expected. */
  method DoDoubleLeftPivot(r: AvlNode, ghost m: Am, ghost root: AvlNode) returns (np: AvlNode, ghost m': Am)
    requires Mirrored(m) && LeftFoldable(m, root, r)
    modifies m.Keys
    ensures Mirrored(m') && TreeOk(m', if r == root then np else root) && SameKeys(m, m')
    ensures r != root ==> m'[root].h == m[root].h
    ensures LeftFold(m, r, m[r].right, np) && m' == FoldLeft(m, r, m[r].right, np)
    ensures np in m && m'[np].h == m[r].h && m'[np].up == m[r].up && m'[np].parent == m[r].parent
  {
    LeftFoldAround(m, root, r);
    assert Look(r);
    var rc := r.right;
    assert Look(rc);
    np := rc.left;
    m' := LeftFoldBfs(r, rc, np, m);
    m' := LeftFoldLinks(r, rc, np, m');
    assert m' == LeftFoldKids(m, r, rc, np);
    m' := LeftFoldParents(r, rc, np, m');
    LeftFoldStored(m, root, r, rc, np);
    FoldLeftOk(m, root, r, rc, np);
    FoldLeftKeys(m, r, rc, np);
    if r != root { FoldLeftAt(m, root, r, rc, np, root); }
    m' := FoldLeft(m, r, rc, np);
  }

  // ---------- Stale parent links ----------

  ghost predicate TrueParent(m: Am, x: AvlNode)
    requires x in m
  {
    m[x].parent == m[x].up
  }

  ghost predicate ParentsTrue(m: Am) {
    forall x {:trigger TrueParent(m, x)} :: x in m ==> TrueParent(m, x)
  }

  /** A double rotation keeps all parent links right exactly if the node that rises had no children. */
  lemma FoldRightParents(m: Am, root: AvlNode, r: AvlNode, c: AvlNode, t: AvlNode)
    requires RightFoldable(m, root, r) && RightFold(m, r, c, t) && ParentsTrue(m)
    ensures ParentsTrue(FoldRight(m, r, c, t)) <==> m[t].left == null && m[t].right == null
  {
    var m', a, b := FoldRight(m, r, c, t), m[t].left, m[t].right;
    RightFoldAround(m, root, r);
    if a != null {
      FoldRightAt(m, root, r, c, t, a);
      assert TrueParent(m, a) && !TrueParent(m', a);
    } else if b != null {
      FoldRightAt(m, root, r, c, t, b);
      assert TrueParent(m, b) && !TrueParent(m', b);
    } else {
      forall x | x in m'
        ensures TrueParent(m', x)
      {
        assert TrueParent(m, x) && TrueParent(m, r);
        if x != r && x != c && x != t { FoldRightAt(m, root, r, c, t, x); }
      }
    }
  }

  /** A double rotation keeps all parent links right exactly if the node that rises had no children. */
  lemma FoldLeftParents(m: Am, root: AvlNode, r: AvlNode, c: AvlNode, t: AvlNode)
    requires LeftFoldable(m, root, r) && LeftFold(m, r, c, t) && ParentsTrue(m)
    ensures ParentsTrue(FoldLeft(m, r, c, t)) <==> m[t].left == null && m[t].right == null
  {
    var m', a, b := FoldLeft(m, r, c, t), m[t].right, m[t].left;
    LeftFoldAround(m, root, r);
    if a != null {
      FoldLeftAt(m, root, r, c, t, a);
      assert TrueParent(m, a) && !TrueParent(m', a);
    } else if b != null {
      FoldLeftAt(m, root, r, c, t, b);
      assert TrueParent(m, b) && !TrueParent(m', b);
    } else {
      forall x | x in m'
        ensures TrueParent(m', x)
      {
        assert TrueParent(m, x) && TrueParent(m, r);
        if x != r && x != c && x != t { FoldLeftAt(m, root, r, c, t, x); }
      }
    }
  }
}
