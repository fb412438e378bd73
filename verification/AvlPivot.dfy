/** The four rotations of the AVL tree. */
module AvlPivot {
  import opened AvlTree

  // ---------- Stores ----------

  method SetLeft(n: AvlNode, x: AvlNode?, ghost m: Am) returns (ghost m': Am)
    requires Mirrored(m) && n in m
    modifies n
    ensures m' == m[n := m[n].(left := x)] && Mirrored(m')
  {
    assert Look(n);
    n.left := x;
    m' := m[n := m[n].(left := x)];
  }

  method SetRight(n: AvlNode, x: AvlNode?, ghost m: Am) returns (ghost m': Am)
    requires Mirrored(m) && n in m
    modifies n
    ensures m' == m[n := m[n].(right := x)] && Mirrored(m')
  {
    assert Look(n);
    n.right := x;
    m' := m[n := m[n].(right := x)];
  }

  method SetBf(n: AvlNode, b: int, ghost m: Am) returns (ghost m': Am)
    requires Mirrored(m) && n in m
    modifies n
    ensures m' == m[n := m[n].(bf := b)] && Mirrored(m')
  {
    assert Look(n);
    n.bf := b;
    m' := m[n := m[n].(bf := b)];
  }

  ghost function WithParent(m: Am, n: AvlNode?, p: AvlNode?): Am {
    if n != null && n in m then m[n := m[n].(parent := p)] else m
  }

  method SetParent(n: AvlNode?, p: AvlNode?, ghost m: Am) returns (ghost m': Am)
    requires Mirrored(m) && (n != null ==> n in m)
    modifies if n == null then {} else {n}
    ensures m' == WithParent(m, n, p) && Mirrored(m')
  {
    m' := m;
    if n != null {
      assert Look(n);
      n.parent := p;
      m' := m[n := m[n].(parent := p)];
    }
  }

  ghost function WithChild(m: Am, p: AvlNode?, old_: AvlNode, new_: AvlNode): Am {
    if p != null && p in m then
      m[p := if m[p].left == old_ then m[p].(left := new_) else m[p].(right := new_)]
    else m
  }

  // A node takes the place of `r` below its parent.
  method TakePlace(c: AvlNode, r: AvlNode, ghost m: Am) returns (ghost m': Am)
    requires Mirrored(m) && c in m && r in m && c != r && m[r].parent != c && m[r].parent != r
    requires m[r].parent != null ==> m[r].parent in m
    modifies c, if m[r].parent == null then {} else {m[r].parent}
    ensures m' == WithChild(WithParent(m, c, m[r].parent), m[r].parent, r, c) && Mirrored(m')
  {
    assert Look(r);
    var p := r.parent;
    m' := SetParent(c, p, m);
    if p != null {
      assert Look(p);
      if p.left == r {
        m' := SetLeft(p, c, m');
      } else {
        m' := SetRight(p, c, m');
      }
    }
  }

  // Only what is stored is mirrored; the rest can be restated at any time.
  ghost predicate SameStored(m: Am, m': Am) {
    && m'.Keys <= m.Keys
    && forall n {:trigger m'[n]} :: n in m' ==>
      m'[n] == m[n].(up := m'[n].up, lo := m'[n].lo, hi := m'[n].hi, h := m'[n].h)
  }

  lemma MirroredVia(m: Am, m': Am)
    requires Mirrored(m) && SameStored(m, m')
    ensures Mirrored(m')
  {
    assert forall n: AvlNode :: n in m' ==>
      Look(n) && m'[n] == m[n].(up := m'[n].up, lo := m'[n].lo, hi := m'[n].hi, h := m'[n].h);
  }

  /** A tree whose only fault is at `q`: one side is two higher, and its recorded height is the one that the
      node above still expects. */
  ghost predicate Tilted(m: Am, root: AvlNode, q: AvlNode) {
    && RootOk(m, root) && q in m && ShapeOk(m, root, q) && m[q].parent == m[q].up
    && m[q].bf == Height(m, m[q].right, null) - Height(m, m[q].left, null) && (m[q].bf == 2 || m[q].bf == -2)
    && m[q].h == Max(Height(m, m[q].left, null), Height(m, m[q].right, null))
    && (forall n {:trigger NodeOk(m, root, null, n)} :: n in m && n != q ==> NodeOk(m, root, null, n))
  }

  ghost predicate SameKeys(m: Am, m': Am) {
    m'.Keys == m.Keys && forall n {:trigger m'[n]} :: n in m ==> m'[n].key == m[n].key
  }

  // ---------- do_right_pivot ----------

  // A left side that is too high, with its own higher side outside.
  ghost predicate RightTurnable(m: Am, root: AvlNode, r: AvlNode) {
    Tilted(m, root, r) && m[r].bf == -2 && m[r].left != null && m[r].left in m && m[m[r].left].bf == -1
  }

  ghost function TurnRight(m: Am, r: AvlNode): Am
    requires r in m && m[r].left != null && m[r].left in m
  {
    var v, c := m[r], m[r].left;
    var w := m[c];
    map x | x in m ::
      if x == c then w.(parent := v.parent, up := v.up, right := r, hi := v.hi, bf := 0, h := v.h)
      else if x == r then v.(left := w.right, parent := c, up := c, lo := w.key, bf := 0, h := v.h - 1)
      else if x == w.right then m[x].(parent := r, up := r)
      else if x == v.up then (if m[x].left == r then m[x].(left := c) else m[x].(right := c))
      else m[x]
  }

  // The nodes around the rotation are different nodes, linked both ways.
  lemma RightAround(m: Am, root: AvlNode, r: AvlNode)
    requires RightTurnable(m, root, r)
    ensures var c := m[r].left; var b := m[c].right;
      && c != r && m[r].up != r && m[r].up != c && c != root && m[c].up == r
      && NodeOk(m, root, null, c)
      && (b != null ==> b in m && b != r && b != c && b != m[r].up && m[b].up == c && b != root && NodeOk(m, root, null, b))
      && (m[r].up == null <==> r == root) && (m[r].up != null ==> m[r].up in m)
  {
    var c := m[r].left;
    assert NodeOk(m, root, null, c);
    var b, p := m[c].right, m[r].up;
    if b != null { assert NodeOk(m, root, null, b); }
    if p != null && p != r && p in m { assert NodeOk(m, root, null, p); }
  }

  lemma TurnRightAt(m: Am, root: AvlNode, r: AvlNode, x: AvlNode)
    requires RightTurnable(m, root, r) && x in m && x != r && x != m[r].left
    ensures var c, m' := m[r].left, TurnRight(m, r);
      && m'[x] == m[x].(left := m'[x].left, right := m'[x].right, parent := m'[x].parent, up := m'[x].up)
      && m'[x].up == (if x == m[c].right then r else m[x].up) && (x != m[c].right ==> m'[x].parent == m[x].parent)
      && (m'[x].left == if x == m[r].up && m[x].left == r then c else m[x].left)
      && (m'[x].right == if x == m[r].up && m[x].left != r then c else m[x].right)
  {
    RightAround(m, root, r);
  }

  // The two rotated nodes.
  lemma TurnRightPair(m: Am, root: AvlNode, r: AvlNode)
    requires RightTurnable(m, root, r)
    ensures var c, m' := m[r].left, TurnRight(m, r); var root' := if r == root then c else root;
      NodeOk(m', root', null, c) && NodeOk(m', root', null, r) && RootOk(m', root')
  {
    RightAround(m, root, r);
    var c := m[r].left;
    var a, b, d, p := m[c].left, m[c].right, m[r].right, m[r].up;
    if a != null { assert NodeOk(m, root, null, a); TurnRightAt(m, root, r, a); }
    if b != null { TurnRightAt(m, root, r, b); }
    if d != null { assert NodeOk(m, root, null, d); TurnRightAt(m, root, r, d); }
    if r != root { assert NodeOk(m, root, null, p); TurnRightAt(m, root, r, p); TurnRightAt(m, root, r, root); }
  }

  lemma TurnRightOther(m: Am, root: AvlNode, r: AvlNode, x: AvlNode)
    requires RightTurnable(m, root, r) && x in m && x != r && x != m[r].left
    ensures var c, m' := m[r].left, TurnRight(m, r); var root' := if r == root then c else root;
      NodeOk(m', root', null, x)
  {
    RightAround(m, root, r);
    assert NodeOk(m, root, null, x);
    TurnRightAt(m, root, r, x);
    var c, a, b, p := m[r].left, m[x].left, m[x].right, m[x].up;
    if a != null && a != r { assert NodeOk(m, root, null, a); TurnRightAt(m, root, r, a); }
    if b != null && b != r { assert NodeOk(m, root, null, b); TurnRightAt(m, root, r, b); }
    if x != root && p != r && p != c { TurnRightAt(m, root, r, p); }
  }

  lemma TurnRightKeys(m: Am, r: AvlNode)
    requires r in m && m[r].left != null && m[r].left in m && m[r].left != r
    ensures SameKeys(m, TurnRight(m, r)) && TurnRight(m, r)[m[r].left].h == m[r].h
  {}

  // A right rotation mends the tree.
  lemma TurnRightOk(m: Am, root: AvlNode, r: AvlNode)
    requires RightTurnable(m, root, r)
    ensures TreeOk(TurnRight(m, r), if r == root then m[r].left else root)
  {
    var c, m' := m[r].left, TurnRight(m, r);
    var root' := if r == root then c else root;
    TurnRightPair(m, root, r);
    forall x | x in m'
      ensures NodeOk(m', root', null, x)
    {
      if x != r && x != c { TurnRightOther(m, root, r, x); }
    }
  }

  ghost function HungRight(m: Am, r: AvlNode, c: AvlNode): Am
    requires r in m && c in m && c != r
  {
    m[r := m[r].(parent := c, bf := 0)][c := m[c].(right := r, bf := 0)]
  }

  ghost function RightStores(m: Am, r: AvlNode): Am
    requires r in m && m[r].left != null && m[r].left in m && m[r].left != r
  {
    var p, c, b := m[r].parent, m[r].left, m[m[r].left].right;
    var m1 := WithChild(WithParent(m, c, p), p, r, c);
    var m2 := WithParent(m1[r := m1[r].(left := b)], b, r);
    HungRight(m2, r, c)
  }

  lemma RightStored(m: Am, root: AvlNode, r: AvlNode)
    requires RightTurnable(m, root, r) && m[r].left != r && Mirrored(RightStores(m, r))
    ensures Mirrored(TurnRight(m, r))
  {
    RightAround(m, root, r);
    MirroredVia(RightStores(m, r), TurnRight(m, r));
  }

  method RightRelink(r: AvlNode, ghost m: Am) returns (lc: AvlNode, ghost m': Am)
    requires Mirrored(m) && r in m && m[r].left != null && m[r].left in m && m[r].left != r
    requires var c, p := m[r].left, m[r].parent;
      p != r && p != c && (p != null ==> p in m)
      && (m[c].right != null ==> m[c].right != r && m[c].right != p && m[c].right != c && m[c].right in m)
    modifies m.Keys
    ensures lc == m[r].left && m' == RightStores(m, r) && Mirrored(m')
  {
    assert Look(r);
    lc := r.left;
    assert Look(lc);
    var b := lc.right;
    m' := TakePlace(lc, r, m);
    m' := SetLeft(r, b, m');
    m' := SetParent(b, r, m');
    m' := HangRight(r, lc, m');
  }

  method HangRight(r: AvlNode, lc: AvlNode, ghost m: Am) returns (ghost m': Am)
    requires Mirrored(m) && r in m && lc in m && lc != r
    modifies r, lc
    ensures m' == HungRight(m, r, lc) && Mirrored(m')
  {
    m' := SetParent(r, lc, m);
    m' := SetRight(lc, r, m');
    m' := SetBf(lc, 0, m');
    m' := SetBf(r, 0, m');
  }

  /** do_right_pivot mends the tree and gives it back the height that was expected. */
  method DoRightPivot(r: AvlNode, ghost m: Am, ghost root: AvlNode) returns (lc: AvlNode, ghost m': Am)
    requires Mirrored(m) && RightTurnable(m, root, r)
    modifies m.Keys
    ensures Mirrored(m') && TreeOk(m', if r == root then lc else root) && SameKeys(m, m')
    ensures r != root ==> m'[root].h == m[root].h
    ensures m' == TurnRight(m, r)
    ensures lc in m && m'[lc].h == m[r].h && m'[lc].up == m[r].up && m'[lc].parent == m[r].parent
  {
    RightAround(m, root, r);
    lc, m' := RightRelink(r, m);
    RightStored(m, root, r);
    TurnRightOk(m, root, r);
    TurnRightKeys(m, r);
    if r != root { TurnRightAt(m, root, r, root); }
    m' := TurnRight(m, r);
  }

  // ---------- do_left_pivot ----------

  // A right side that is too high, with its own higher side outside.
  ghost predicate LeftTurnable(m: Am, root: AvlNode, r: AvlNode) {
    Tilted(m, root, r) && m[r].bf == 2 && m[r].right != null && m[r].right in m && m[m[r].right].bf == 1
  }

  ghost function TurnLeft(m: Am, r: AvlNode): Am
    requires r in m && m[r].right != null && m[r].right in m
  {
    var v, c := m[r], m[r].right;
    var w := m[c];
    map x | x in m ::
      if x == c then w.(parent := v.parent, up := v.up, left := r, lo := v.lo, bf := 0, h := v.h)
      else if x == r then v.(right := w.left, parent := c, up := c, hi := w.key, bf := 0, h := v.h - 1)
      else if x == w.left then m[x].(parent := r, up := r)
      else if x == v.up then (if m[x].left == r then m[x].(left := c) else m[x].(right := c))
      else m[x]
  }

  // The nodes around the rotation are different nodes, linked both ways.
  lemma LeftAround(m: Am, root: AvlNode, r: AvlNode)
    requires LeftTurnable(m, root, r)
    ensures var c := m[r].right; var b := m[c].left;
      && c != r && m[r].up != r && m[r].up != c && c != root && m[c].up == r
      && NodeOk(m, root, null, c)
      && (b != null ==> b in m && b != r && b != c && b != m[r].up && m[b].up == c && b != root && NodeOk(m, root, null, b))
      && (m[r].up == null <==> r == root) && (m[r].up != null ==> m[r].up in m)
  {
    var c := m[r].right;
    assert NodeOk(m, root, null, c);
    var b, p := m[c].left, m[r].up;
    if b != null { assert NodeOk(m, root, null, b); }
    if p != null && p != r && p in m { assert NodeOk(m, root, null, p); }
  }

  lemma TurnLeftAt(m: Am, root: AvlNode, r: AvlNode, x: AvlNode)
    requires LeftTurnable(m, root, r) && x in m && x != r && x != m[r].right
    ensures var c, m' := m[r].right, TurnLeft(m, r);
      && m'[x] == m[x].(right := m'[x].right, left := m'[x].left, parent := m'[x].parent, up := m'[x].up)
      && m'[x].up == (if x == m[c].left then r else m[x].up) && (x != m[c].left ==> m'[x].parent == m[x].parent)
      && (m'[x].right == if x == m[r].up && m[x].left != r then c else m[x].right)
      && (m'[x].left == if x == m[r].up && m[x].left == r then c else m[x].left)
  {
    LeftAround(m, root, r);
  }

  // The two rotated nodes.
  lemma TurnLeftPair(m: Am, root: AvlNode, r: AvlNode)
    requires LeftTurnable(m, root, r)
    ensures var c, m' := m[r].right, TurnLeft(m, r); var root' := if r == root then c else root;
      NodeOk(m', root', null, c) && NodeOk(m', root', null, r) && RootOk(m', root')
  {
    LeftAround(m, root, r);
    var c := m[r].right;
    var a, b, d, p := m[c].right, m[c].left, m[r].left, m[r].up;
    if a != null { assert NodeOk(m, root, null, a); TurnLeftAt(m, root, r, a); }
    if b != null { TurnLeftAt(m, root, r, b); }
    if d != null { assert NodeOk(m, root, null, d); TurnLeftAt(m, root, r, d); }
    if r != root { assert NodeOk(m, root, null, p); TurnLeftAt(m, root, r, p); TurnLeftAt(m, root, r, root); }
  }

  lemma TurnLeftOther(m: Am, root: AvlNode, r: AvlNode, x: AvlNode)
    requires LeftTurnable(m, root, r) && x in m && x != r && x != m[r].right
    ensures var c, m' := m[r].right, TurnLeft(m, r); var root' := if r == root then c else root;
      NodeOk(m', root', null, x)
  {
    LeftAround(m, root, r);
    assert NodeOk(m, root, null, x);
    TurnLeftAt(m, root, r, x);
    var c, a, b, p := m[r].right, m[x].right, m[x].left, m[x].up;
    if a != null && a != r { assert NodeOk(m, root, null, a); TurnLeftAt(m, root, r, a); }
    if b != null && b != r { assert NodeOk(m, root, null, b); TurnLeftAt(m, root, r, b); }
    if x != root && p != r && p != c { TurnLeftAt(m, root, r, p); }
  }

  lemma TurnLeftKeys(m: Am, r: AvlNode)
    requires r in m && m[r].right != null && m[r].right in m && m[r].right != r
    ensures SameKeys(m, TurnLeft(m, r)) && TurnLeft(m, r)[m[r].right].h == m[r].h
  {}

  // A left rotation mends the tree.
  lemma TurnLeftOk(m: Am, root: AvlNode, r: AvlNode)
    requires LeftTurnable(m, root, r)
    ensures TreeOk(TurnLeft(m, r), if r == root then m[r].right else root)
  {
    var c, m' := m[r].right, TurnLeft(m, r);
    var root' := if r == root then c else root;
    TurnLeftPair(m, root, r);
    forall x | x in m'
      ensures NodeOk(m', root', null, x)
    {
      if x != r && x != c { TurnLeftOther(m, root, r, x); }
    }
  }

  ghost function HungLeft(m: Am, r: AvlNode, c: AvlNode): Am
    requires r in m && c in m && c != r
  {
    m[r := m[r].(parent := c, bf := 0)][c := m[c].(left := r, bf := 0)]
  }

  ghost function LeftStores(m: Am, r: AvlNode): Am
    requires r in m && m[r].right != null && m[r].right in m && m[r].right != r
  {
    var p, c, b := m[r].parent, m[r].right, m[m[r].right].left;
    var m1 := WithChild(WithParent(m, c, p), p, r, c);
    var m2 := WithParent(m1[r := m1[r].(right := b)], b, r);
    HungLeft(m2, r, c)
  }

  lemma LeftStored(m: Am, root: AvlNode, r: AvlNode)
    requires LeftTurnable(m, root, r) && m[r].right != r && Mirrored(LeftStores(m, r))
    ensures Mirrored(TurnLeft(m, r))
  {
    LeftAround(m, root, r);
    MirroredVia(LeftStores(m, r), TurnLeft(m, r));
  }

  method LeftRelink(r: AvlNode, ghost m: Am) returns (rc: AvlNode, ghost m': Am)
    requires Mirrored(m) && r in m && m[r].right != null && m[r].right in m && m[r].right != r
    requires var c, p := m[r].right, m[r].parent;
      p != r && p != c && (p != null ==> p in m)
      && (m[c].left != null ==> m[c].left != r && m[c].left != p && m[c].left != c && m[c].left in m)
    modifies m.Keys
    ensures rc == m[r].right && m' == LeftStores(m, r) && Mirrored(m')
  {
    assert Look(r);
    rc := r.right;
    assert Look(rc);
    var b := rc.left;
    m' := TakePlace(rc, r, m);
    m' := SetRight(r, b, m');
    m' := SetParent(b, r, m');
    m' := HangLeft(r, rc, m');
  }

  method HangLeft(r: AvlNode, rc: AvlNode, ghost m: Am) returns (ghost m': Am)
    requires Mirrored(m) && r in m && rc in m && rc != r
    modifies r, rc
    ensures m' == HungLeft(m, r, rc) && Mirrored(m')
  {
    m' := SetParent(r, rc, m);
    m' := SetLeft(rc, r, m');
    m' := SetBf(rc, 0, m');
    m' := SetBf(r, 0, m');
  }

  /** do_left_pivot mends the tree and gives it back the height that was expected. */
  method DoLeftPivot(r: AvlNode, ghost m: Am, ghost root: AvlNode) returns (rc: AvlNode, ghost m': Am)
    requires Mirrored(m) && LeftTurnable(m, root, r)
    modifies m.Keys
    ensures Mirrored(m') && TreeOk(m', if r == root then rc else root) && SameKeys(m, m')
    ensures r != root ==> m'[root].h == m[root].h
    ensures m' == TurnLeft(m, r)
    ensures rc in m && m'[rc].h == m[r].h && m'[rc].up == m[r].up && m'[rc].parent == m[r].parent
  {
    LeftAround(m, root, r);
    rc, m' := LeftRelink(r, m);
    LeftStored(m, root, r);
    TurnLeftOk(m, root, r);
    TurnLeftKeys(m, r);
    if r != root { TurnLeftAt(m, root, r, root); }
    m' := TurnLeft(m, r);
  }
}
