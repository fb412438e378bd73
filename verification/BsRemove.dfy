/** Removal from the binary search tree. */
module BsRemove {
  import opened BsTree

  // Bounds that were the key of the removed node are moved.
  ghost function Rebound(w: Bs, k: int, lo: int, hi: int): Bs {
    w.(lo := if w.lo == k then lo else w.lo, hi := if w.hi == k then hi else w.hi)
  }

  // The links around a node, and the nodes that they lead to.
  lemma Near(m: Bsm, root: BstNode, x: BstNode)
    requires TreeOk(m, root) && x in m
    ensures NodeOk(m, root, x) && m[x].parent != x && m[x].left != x && m[x].right != x
    ensures m[x].left != null ==> m[x].left in m && m[x].left != root && NodeOk(m, root, m[x].left) && m[x].left != m[x].right
    ensures m[x].right != null ==> m[x].right in m && m[x].right != root && NodeOk(m, root, m[x].right)
    ensures m[x].parent == null <==> x == root
    ensures x != root ==> m[x].parent in m && NodeOk(m, root, m[x].parent)
    ensures m[x].parent != null ==> m[x].parent != m[x].left && m[x].parent != m[x].right
  {
    assert NodeOk(m, root, x);
    var a, b, p := m[x].left, m[x].right, m[x].parent;
    if a != null { assert NodeOk(m, root, a); }
    if b != null { assert NodeOk(m, root, b); }
    if p != null && p in m { assert NodeOk(m, root, p); }
  }

  // ---------- A node with at most one child ----------

  // Its child takes its place.
  ghost function Spliced(m: Bsm, v: BstNode, c: BstNode?): Bsm
    requires v in m
  {
    var p := m[v].parent;
    map x | x in m && x != v ::
      var w := Rebound(m[x], m[v].key, m[v].lo, m[v].hi);
      if x == c then w.(parent := p)
      else if x == p then (if w.left == v then w.(left := c) else w.(right := c))
      else w
  }

  ghost predicate OneChild(m: Bsm, root: BstNode, v: BstNode, c: BstNode?) {
    TreeOk(m, root) && v in m && ((m[v].left == null && c == m[v].right) || (m[v].right == null && c == m[v].left))
  }

  // No other range begins or ends at the key, but on the side of the child.
  lemma NoBound(m: Bsm, root: BstNode, v: BstNode, x: BstNode)
    requires TreeOk(m, root) && v in m && x in m
    ensures m[v].right == null ==> m[x].lo != m[v].key
    ensures m[v].left == null ==> m[x].hi != m[v].key
  {
    if m[x].lo == m[v].key { LeastRight(m, root, v, x); }
    if m[x].hi == m[v].key { EndLeft(m, root, v, x); }
  }

  lemma {:induction false} EndLeft(m: Bsm, root: BstNode, v: BstNode, x: BstNode)
    requires TreeOk(m, root) && v in m && x in m && m[x].hi == m[v].key
    ensures m[v].left != null
    decreases SIZE_MAX + 2 - (m[x].hi - m[x].lo)
  {
    assert NodeOk(m, root, x) && NodeOk(m, root, v);
    var u := m[x].parent;
    assert NodeOk(m, root, u);
    if m[u].right == x {
      EndLeft(m, root, v, u);
    } else {
      OneNode(m, root, u, v);
    }
  }

  lemma SplicedAt(m: Bsm, root: BstNode, v: BstNode, c: BstNode?, x: BstNode)
    requires OneChild(m, root, v, c) && x in m && x != v
    ensures var m', p := Spliced(m, v, c), m[v].parent;
      && m'[x] == Rebound(m[x], m[v].key, m[v].lo, m[v].hi).(left := m'[x].left, right := m'[x].right, parent := m'[x].parent)
      && m'[x].parent == (if x == c then p else m[x].parent)
      && m'[x].left == (if x == p && m[x].left == v then c else m[x].left)
      && m'[x].right == (if x == p && m[x].left != v then c else m[x].right)
      && m[x].key != m[v].key
  {
    Near(m, root, v);
    if m[x].key == m[v].key { OneNode(m, root, x, v); }
  }

  lemma SplicedNode(m: Bsm, root: BstNode, v: BstNode, c: BstNode?, root': BstNode, x: BstNode)
    requires OneChild(m, root, v, c) && x in m && x != v && root' == if v == root then c else root
    ensures NodeOk(Spliced(m, v, c), root', x)
  {
    Near(m, root, v);
    Near(m, root, x);
    NoBound(m, root, v, x);
    SplicedAt(m, root, v, c, x);
    var a, b, p := m[x].left, m[x].right, m[x].parent;
    if a != null && a != v { SplicedAt(m, root, v, c, a); }
    if b != null && b != v { SplicedAt(m, root, v, c, b); }
    if p != null && p != v { SplicedAt(m, root, v, c, p); }
    if c != null { SplicedAt(m, root, v, c, c); }
    if x == c && v != root { SplicedAt(m, root, v, c, m[v].parent); }
  }

  lemma SplicedOk(m: Bsm, root: BstNode, v: BstNode, c: BstNode?)
    requires OneChild(m, root, v, c)
    ensures v == root && c == null ==> Spliced(m, v, c) == map[]
    ensures v == root && c != null ==> TreeOk(Spliced(m, v, c), c)
    ensures v != root ==> TreeOk(Spliced(m, v, c), root)
  {
    var m' := Spliced(m, v, c);
    Near(m, root, v);
    if v == root && c == null {
      forall x | x in m
        ensures x == v
      {
        Alone(m, v, x);
      }
    } else {
      var root': BstNode := if v == root then c else root;
      forall x | x in m'
        ensures NodeOk(m', root', x)
      {
        SplicedNode(m, root, v, c, root', x);
      }
      SplicedAt(m, root, v, c, root');
      NoBound(m, root, v, root');
    }
  }

  // A root without children has no other nodes below it.
  lemma Alone(m: Bsm, root: BstNode, x: BstNode)
    requires TreeOk(m, root) && m[root].left == null && m[root].right == null && x in m
    ensures x == root
  {
    assert NodeOk(m, root, x) && NodeOk(m, root, root);
    FindFrom(m, root, x, m[x].key);
  }

  // ---------- A node with two children ----------

  // The least node on its right takes its place.
  ghost function Swapped(m: Bsm, v: BstNode, s: BstNode): Bsm
    requires v in m && s in m
  {
    var p, sp, sr, k := m[v].parent, m[s].parent, m[s].right, m[s].key;
    map x | x in m && x != v ::
      if x == s then Bs(m[v].left, if sp == v then sr else m[v].right, p, k, m[v].lo, m[v].hi)
      else
        Rebound(m[x], m[v].key, k, k).(
          left := if x == sp then sr else if x == p && m[x].left == v then s else m[x].left,
          right := if x == p && m[x].left != v then s else m[x].right,
          parent := if x == m[v].left || x == m[v].right then s else if x == sr && sp != v then sp else m[x].parent)
  }

  ghost predicate TwoChildren(m: Bsm, root: BstNode, v: BstNode, s: BstNode) {
    && TreeOk(m, root) && v in m && m[v].left != null && m[v].right != null && m[v].right in m
    && s == Least(m, root, m[v].right)
  }

  // Where the least node hangs.
  lemma LeastSpot(m: Bsm, root: BstNode, v: BstNode, s: BstNode)
    requires TwoChildren(m, root, v, s)
    ensures s in m && s != v && s != root && m[s].left == null && m[s].lo == m[v].key && m[s].parent != null && m[s].parent in m
    ensures m[s].parent == v <==> s == m[v].right
    ensures m[s].parent != v ==> m[m[s].parent].left == s
    ensures m[v].parent != s && m[v].parent != m[s].parent && m[v].left != s && m[v].left != m[s].parent
    ensures m[s].right != null ==>
      m[s].right != v && m[s].right != m[v].left && m[s].right != m[v].right && m[s].right != m[v].parent
      && m[s].right != m[s].parent
  {
    Near(m, root, v);
    Near(m, root, s);
    var sp := m[s].parent;
    Near(m, root, sp);
    if m[sp].right == s { OneNode(m, root, sp, v); }
    if m[v].parent != null { Near(m, root, m[v].parent); }
    Near(m, root, m[v].left);
    Near(m, root, m[v].right);
  }

  lemma SwappedAt(m: Bsm, root: BstNode, v: BstNode, s: BstNode, x: BstNode)
    requires TwoChildren(m, root, v, s) && x in m && x != v
    ensures m[x].key != m[v].key
    ensures m[x].lo == m[v].key && x != s ==> m[s].key < m[x].key
  {
    if m[x].key == m[v].key { OneNode(m, root, x, v); }
    if m[x].lo == m[v].key { LeastRight(m, root, v, x); }
    assert NodeOk(m, root, x);
  }

  // A node that keeps its place.
  lemma SwappedFields(m: Bsm, root: BstNode, v: BstNode, s: BstNode, x: BstNode)
    requires TwoChildren(m, root, v, s) && x in m && x != v && x != s
    ensures var m', k, p, sp, sr := Swapped(m, v, s), m[s].key, m[v].parent, m[s].parent, m[s].right;
      && m'[x] == Rebound(m[x], m[v].key, k, k).(left := m'[x].left, right := m'[x].right, parent := m'[x].parent)
      && m'[x].left == (if x == sp then sr else if x == p && m[x].left == v then s else m[x].left)
      && m'[x].right == (if x == p && m[x].left != v then s else m[x].right)
      && m'[x].parent == (if x == m[v].left || x == m[v].right then s else if x == sr && sp != v then sp else m[x].parent)
  {}

  // Ranges of nodes that keep their place.
  lemma SwappedRange(m: Bsm, root: BstNode, v: BstNode, s: BstNode, x: BstNode)
    requires TwoChildren(m, root, v, s) && x in m && x != v && x != s
    ensures var m' := Swapped(m, v, s); -1 <= m'[x].lo < m'[x].key < m'[x].hi <= SIZE_MAX + 1
  {
    SwappedAt(m, root, v, s, x);
    SwappedFields(m, root, v, s, x);
    LeastSpot(m, root, v, s);
    assert NodeOk(m, root, x) && NodeOk(m, root, s);
  }

  lemma SwappedKids(m: Bsm, root: BstNode, v: BstNode, s: BstNode, x: BstNode)
    requires TwoChildren(m, root, v, s) && x in m && x != v && x != s
    ensures var m' := Swapped(m, v, s); LeftOk(m', x) && RightOk(m', x)
  {
    LeastSpot(m, root, v, s);
    Near(m, root, x);
    Near(m, root, v);
    Near(m, root, s);
    SwappedAt(m, root, v, s, x);
    SwappedFields(m, root, v, s, x);
    var a, b, sr := m[x].left, m[x].right, m[s].right;
    if a != null && a != v && a != s { SwappedFields(m, root, v, s, a); }
    if b != null && b != v && b != s { SwappedFields(m, root, v, s, b); }
    if sr != null { SwappedFields(m, root, v, s, sr); }
    if b == s { OneNode(m, root, x, v); }
  }

  lemma SwappedUp(m: Bsm, root: BstNode, v: BstNode, s: BstNode, x: BstNode)
    requires TwoChildren(m, root, v, s) && x in m && x != v && x != s && x != root
    ensures UpOk(Swapped(m, v, s), x)
  {
    LeastSpot(m, root, v, s);
    Near(m, root, x);
    Near(m, root, v);
    Near(m, root, s);
    SwappedFields(m, root, v, s, x);
    var p := m[x].parent;
    if p != v && p != s { SwappedFields(m, root, v, s, p); }
    if m[s].parent != v { SwappedFields(m, root, v, s, m[s].parent); }
  }

  // The node that moves.
  lemma SwappedMover(m: Bsm, root: BstNode, v: BstNode, s: BstNode)
    requires TwoChildren(m, root, v, s)
    ensures NodeOk(Swapped(m, v, s), if v == root then s else root, s)
  {
    LeastSpot(m, root, v, s);
    Near(m, root, v);
    Near(m, root, s);
    SwappedFields(m, root, v, s, m[v].left);
    if m[v].right != s { SwappedFields(m, root, v, s, m[v].right); }
    if m[s].right != null { SwappedFields(m, root, v, s, m[s].right); }
    if v != root { SwappedFields(m, root, v, s, m[v].parent); }
    assert m[s].key < m[v].hi by {
      if s != m[v].right { assert NodeOk(m, root, m[v].right); }
    }
  }

  lemma SwappedOk(m: Bsm, root: BstNode, v: BstNode, s: BstNode)
    requires TwoChildren(m, root, v, s)
    ensures TreeOk(Swapped(m, v, s), if v == root then s else root)
  {
    var m', root' := Swapped(m, v, s), if v == root then s else root;
    LeastSpot(m, root, v, s);
    forall x | x in m'
      ensures NodeOk(m', root', x)
    {
      if x == s {
        SwappedMover(m, root, v, s);
      } else {
        SwappedRange(m, root, v, s, x);
        SwappedKids(m, root, v, s, x);
        if x != root { SwappedUp(m, root, v, s, x); }
      }
    }
    Near(m, root, v);
    if v != root {
      Near(m, root, s);
      SwappedFields(m, root, v, s, root);
    }
  }

  // ---------- Stores ----------

  // The least node is taken out of its place; its parent forgets it unless the parent is a root about to go.
  ghost function Detached(m: Bsm, s: BstNode): Bsm
    requires s in m && m[s].parent != null && m[s].parent in m
  {
    var sp, sr := m[s].parent, m[s].right;
    var m1 := if sr != null || m[sp].parent != null then
                m[sp := if m[sp].right == s then m[sp].(right := sr) else m[sp].(left := sr)]
              else m;
    if sr != null && sr in m1 then m1[sr := m1[sr].(parent := sp)] else m1
  }

  // It takes over the links of `v`.
  ghost function TakenOver(m: Bsm, v: BstNode, s: BstNode): Bsm
    requires v in m && s in m
  {
    m[s := Bs(m[v].left, if m[v].right != s then m[v].right else m[s].right, m[v].parent, m[s].key, m[s].lo, m[s].hi)]
  }

  // Its new neighbours learn of it.
  ghost function LinkedBack(m: Bsm, v: BstNode, s: BstNode): Bsm
    requires v in m && s in m
  {
    var l, r, p := m[s].left, m[s].right, m[v].parent;
    var m1 := if l != null && l in m then m[l := m[l].(parent := s)] else m;
    var m2 := if r != null && r in m1 then m1[r := m1[r].(parent := s)] else m1;
    if p != null && p in m2 then m2[p := if m2[p].left == v then m2[p].(left := s) else m2[p].(right := s)] else m2
  }

  lemma DetachedAt(m: Bsm, root: BstNode, v: BstNode, s: BstNode, x: BstNode)
    requires TwoChildren(m, root, v, s) && x in m
    ensures s in m && m[s].parent != null && m[s].parent in m && s != v
    ensures var m', sp, sr := Detached(m, s), m[s].parent, m[s].right;
      && m'.Keys == m.Keys && m'[s] == m[s] && m'[v].left == m[v].left && m'[v].parent == m[v].parent
      && (sp != v ==> m'[v].right == m[v].right) && (sp == v ==> m'[v].right == if sr != null || v != root then sr else s)
      && (x != v && x != s ==>
            m'[x] == m[x].(left := if x == sp then sr else m[x].left, parent := if x == sr then sp else m[x].parent))
  {
    LeastSpot(m, root, v, s);
    Near(m, root, v);
    Near(m, root, s);
    Near(m, root, m[s].parent);
  }

  lemma LinkedBackAt(m: Bsm, v: BstNode, s: BstNode, x: BstNode)
    requires v in m && s in m && x in m && x != v && x != s && m[v].parent != v && m[v].parent != s
    ensures var l, r, p := m[s].left, m[s].right, m[v].parent;
      && x in LinkedBack(m, v, s)
      && LinkedBack(m, v, s)[x] ==
         m[x].(parent := if x == l || x == r then s else m[x].parent,
               left := if x == p && m[x].left == v then s else m[x].left,
               right := if x == p && m[x].left != v then s else m[x].right)
  {}

  lemma SwapStored(m: Bsm, root: BstNode, v: BstNode, s: BstNode)
    requires TwoChildren(m, root, v, s)
    ensures s in m && s != v && m[s].parent != null && m[s].parent in m
    ensures SameStored(LinkedBack(TakenOver(Detached(m, s), v, s), v, s), Swapped(m, v, s))
  {
    LeastSpot(m, root, v, s);
    var m1, m' := Detached(m, s), Swapped(m, v, s);
    Near(m, root, v);
    Near(m, root, s);
    DetachedAt(m, root, v, s, s);
    var m2 := TakenOver(m1, v, s);
    var m3 := LinkedBack(m2, v, s);
    forall x {:trigger m'[x]} | x in m'
      ensures x in m3 && m'[x] == m3[x].(lo := m'[x].lo, hi := m'[x].hi)
    {
      DetachedAt(m, root, v, s, x);
      if x != s {
        LinkedBackAt(m2, v, s, x);
        SwappedFields(m, root, v, s, x);
      }
    }
  }

  method DetachLeast(s: BstNode, ghost m: Bsm) returns (ghost m': Bsm)
    requires Mirrored(m) && s in m && m[s].parent != null && m[s].parent in m && m[s].parent != s
    requires m[s].right != null ==> m[s].right in m && m[s].right != s && m[s].right != m[s].parent
    modifies m.Keys
    ensures m' == Detached(m, s) && Mirrored(m')
  {
    m' := m;
    assert Look(s);
    var sp, sr := s.parent, s.right;
    assert Look(sp);
    if sr != null {
      if sp.right == s {
        m' := SetRight(sp, sr, m');
      } else {
        m' := SetLeft(sp, sr, m');
      }
      m' := SetParent(sr, sp, m');
    } else {
      if sp.parent != null {
        if sp.right == s {
          m' := SetRight(sp, null, m');
        } else {
          m' := SetLeft(sp, null, m');
        }
      }
    }
  }

  method TakeOver(v: BstNode, s: BstNode, ghost m: Bsm) returns (ghost m': Bsm)
    requires Mirrored(m) && v in m && s in m && v != s
    modifies s
    ensures m' == TakenOver(m, v, s) && Mirrored(m')
  {
    assert Look(v);
    assert Look(s);
    s.left := v.left;
    if v.right != s {
      s.right := v.right;
    }
    s.parent := v.parent;
    m' := TakenOver(m, v, s);
  }

  method LinkBack(v: BstNode, s: BstNode, ghost m: Bsm) returns (ghost m': Bsm)
    requires Mirrored(m) && v in m && s in m && v != s && m[s].left != null && m[s].left in m && m[s].left != s && m[s].left != v
    requires m[s].right != null ==> m[s].right in m && m[s].right != s && m[s].right != v
    requires m[s].parent == m[v].parent && m[v].parent != v && m[v].parent != s && (m[v].parent != null ==> m[v].parent in m)
    modifies m.Keys
    ensures m' == LinkedBack(m, v, s) && Mirrored(m')
  {
    assert Look(s);
    var l, r := s.left, s.right;
    m' := SetParent(l, s, m);
    if r != null {
      m' := SetParent(r, s, m');
    }
    assert Look(v);
    var p := v.parent;
    if p != null {
      assert Look(p);
      if p.left == v {
        m' := SetLeft(p, s, m');
      } else {
        m' := SetRight(p, s, m');
      }
    }
  }

  // The least node of a subtree.
  method FindLeast(from: BstNode, ghost m: Bsm, ghost root: BstNode) returns (s: BstNode)
    requires Mirrored(m) && TreeOk(m, root) && from in m
    ensures s == Least(m, root, from)
  {
    s := from;
    assert Look(s) && NodeOk(m, root, s);
    while s.left != null
      invariant s in m && Least(m, root, s) == Least(m, root, from)
      decreases m[s].hi - m[s].lo
    {
      assert Look(s) && NodeOk(m, root, s);
      assert NodeOk(m, root, s.left);
      s := s.left;
    }
    assert Look(s) && NodeOk(m, root, s);
  }

  // Two children: the least node on the right replaces `v`.
  method ReplaceByLeast(t: BstRoot, v: BstNode, ghost m: Bsm, ghost root: BstNode) returns (ghost s': BstNode, ghost m': Bsm)
    requires Mirrored(m) && TreeOk(m, root) && t.node == root && v in m && m[v].left != null && m[v].right != null
    modifies t, m.Keys
    ensures TwoChildren(m, root, v, s') && m' == Swapped(m, v, s') && Mirrored(m')
    ensures t.node == (if v == root then s' else root)
  {
    Near(m, root, v);
    assert Look(v);
    var s := FindLeast(v.right, m, root);
    s' := s;
    LeastSpot(m, root, v, s);
    Near(m, root, s);
    DetachedAt(m, root, v, s, s);
    SwapStored(m, root, v, s);
    m' := DetachLeast(s, m);
    m' := TakeOver(v, s, m');
    m' := LinkBack(v, s, m');
    MirroredVia(m', Swapped(m, v, s));
    m' := Swapped(m, v, s);
    assert Look(s);
    if s.parent == null {
      t.node := s;
    }
  }

  // At most one child: it replaces `v`.
  ghost function Hoisted(m: Bsm, v: BstNode, c: BstNode?): Bsm
    requires v in m
  {
    var p := m[v].parent;
    var m1 := if p != null && p in m then m[p := if m[p].left == v then m[p].(left := c) else m[p].(right := c)] else m;
    if c != null && c in m1 then m1[c := m1[c].(parent := p)] else m1
  }

  lemma HoistStored(m: Bsm, root: BstNode, v: BstNode, c: BstNode?)
    requires OneChild(m, root, v, c)
    ensures SameStored(Hoisted(m, v, c), Spliced(m, v, c))
  {
    Near(m, root, v);
    forall x {:trigger Spliced(m, v, c)[x]} | x in Spliced(m, v, c)
      ensures var w := Spliced(m, v, c)[x]; x in Hoisted(m, v, c) && w == Hoisted(m, v, c)[x].(lo := w.lo, hi := w.hi)
    {
      SplicedAt(m, root, v, c, x);
    }
  }

  method ReplaceByChild(t: BstRoot, v: BstNode, c: BstNode?, ghost m: Bsm, ghost root: BstNode) returns (ghost m': Bsm)
    requires Mirrored(m) && OneChild(m, root, v, c) && t.node == root
    modifies t, m.Keys
    ensures m' == Spliced(m, v, c) && Mirrored(m')
    ensures t.node == (if v == root then c else root)
  {
    Near(m, root, v);
    assert Look(v);
    var p := v.parent;
    m' := m;
    if p != null {
      assert Look(p);
      if p.left == v {
        m' := SetLeft(p, c, m');
      } else {
        m' := SetRight(p, c, m');
      }
    } else {
      t.node := c;
    }
    if c != null {
      m' := SetParent(c, p, m');
    }
    HoistStored(m, root, v, c);
    MirroredVia(m', Spliced(m, v, c));
    m' := Spliced(m, v, c);
  }

  // ---------- bst_remove ----------

  // All nodes but `v`, with their keys.
  ghost predicate Dropped(m: Bsm, m': Bsm, v: BstNode) {
    v in m && m'.Keys == m.Keys - {v} && forall x {:trigger m'[x]} :: x in m' ==> m'[x].key == m[x].key
  }

  lemma DroppedKeys(m: Bsm, root: BstNode, m': Bsm, v: BstNode)
    requires TreeOk(m, root) && Dropped(m, m', v)
    ensures KeysOf(m') == KeysOf(m) - {m[v].key}
  {
    forall k
      ensures k in KeysOf(m) - {m[v].key} <==> k in KeysOf(m')
    {
      if k in KeysOf(m) - {m[v].key} {
        var x: BstNode :| x in m && m[x].key == k;
        assert m'[x].key == k;
      }
      if k in KeysOf(m') {
        var x: BstNode :| x in m' && m'[x].key == k;
        if m[x].key == m[v].key { OneNode(m, root, x, v); }
      }
    }
  }

  // The tree that the removal of `v` leaves: its successor or its only child is in its place.
  ghost predicate Replaced(m: Bsm, root: BstNode, m': Bsm, root': BstNode?, v: BstNode) {
    && TreeOk(m, root) && v in m
    && if m[v].left != null && m[v].right != null then
         && m[v].right in m
         && var s := Least(m, root, m[v].right);
         m' == Swapped(m, v, s) && root' == (if v == root then s else root)
       else
         var c := if m[v].left == null then m[v].right else m[v].left;
         m' == Spliced(m, v, c) && root' == (if v == root then c else root)
  }

  /** bst_remove: the key set loses the key, and the node that held it leaves the tree; otherwise nothing changes. */
  method BstRemove(t: BstRoot, key: Size, ghost m: Bsm) returns (rv: int, ghost m': Bsm, ghost victim: BstNode?)
    requires Mirrored(m) && Bst(m, t.node)
    modifies t, m.Keys
    ensures Mirrored(m') && Bst(m', t.node) && KeysOf(m') == KeysOf(m) - {key as int}
    ensures rv == (if key in KeysOf(m) then 1 else -1)
    ensures if rv == 1 then
              && victim != null && Dropped(m, m', victim) && m[victim].key == key
              && old(t.node) != null && Replaced(m, old(t.node), m', t.node, victim)
            else m' == m && t.node == old(t.node)
  {
    rv, m', victim := -1, m, null;
    var v := BstLookup(t.node, key, m);
    if v == null {
      return;
    }
    victim := v;
    ghost var root := t.node;
    Near(m, root, v);
    assert Look(v);
    if v.left != null && v.right != null {
      ghost var s;
      s, m' := ReplaceByLeast(t, v, m, root);
      SwappedOk(m, root, v, s);
    } else {
      var c := if v.left == null then v.right else v.left;
      SplicedOk(m, root, v, c);
      m' := ReplaceByChild(t, v, c, m, root);
    }
    DroppedKeys(m, root, m', v);
    rv := 1;
  }
}
