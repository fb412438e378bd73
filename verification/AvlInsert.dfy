/** Insertion into an AVL tree: the descent that repairs parent links, the climb that repairs balance
    factors, and the rotation that may end it. */
module AvlInsert {
  import opened AvlTree
  import opened AvlPivot
  import opened AvlDouble

  class AvlRoot {
    var node: AvlNode?

    constructor ()
      ensures node == null
    {
      node := null;
    }
  }

  // One step of a search path, whose parent link is right.
  ghost predicate Step(m: Am, p: seq<AvlNode>, i: int)
    requires 0 < i < |p|
  {
    p[i] in m && p[i - 1] in m && m[p[i]].up == p[i - 1] && m[p[i]].parent == p[i - 1]
  }

  /** A path from the root on which every parent link is right. */
  ghost predicate PathOk(m: Am, root: AvlNode, p: seq<AvlNode>) {
    && |p| > 0 && p[0] == root && root in m && m[root].parent == null && m[root].up == null
    && forall i {:trigger Step(m, p, i)} :: 0 < i < |p| ==> Step(m, p, i)
  }

  // Everything but parent links is the same.
  ghost predicate SameLinks(m: Am, m': Am) {
    m'.Keys == m.Keys && forall x {:trigger m'[x]} :: x in m ==> m'[x] == m[x].(parent := m'[x].parent)
  }

  lemma SameLinksOk(m: Am, m': Am, root: AvlNode)
    requires TreeOk(m, root) && SameLinks(m, m') && m'[root].parent == null
    ensures TreeOk(m', root)
  {
    forall x | x in m'
      ensures NodeOk(m', root, null, x)
    {
      assert NodeOk(m, root, null, x);
    }
  }

  lemma SameKeysOf(m: Am, m': Am)
    requires SameKeys(m, m')
    ensures KeysOf(m') == KeysOf(m)
  {
    forall k
      ensures k in KeysOf(m) <==> k in KeysOf(m')
    {
      if k in KeysOf(m) {
        var x: AvlNode :| x in m && m[x].key == k;
        assert m'[x].key == k;
      }
      if k in KeysOf(m') {
        var x: AvlNode :| x in m' && m'[x].key == k;
        assert m[x].key == k;
      }
    }
  }

  // ---------- do_simple_insert ----------

  // The new leaf.
  ghost function LeafAt(m: Am, r: AvlNode, key: int): An
    requires r in m
  {
    An(null, null, r, key, 0, r, if key > m[r].key then m[r].key else m[r].lo, if key > m[r].key then m[r].hi else m[r].key, 1)
  }

  ghost function Attached(m: Am, r: AvlNode, n: AvlNode, key: int): Am
    requires r in m && r != n
  {
    m[n := LeafAt(m, r, key)][r := if key > m[r].key then m[r].(right := n) else m[r].(left := n)]
  }

  // The node that may take the key as its child.
  ghost predicate Opening(m: Am, r: AvlNode, key: int) {
    r in m && m[r].lo < key < m[r].hi && key != m[r].key && (if key > m[r].key then m[r].right else m[r].left) == null
  }

  lemma AttachedOk(m: Am, root: AvlNode, r: AvlNode, n: AvlNode, key: int)
    requires TreeOk(m, root) && Opening(m, r, key) && n !in m
    ensures TreeBut(Attached(m, r, n, key), root, n)
  {
    var m' := Attached(m, r, n, key);
    assert NodeOk(m, root, null, r);
    forall x | x in m'
      ensures NodeOk(m', root, n, x)
    {
      if x != n { assert NodeOk(m, root, null, x); }
    }
  }

  // The new leaf hangs below `p`; besides, only parent links differ.
  ghost predicate LeafHung(m: Am, m': Am, p: AvlNode?, n: AvlNode, key: int) {
    && p != null && Opening(m, p, key) && p != n && m'.Keys == m.Keys + {n} && m'[n] == LeafAt(m, p, key)
    && forall x {:trigger m'[x]} :: x in m && x != n ==>
      m'[x] == m[x].(parent := m'[x].parent,
                     left := if x == p && key < m[p].key then n else m[x].left,
                     right := if x == p && key > m[p].key then n else m[x].right)
  }

  // Every old node keeps its key.
  ghost predicate KeepsKeys(m: Am, m': Am, n: AvlNode) {
    forall x {:trigger m'[x]} :: x in m && x != n ==> x in m' && m'[x].key == m[x].key
  }

  lemma AttachedKeys(m: Am, r: AvlNode, n: AvlNode, key: int)
    requires r in m && n !in m
    ensures KeysOf(Attached(m, r, n, key)) == KeysOf(m) + {key} && Attached(m, r, n, key).Keys == m.Keys + {n}
  {
    var m' := Attached(m, r, n, key);
    forall k
      ensures k in KeysOf(m) + {key} <==> k in KeysOf(m')
    {
      if k in KeysOf(m) {
        var x: AvlNode :| x in m && m[x].key == k;
        assert m'[x].key == k;
      }
      if k == key { assert m'[n].key == k; }
      if k in KeysOf(m') {
        var x: AvlNode :| x in m' && m'[x].key == k;
        assert x == n || m[x].key == k;
      }
    }
  }

  lemma AttachedPath(m: Am, root: AvlNode, p: seq<AvlNode>, r: AvlNode, n: AvlNode, key: int)
    requires PathOk(m, root, p) && p[|p| - 1] == r && r in m && n !in m
    ensures PathOk(Attached(m, r, n, key), root, p + [n])
  {
    var m', p' := Attached(m, r, n, key), p + [n];
    forall i | 0 < i < |p'|
      ensures Step(m', p', i)
    {
      if i < |p| { assert Step(m, p, i); }
    }
  }

  // The link back to the node that the search came from.
  lemma TracedPath(m: Am, root: AvlNode, p: seq<AvlNode>, r: AvlNode, c: AvlNode)
    requires PathOk(m, root, p) && p[|p| - 1] == r && r in m && c in m && c != root && m[c].up == r
    ensures PathOk(WithParent(m, c, r), root, p + [c]) && SameLinks(m, WithParent(m, c, r))
  {
    var m', p' := WithParent(m, c, r), p + [c];
    forall i | 0 < i < |p'|
      ensures Step(m', p', i)
    {
      if i < |p| { assert Step(m, p, i); }
    }
  }

  // Where the search goes on.
  lemma SearchStep(m: Am, root: AvlNode, r: AvlNode, key: int)
    requires TreeOk(m, root) && r in m && m[r].lo < key < m[r].hi && (key in KeysOf(m) <==> key in Below(m, root, r))
    ensures NodeOk(m, root, null, r)
    ensures key == m[r].key ==> key in KeysOf(m)
    ensures var c := if key > m[r].key then m[r].right else m[r].left;
      key != m[r].key ==>
        if c == null then key !in KeysOf(m)
        else c in m && 0 < m[c].h < m[r].h && c != root && m[c].up == r && m[c].lo < key < m[c].hi
             && (key in KeysOf(m) <==> key in Below(m, root, c))
  {
    assert NodeOk(m, root, null, r);
    if m[r].left != null { assert NodeOk(m, root, null, m[r].left); }
    if m[r].right != null { assert NodeOk(m, root, null, m[r].right); }
  }

  ghost predicate Searching(m: Am, m': Am, root: AvlNode, r: AvlNode, key: int, path: seq<AvlNode>) {
    && TreeOk(m, root) && SameLinks(m, m') && PathOk(m', root, path) && path[|path| - 1] == r && r in m
    && m[r].lo < key < m[r].hi && (key in KeysOf(m) <==> key in Below(m, root, r))
  }

  lemma SearchGoesOn(m: Am, m': Am, root: AvlNode, r: AvlNode, key: int, path: seq<AvlNode>, c: AvlNode)
    requires Searching(m, m', root, r, key, path) && key != m[r].key && c == (if key > m[r].key then m[r].right else m[r].left)
    ensures c in m && 0 < m[c].h < m[r].h && Searching(m, WithParent(m', c, r), root, c, key, path + [c])
  {
    SearchStep(m, root, r, key);
    TracedPath(m', root, path, r, c);
  }

  // The search has found a place for the leaf.
  lemma SearchEnds(m: Am, m': Am, root: AvlNode, r: AvlNode, key: int, path: seq<AvlNode>, n: AvlNode)
    requires Searching(m, m', root, r, key, path) && key != m[r].key && n !in m
    requires (if key > m[r].key then m[r].right else m[r].left) == null
    ensures key !in KeysOf(m) && r in m' && r != n
    ensures var m1 := Attached(m', r, n, key);
      TreeBut(m1, root, n) && PathOk(m1, root, path + [n]) && KeysOf(m1) == KeysOf(m) + {key} && m1.Keys == m.Keys + {n}
  {
    SearchStep(m, root, r, key);
    SameLinksOk(m, m', root);
    AttachedOk(m', root, r, n, key);
    AttachedKeys(m', r, n, key);
    AttachedPath(m', root, path, r, n, key);
    SameKeysOf(m, m');
  }

  // The stores at the end of the search.
  method Attach(root: AvlNode, r: AvlNode, n: AvlNode, ghost m0: Am, ghost m: Am, ghost path: seq<AvlNode>)
    returns (ghost m': Am, ghost path': seq<AvlNode>)
    requires Mirrored(m) && n !in m && n.left == null && n.right == null && n.bf == 0
    requires Searching(m0, m, root, r, n.key, path)
    requires n.key != m0[r].key && (if n.key > m0[r].key then m0[r].right else m0[r].left) == null
    modifies r, n
    ensures n.key == old(n.key) && Mirrored(m') && n.key !in KeysOf(m0)
    ensures TreeBut(m', root, n) && PathOk(m', root, path') && path'[|path'| - 1] == n
    ensures KeysOf(m') == KeysOf(m0) + {n.key} && LeafHung(m0, m', r, n, n.key)
  {
    SearchEnds(m0, m, root, r, n.key, path, n);
    assert Look(r);
    n.parent := r;
    m' := m[n := LeafAt(m, r, n.key)];
    if n.key > r.key {
      m' := SetRight(r, n, m');
    } else {
      m' := SetLeft(r, n, m');
    }
    assert m' == Attached(m, r, n, n.key);
    path' := path + [n];
  }

  // A step down, with the link back.
  method Follow(root: AvlNode, r: AvlNode, c: AvlNode, key: int, ghost m0: Am, ghost m: Am, ghost path: seq<AvlNode>)
    returns (ghost m': Am, ghost path': seq<AvlNode>)
    requires Mirrored(m) && Searching(m0, m, root, r, key, path)
    requires key != m0[r].key && c == (if key > m0[r].key then m0[r].right else m0[r].left)
    modifies m.Keys
    ensures Mirrored(m') && c in m0 && 0 < m0[c].h < m0[r].h && Searching(m0, m', root, c, key, path')
  {
    SearchGoesOn(m0, m, root, r, key, path, c);
    m' := SetParent(c, r, m);
    path' := path + [c];
  }

  /** do_simple_insert finds the parent of the new leaf, or null if the key is there already. Every parent
      link on the way down is right afterwards. */
  method DoSimpleInsert(root: AvlNode, n: AvlNode, ghost m: Am) returns (p: AvlNode?, ghost m': Am, ghost path: seq<AvlNode>)
    requires Mirrored(m) && TreeOk(m, root) && n !in m && n.left == null && n.right == null && n.bf == 0
    modifies m.Keys, n
    ensures n.key == old(n.key) && Mirrored(m') && (p == null <==> n.key in KeysOf(m))
    ensures p == null ==> SameLinks(m, m') && TreeOk(m', root)
    ensures p != null ==>
      && TreeBut(m', root, n) && PathOk(m', root, path) && path[|path| - 1] == n
      && KeysOf(m') == KeysOf(m) + {n.key} && LeafHung(m, m', p, n, n.key)
    ensures p == null ==> n.left == old(n.left) && n.right == old(n.right) && n.parent == old(n.parent) && n.bf == old(n.bf)
  {
    m', path := m, [root];
    var r: AvlNode := root;
    AllBelow(m, root);
    while true
      invariant Mirrored(m') && Searching(m, m', root, r, n.key, path)
      invariant n.key == old(n.key) && n.left == null && n.right == null && n.bf == 0 && n.parent == old(n.parent)
      decreases m[r].h
    {
      assert Look(r);
      if n.key > r.key {
        if r.right != null {
          var c := r.right;
          m', path := Follow(root, r, c, n.key, m, m', path);
          r := c;
        } else {
          m', path := Attach(root, r, n, m, m', path);
          return r, m', path;
        }
      } else if n.key < r.key {
        if r.left != null {
          var c := r.left;
          m', path := Follow(root, r, c, n.key, m, m', path);
          r := c;
        } else {
          m', path := Attach(root, r, n, m, m', path);
          return r, m', path;
        }
      } else {
        SearchStep(m, root, r, n.key);
        SameLinksOk(m, m', root);
        return null, m', path;
      }
    }
  }

  // ---------- do_fix_balance ----------

  // A tree below whose node `f` the height has grown; a node that grew is a new leaf or leans to one side.
  ghost predicate Grown(m: Am, root: AvlNode, f: AvlNode) {
    TreeBut(m, root, f) && f in m && (m[f].bf != 0 || m[f].h == 1)
  }

  // The node above adds the child's side to its balance factor.
  ghost function Leaning(m: Am, f: AvlNode, q: AvlNode): Am
    requires q in m
  {
    m[q := m[q].(bf := m[q].bf + if m[q].right == f then 1 else -1)]
  }

  lemma GrownAbove(m: Am, root: AvlNode, f: AvlNode)
    requires Grown(m, root, f) && f != root
    ensures var q := m[f].up; q != null && q in m && q != f && -2 <= Leaning(m, f, q)[q].bf <= 2
  {
    assert NodeOk(m, root, f, f);
    var q := m[f].up;
    assert NodeOk(m, root, f, q);
  }

  // Only the node above has `f` as a child.
  lemma OtherLevels(m: Am, root: AvlNode, f: AvlNode, n: AvlNode)
    requires Grown(m, root, f) && n in m && (f == root || n != m[f].up)
    ensures NodeOk(m, root, f, n) && Balanced(m, null, n)
  {
    assert NodeOk(m, root, f, n) && NodeOk(m, root, f, f);
  }

  // The root has grown: everything is settled.
  lemma RootGrown(m: Am, root: AvlNode)
    requires Grown(m, root, root)
    ensures TreeOk(m, root)
  {
    forall n | n in m
      ensures NodeOk(m, root, null, n)
    {
      OtherLevels(m, root, root, n);
    }
  }

  // What the balance factor of the node above now says.
  lemma LeaningLevel(m: Am, root: AvlNode, f: AvlNode, q: AvlNode)
    requires Grown(m, root, f) && f != root && q in m && m[f].up == q
    ensures var m' := Leaning(m, f, q); var l, r := Height(m', m[q].left, null), Height(m', m[q].right, null);
      && ShapeOk(m', root, q) && m'[q].bf == r - l && l >= 0 && r >= 0
      && (m'[q].bf == 0 ==> m'[q].h == 1 + Max(l, r)) && (m'[q].bf == 1 || m'[q].bf == -1 ==> m'[q].h + 1 == 1 + Max(l, r))
      && (m'[q].bf == 2 ==> m'[q].h == r && m[q].right == f && m[f].bf != 0)
      && (m'[q].bf == -2 ==> m'[q].h == l && m[q].left == f && m[f].bf != 0)
  {
    assert NodeOk(m, root, f, q) && NodeOk(m, root, f, f);
    var a, b := m[q].left, m[q].right;
    if a != null { assert NodeOk(m, root, f, a); }
    if b != null { assert NodeOk(m, root, f, b); }
  }

  lemma LeaningOther(m: Am, root: AvlNode, f: AvlNode, q: AvlNode, n: AvlNode)
    requires Grown(m, root, f) && f != root && q in m && m[f].up == q && n in m && n != q
    ensures NodeOk(Leaning(m, f, q), root, null, n)
  {
    OtherLevels(m, root, f, n);
  }

  lemma Settled(m: Am, root: AvlNode, f: AvlNode, q: AvlNode)
    requires Grown(m, root, f) && f != root && q in m && m[f].up == q && Leaning(m, f, q)[q].bf == 0
    ensures TreeOk(Leaning(m, f, q), root)
  {
    var m' := Leaning(m, f, q);
    forall n | n in m'
      ensures NodeOk(m', root, null, n)
    {
      if n == q { LeaningLevel(m, root, f, q); } else { LeaningOther(m, root, f, q, n); }
    }
  }

  // The height grows on above.
  ghost function Taller(m: Am, q: AvlNode): Am
    requires q in m
  {
    m[q := m[q].(h := m[q].h + 1)]
  }

  lemma TallerOther(m: Am, root: AvlNode, q: AvlNode, n: AvlNode)
    requires q in m && n in m && n != q && NodeOk(m, root, null, n)
    ensures NodeOk(Taller(m, q), root, q, n)
  {}

  lemma Passed(m: Am, root: AvlNode, f: AvlNode, q: AvlNode)
    requires Grown(m, root, f) && f != root && q in m && m[f].up == q
    requires Leaning(m, f, q)[q].bf == 1 || Leaning(m, f, q)[q].bf == -1
    ensures Grown(Taller(Leaning(m, f, q), q), root, q)
  {
    var m1 := Leaning(m, f, q);
    var m' := Taller(m1, q);
    LeaningLevel(m, root, f, q);
    forall n | n in m'
      ensures NodeOk(m', root, q, n)
    {
      if n != q { LeaningOther(m, root, f, q, n); TallerOther(m1, root, q, n); }
    }
  }

  // The heavier child of the tilted node leans outward or inward, but it leans.
  ghost predicate Leans(m: Am, q: AvlNode) {
    && q in m && (m[q].bf == 2 ==> m[q].right != null && m[q].right in m && m[m[q].right].bf != 0)
    && (m[q].bf == -2 ==> m[q].left != null && m[q].left in m && m[m[q].left].bf != 0)
  }

  lemma Unbalanced(m: Am, root: AvlNode, f: AvlNode, q: AvlNode)
    requires Grown(m, root, f) && f != root && q in m && m[f].up == q && m[q].parent == m[q].up
    requires Leaning(m, f, q)[q].bf == 2 || Leaning(m, f, q)[q].bf == -2
    ensures Tilted(Leaning(m, f, q), root, q) && Leans(Leaning(m, f, q), q)
  {
    var m' := Leaning(m, f, q);
    LeaningLevel(m, root, f, q);
    forall n | n in m' && n != q
      ensures NodeOk(m', root, null, n)
    {
      LeaningOther(m, root, f, q, n);
    }
  }

  // The climb changes no link and no key.
  ghost predicate SameTree(m: Am, m': Am) {
    m'.Keys == m.Keys && forall n {:trigger m'[n]} :: n in m ==> m'[n] == m[n].(bf := m'[n].bf, h := m'[n].h)
  }

  // The balance factor of the parent counts the side that grew.
  method AddSide(f: AvlNode, p: AvlNode, ghost m: Am) returns (ghost m': Am)
    requires Mirrored(m) && p in m
    modifies p
    ensures m' == Leaning(m, f, p) && Mirrored(m') && SameTree(m, m')
  {
    assert Look(p);
    if p.right == f {
      m' := SetBf(p, p.bf + 1, m);
    } else {
      m' := SetBf(p, p.bf - 1, m);
    }
  }

  // Heights are not stored.
  ghost method Raise(m: Am, q: AvlNode) returns (m': Am)
    requires Mirrored(m) && q in m
    ensures m' == Taller(m, q) && Mirrored(m') && SameTree(m, m')
  {
    m' := Taller(m, q);
    MirroredVia(m, m');
  }

  /** do_fix_balance climbs the path that the descent repaired. It returns null when the tree is balanced,
      otherwise the lowest node that is not. */
  method DoFixBalance(from: AvlNode, t: AvlNode, ghost m: Am, ghost path: seq<AvlNode>) returns (u: AvlNode?, ghost m': Am)
    requires Mirrored(m) && Grown(m, t, from) && PathOk(m, t, path) && path[|path| - 1] == from
    modifies m.Keys
    ensures Mirrored(m') && SameTree(m, m')
    ensures if u == null then TreeOk(m', t) else Tilted(m', t, u) && Leans(m', u) && m'[t].h == m[t].h
  {
    var f: AvlNode := from;
    m' := m;
    ghost var k: nat := |path|;
    while f != t
      invariant 0 < k <= |path| && f == path[k - 1]
      invariant Mirrored(m') && Grown(m', t, f) && SameTree(m, m') && (f != t ==> m'[t].h == m[t].h)
      decreases k
    {
      GrownAbove(m', t, f);
      assert Step(m, path, k - 1);
      ClimbParent(m, t, path, k - 2);
      assert Look(f);
      var p: AvlNode := f.parent;
      ghost var m1 := m';
      m' := AddSide(f, p, m');
      assert Look(p);
      if p.bf == 2 || p.bf == -2 {
        Unbalanced(m1, t, f, p);
        return p, m';
      } else if p.bf == 0 {
        Settled(m1, t, f, p);
        return null, m';
      } else if p.bf > 2 || p.bf < -2 {
        assert false;
      }
      Passed(m1, t, f, p);
      m' := Raise(m', p);
      f := p;
      k := k - 1;
    }
    RootGrown(m', t);
    return null, m';
  }

  lemma ClimbParent(m: Am, root: AvlNode, p: seq<AvlNode>, i: int)
    requires PathOk(m, root, p) && 0 <= i < |p|
    ensures p[i] in m && m[p[i]].parent == m[p[i]].up
  {
    if i > 0 { assert Step(m, p, i); }
  }

  // ---------- do_pivot ----------

  // `m'` comes from `m` by the one rotation at `u` that its balance factor and that of its higher child call for.
  ghost predicate Rotated(m: Am, m': Am, u: AvlNode) {
    && u in m
    && if m[u].bf < 0 then
         var c := m[u].left;
         && c != null && c in m
         && if m[c].bf > 0 then m[c].right != null && RightFold(m, u, c, m[c].right) && m' == FoldRight(m, u, c, m[c].right)
            else m' == TurnRight(m, u)
       else
         var c := m[u].right;
         && c != null && c in m
         && if m[c].bf < 0 then m[c].left != null && LeftFold(m, u, c, m[c].left) && m' == FoldLeft(m, u, c, m[c].left)
            else m' == TurnLeft(m, u)
  }

  /** do_pivot chooses the rotation that mends the tree and returns its true root; the whole tree is as high
      as it was expected to be. */
  method DoPivot(r: AvlNode, ub: AvlNode, ghost m: Am) returns (root: AvlNode, ghost m': Am)
    requires Mirrored(m) && Tilted(m, r, ub) && Leans(m, ub)
    modifies m.Keys
    ensures Mirrored(m') && TreeOk(m', root) && SameKeys(m, m')
    ensures m'[root].h == m[r].h && Rotated(m, m', ub)
  {
    TiltedKids(m, r, ub);
    assert Look(ub);
    var top: AvlNode;
    if ub.bf < 0 {
      assert Look(ub.left);
      if ub.left.bf > 0 {
        top, m' := DoDoubleRightPivot(ub, m, r);
      } else {
        top, m' := DoRightPivot(ub, m, r);
      }
    } else if ub.bf > 0 {
      assert Look(ub.right);
      if ub.right.bf < 0 {
        top, m' := DoDoubleLeftPivot(ub, m, r);
      } else {
        top, m' := DoLeftPivot(ub, m, r);
      }
    } else {
      assert false;
    }
    assert Look(top);
    root := if top.parent != null then r else top;
  }

  // The heavier child leans by one, and inward only with a grandchild there.
  lemma TiltedKids(m: Am, root: AvlNode, q: AvlNode)
    requires Tilted(m, root, q) && Leans(m, q)
    ensures m[q].bf == -2 ==> RightTurnable(m, root, q) || RightFoldable(m, root, q)
    ensures m[q].bf == 2 ==> LeftTurnable(m, root, q) || LeftFoldable(m, root, q)
    ensures m[q].parent == null <==> q == root
  {
    var c := if m[q].bf == 2 then m[q].right else m[q].left;
    assert NodeOk(m, root, null, c);
    var a, b := m[c].left, m[c].right;
    if a != null && a != q { assert NodeOk(m, root, null, a); }
    if b != null && b != q { assert NodeOk(m, root, null, b); }
  }

  // ---------- avl_insert ----------

  /** A tree that may be empty. */
  ghost predicate Avl(m: Am, root: AvlNode?) {
    if root == null then m == map[] else TreeOk(m, root)
  }

  // The node as its allocator leaves it.
  ghost predicate Zeroed(n: AvlNode)
    reads n
  {
    n.left == null && n.right == null && n.parent == null && n.bf == 0
  }

  method FirstNode(n: AvlNode) returns (ghost m: Am)
    requires Zeroed(n)
    ensures Mirrored(m) && TreeOk(m, n) && m.Keys == {n} && KeysOf(m) == {n.key as int}
  {
    m := map[n := An(null, null, null, n.key, 0, null, LONG_MIN - 1, LONG_MAX + 1, 1)];
    assert m[n].key in KeysOf(m);
  }

  // At most one rotation, at the node that is out of balance.
  ghost predicate OneRotation(m: Am, m': Am, root: AvlNode, u: AvlNode?) {
    if u == null then m' == m else Tilted(m, root, u) && Rotated(m, m', u)
  }

  // After the leaf is attached: the climb, and at most one rotation.
  method Rebalance(root: AvlNode, n: AvlNode, ghost m: Am, ghost path: seq<AvlNode>)
    returns (root': AvlNode, ghost m': Am, ghost m1: Am, ghost u: AvlNode?)
    requires Mirrored(m) && Grown(m, root, n) && PathOk(m, root, path) && path[|path| - 1] == n
    modifies m.Keys
    ensures n.key == old(n.key) && Mirrored(m') && TreeOk(m', root') && SameKeys(m, m') && KeysOf(m') == KeysOf(m)
    ensures SameTree(m, m1) && OneRotation(m1, m', root, u) && (u == null ==> root' == root)
    ensures u != null ==> m'[root'].h == m[root].h
  {
    assert Look(n);
    root' := root;
    var p;
    p, m' := DoFixBalance(n, root, m, path);
    m1, u := m', p;
    SameTreeKeys(m, m1);
    if p != null {
      root', m' := DoPivot(root, p, m1);
      SameKeysOf(m1, m');
    }
    assert Look(n) && m'[n].key == m1[n].key;
  }

  /** avl_insert: the new node is hung below the one node with an opening for it, and
      at most one rotation follows; the others keep their keys. If its key is there already nothing but
      parent links changes, and the rejected node stays zeroed. */
  method AvlInsert(t: AvlRoot, n: AvlNode, ghost m: Am)
    returns (rv: int, ghost m': Am, ghost p: AvlNode?, ghost m1: Am, ghost m2: Am, ghost u: AvlNode?)
    requires Mirrored(m) && Avl(m, t.node) && n !in m && Zeroed(n)
    modifies t, m.Keys, n
    ensures n.key == old(n.key) && Mirrored(m') && Avl(m', t.node)
    ensures rv == (if n.key in KeysOf(m) then 0 else 1) && KeysOf(m') == KeysOf(m) + {n.key as int}
    ensures if rv == 0 then t.node == old(t.node) && SameLinks(m, m') && Zeroed(n)
            else m'.Keys == m.Keys + {n} && KeepsKeys(m, m', n)
    ensures rv == 1 && old(t.node) == null ==> t.node == n
    ensures rv == 1 && old(t.node) != null ==>
      LeafHung(m, m1, p, n, n.key) && SameTree(m1, m2) && OneRotation(m2, m', old(t.node), u)
  {
    rv, p, u, m1, m2 := 0, null, null, m, m;
    if t.node == null {
      m' := FirstNode(n);
      t.node := n;
      rv := 1;
      return;
    }
    ghost var path;
    var parent;
    parent, m', path := DoSimpleInsert(t.node, n, m);
    p, m1 := parent, m';
    if parent != null {
      var root;
      root, m', m2, u := Rebalance(t.node, n, m', path);
      t.node := root;
      rv := 1;
    } else {
      SameKeysOf(m, m');
    }
  }

  lemma SameTreeKeys(m: Am, m': Am)
    requires SameTree(m, m')
    ensures KeysOf(m') == KeysOf(m)
  {
    SameKeysOf(m, m');
  }
}
