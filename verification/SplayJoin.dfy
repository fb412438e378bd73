/** The stores that put the three pieces together, and the loops that recompute the maxima. */
module SplayJoin {
  import opened SplayTree
  import opened SplayStores
  import opened SplayPieces
  import opened SplayAssemble

  // The first four stores set child links, the other five parents.
  ghost function JoinedKids(m: Sm, root: SplayNode, head: SplayNode, l: SplayNode, r: SplayNode): Sm
    requires root in m && head in m && l in m && r in m
  {
    var m1 := m[l := m[l].(right := m[root].left)];
    var m2 := m1[r := m1[r].(left := m1[root].right)];
    var m3 := m2[root := m2[root].(left := m2[head].right)];
    m3[root := m3[root].(right := m3[head].left)]
  }

  ghost function JoinedParents(m: Sm, root: SplayNode, l: SplayNode, r: SplayNode): Sm
    requires root in m && l in m && r in m
  {
    var m1 := WithParent(m, m[l].right, l);
    var m2 := WithParent(m1, m1[r].left, r);
    var m3 := WithParent(m2, m2[root].left, root);
    var m4 := WithParent(m3, m3[root].right, root);
    m4[root := m4[root].(parent := null)]
  }

  lemma JoinEnds(m: Sm, root: SplayNode, s: Spine, size: int, key: int)
    requires Pieces(m, root, s, size, key)
    ensures var l, r := s.ls[|s.ls| - 1], s.rs[|s.rs| - 1];
      && l in m && r in m && l != root && r != root && root != s.head
      && (m[root].left != null ==> m[root].left in m) && (m[root].right != null ==> m[root].right in m)
  {
    AssembleStart(m, root, s, size, key);
    var k, j := |s.ls| - 1, |s.rs| - 1;
    if k > 0 { assert LNode(m, s, size, k); }
    if j > 0 { assert RNode(m, s, size, j); }
  }

  lemma JoinedKidsAre(m: Sm, root: SplayNode, head: SplayNode, l: SplayNode, r: SplayNode, x: SplayNode)
    requires root in m && head in m && l in m && r in m && l != root && r != root && head != root && x in m
    ensures var m' := JoinedKids(m, root, head, l, r);
      && x in m' && m'[x] == m[x].(left := m'[x].left, right := m'[x].right)
      && m'[x].left == (if x == root then (if l == head then m[root].left else m[head].right)
                        else if x == r then m[root].right else m[x].left)
      && m'[x].right == (if x == root then (if r == head then m[root].right else m[head].left)
                         else if x == l then m[root].left else m[x].right)
  {}

  lemma WithParentAt(m: Sm, n: SplayNode?, p: SplayNode?, x: SplayNode)
    requires x in m
    ensures x in WithParent(m, n, p) && WithParent(m, n, p)[x] == (if x == n then m[x].(parent := p) else m[x])
  {}

  lemma JoinedParentsAre(m: Sm, root: SplayNode, l: SplayNode, r: SplayNode, x: SplayNode)
    requires root in m && l in m && r in m && x in m
    ensures var m' := JoinedParents(m, root, l, r);
      && x in m'
      && m'[x] == m[x].(parent := if x == root then null else if x == m[root].right || x == m[root].left then root
                                  else if x == m[r].left then r else if x == m[l].right then l else m[x].parent)
  {
    var a, b, c, d := m[l].right, m[r].left, m[root].left, m[root].right;
    var m1 := WithParent(m, a, l);
    WithParentAt(m, a, l, r);
    WithParentAt(m, a, l, root);
    WithParentAt(m, a, l, x);
    var m2 := WithParent(m1, b, r);
    WithParentAt(m1, b, r, root);
    WithParentAt(m1, b, r, x);
    var m3 := WithParent(m2, c, root);
    WithParentAt(m2, c, root, root);
    WithParentAt(m2, c, root, x);
    WithParentAt(m3, d, root, root);
    WithParentAt(m3, d, root, x);
  }

  lemma SpineEnds(m: Sm, root: SplayNode, s: Spine, size: int)
    requires SpineOk(m, s, size) && !InSpine(s, root)
    ensures var l, r := s.ls[|s.ls| - 1], s.rs[|s.rs| - 1];
      && l in s.ls && r in s.rs && l != root && r != root && s.head in s.ls && s.head in s.rs && root != s.head
      && (l == s.head <==> |s.ls| == 1) && (r == s.head <==> |s.rs| == 1)
      && (l != s.head ==> l !in s.rs) && (r != s.head ==> r !in s.ls)
  {
    var k, j := |s.ls| - 1, |s.rs| - 1;
    assert s.ls[0] in s.ls && s.rs[0] in s.rs;
    if k > 0 { assert LNode(m, s, size, k); }
    if j > 0 { assert RNode(m, s, size, j); }
  }

  // The children are those of the assembled tree.
  lemma JoinedKidsAt(m: Sm, root: SplayNode, s: Spine, size: int, x: SplayNode)
    requires SpineOk(m, s, size) && root in m && !InSpine(s, root) && x in m
    requires s.ls[|s.ls| - 1] in m && s.rs[|s.rs| - 1] in m
    ensures var m', v := JoinedKids(m, root, s.head, s.ls[|s.ls| - 1], s.rs[|s.rs| - 1]), Assembled(m, root, s, size)[x];
      x in m' && m'[x] == m[x].(left := v.left, right := v.right)
  {
    SpineEnds(m, root, s, size);
    JoinedKidsAre(m, root, s.head, s.ls[|s.ls| - 1], s.rs[|s.rs| - 1], x);
    if InSpine(s, x) { SpineAbove(m, s, size, x); }
  }

  // The children of the ends of the spines and of the root, after assembly.
  lemma AssembledTips(m: Sm, root: SplayNode, s: Spine, size: int, key: int)
    requires Pieces(m, root, s, size, key)
    ensures var l, r, m' := s.ls[|s.ls| - 1], s.rs[|s.rs| - 1], Assembled(m, root, s, size);
      && l in m && r in m && m'[l].right == m[root].left && m'[r].left == m[root].right
      && m'[root].left == (if |s.ls| == 1 then m[root].left else s.ls[1])
      && m'[root].right == (if |s.rs| == 1 then m[root].right else s.rs[1])
  {
    JoinEnds(m, root, s, size, key);
    SpineEnds(m, root, s, size);
  }

  // So are the parents.
  lemma JoinedParentsAt(m: Sm, root: SplayNode, s: Spine, size: int, key: int, m1: Sm, x: SplayNode)
    requires Pieces(m, root, s, size, key) && x in m && m1.Keys == m.Keys
    requires s.ls[|s.ls| - 1] in m && s.rs[|s.rs| - 1] in m
    requires forall y {:trigger m1[y]} :: y in m ==>
      m1[y] == m[y].(left := Assembled(m, root, s, size)[y].left, right := Assembled(m, root, s, size)[y].right)
    ensures var m' := JoinedParents(m1, root, s.ls[|s.ls| - 1], s.rs[|s.rs| - 1]);
      x in m' && m'[x] == m1[x].(parent := Assembled(m, root, s, size)[x].parent)
  {
    AssembledTips(m, root, s, size, key);
    SpineEnds(m, root, s, size);
    JoinedParentsAre(m1, root, s.ls[|s.ls| - 1], s.rs[|s.rs| - 1], x);
    AssembleStart(m, root, s, size, key);
    if InSpine(s, x) { SpineAbove(m, s, size, x); }
  }

  ghost function Joined(m: Sm, root: SplayNode, s: Spine): Sm
    requires |s.ls| > 0 && |s.rs| > 0 && root in m && s.head in m && s.ls[|s.ls| - 1] in m && s.rs[|s.rs| - 1] in m
  {
    var l, r := s.ls[|s.ls| - 1], s.rs[|s.rs| - 1];
    JoinedParents(JoinedKids(m, root, s.head, l, r), root, l, r)
  }

  lemma JoinedKidsKeys(m: Sm, root: SplayNode, head: SplayNode, l: SplayNode, r: SplayNode)
    requires root in m && head in m && l in m && r in m
    ensures JoinedKids(m, root, head, l, r).Keys == m.Keys
  {}

  lemma JoinedParentsKeys(m: Sm, root: SplayNode, l: SplayNode, r: SplayNode)
    requires root in m && l in m && r in m
    ensures JoinedParents(m, root, l, r).Keys == m.Keys
  {}

  // The nine stores are the assembly.
  lemma JoinedIsAssembled(m: Sm, root: SplayNode, s: Spine, size: int, key: int)
    requires Pieces(m, root, s, size, key)
    requires s.ls[|s.ls| - 1] in m && s.rs[|s.rs| - 1] in m
    ensures SameStored(Joined(m, root, s), Assembled(m, root, s, size))
  {
    var l, r := s.ls[|s.ls| - 1], s.rs[|s.rs| - 1];
    var m1, m2, m3 := JoinedKids(m, root, s.head, l, r), Joined(m, root, s), Assembled(m, root, s, size);
    JoinedKidsKeys(m, root, s.head, l, r);
    JoinedParentsKeys(m1, root, l, r);
    forall y {:trigger m1[y]} | y in m
      ensures m1[y] == m[y].(left := m3[y].left, right := m3[y].right)
    {
      JoinedKidsAt(m, root, s, size, y);
    }
    forall x {:trigger m3[x]} | x in m3
      ensures m3[x] == m2[x].(lo := m3[x].lo, pos := m3[x].pos, hi := m3[x].hi)
    {
      JoinedParentsAt(m, root, s, size, key, m1, x);
      AssembledAt(m, root, s, size, x);
    }
  }

  lemma AssembledAt(m: Sm, root: SplayNode, s: Spine, size: int, x: SplayNode)
    requires root in m && |s.ls| > 0 && |s.rs| > 0 && x in m
    ensures var v, w := m[x], Assembled(m, root, s, size)[x];
      w == v.(left := w.left, right := w.right, parent := w.parent, lo := w.lo, pos := w.pos, hi := w.hi)
  {}

  lemma JoinReady(m: Sm, root: SplayNode, s: Spine, size: int, key: int)
    requires Pieces(m, root, s, size, key)
    ensures var l, r := s.ls[|s.ls| - 1], s.rs[|s.rs| - 1];
      && l in m && r in m
      && var m1 := JoinedKids(m, root, s.head, l, r);
      && m1.Keys == m.Keys && (m1[l].right != null ==> m1[l].right in m) && (m1[r].left != null ==> m1[r].left in m)
      && (m1[root].left != null ==> m1[root].left in m) && (m1[root].right != null ==> m1[root].right in m)
  {
    var l, r := s.ls[|s.ls| - 1], s.rs[|s.rs| - 1];
    JoinEnds(m, root, s, size, key);
    JoinedKidsKeys(m, root, s.head, l, r);
    JoinedKidsAt(m, root, s, size, l);
    JoinedKidsAt(m, root, s, size, r);
    JoinedKidsAt(m, root, s, size, root);
    AssembledTips(m, root, s, size, key);
    AssembledRoot(m, root, s, size, key);
  }

  // The assembly of the pieces: four child links, four parents, and the root's.
  method Join(root: SplayNode, head: SplayNode, l: SplayNode, r: SplayNode, ghost m: Sm, ghost s: Spine, ghost size: int,
              ghost key: int) returns (ghost m': Sm)
    requires Mirrored(m) && Pieces(m, root, s, size, key)
    requires head == s.head && l == s.ls[|s.ls| - 1] && r == s.rs[|s.rs| - 1]
    modifies m.Keys
    ensures m' == Assembled(m, root, s, size) && Mirrored(m')
  {
    JoinReady(m, root, s, size, key);
    m' := JoinKids(root, head, l, r, m);
    m' := JoinParents(root, l, r, m');
    assert m' == Joined(m, root, s);
    JoinedIsAssembled(m, root, s, size, key);
    MirroredVia(m', Assembled(m, root, s, size));
    m' := Assembled(m, root, s, size);
  }

  method JoinKids(root: SplayNode, head: SplayNode, l: SplayNode, r: SplayNode, ghost m: Sm) returns (ghost m': Sm)
    requires Mirrored(m) && root in m && head in m && l in m && r in m
    modifies root, l, r
    ensures m' == JoinedKids(m, root, head, l, r) && Mirrored(m')
  {
    assert Look(root);
    m' := SetRight(l, root.left, m);
    assert Look(root);
    m' := SetLeft(r, root.right, m');
    assert Look(head);
    m' := SetLeft(root, head.right, m');
    assert Look(head);
    m' := SetRight(root, head.left, m');
  }

  method JoinParents(root: SplayNode, l: SplayNode, r: SplayNode, ghost m: Sm) returns (ghost m': Sm)
    requires Mirrored(m) && root in m && l in m && r in m
    requires (m[l].right != null ==> m[l].right in m) && (m[r].left != null ==> m[r].left in m)
    requires (m[root].left != null ==> m[root].left in m) && (m[root].right != null ==> m[root].right in m)
    modifies m.Keys
    ensures m' == JoinedParents(m, root, l, r) && Mirrored(m')
  {
    assert Look(l);
    m' := SetParent(l.right, l, m);
    assert Look(r);
    m' := SetParent(r.left, r, m');
    assert Look(root);
    m' := SetParent(root.left, root, m');
    assert Look(root);
    m' := SetParent(root.right, root, m');
    m' := SetParent(root, null, m');
  }

  // Recomputing the maxima from the end of a seam up to its top.
  method RecomputeUp(from: SplayNode, ghost m: Sm, ghost head: SplayNode, ghost root: SplayNode, ghost size: int,
                     ghost q: seq<SplayNode>, ghost rest: set<SplayNode>) returns (ghost m': Sm)
    requires Mirrored(m) && Shaped(m, head, root, size) && SeamOk(m, q) && q[|q| - 1] == from
    requires head in rest && MaxOkBut(m, rest + Members(q))
    modifies m.Keys
    ensures Mirrored(m') && Shaped(m', head, root, size) && MaxOkBut(m', rest) && SameNodes(m, m')
    ensures forall x {:trigger m'[x]} :: x in m ==> m'[x].parent == m[x].parent
  {
    m' := m;
    var n: SplayNode? := from;
    ghost var i: nat := |q|;
    assert q[..i] == q;
    while n != null
      invariant i <= |q| && n == (if i == 0 then null else q[i - 1])
      invariant Mirrored(m') && Shaped(m', head, root, size) && MaxOkBut(m', rest + Members(q[..i])) && SameNodes(m, m')
      invariant forall x {:trigger m'[x]} :: x in m ==> m'[x].parent == m[x].parent
      decreases i
    {
      ClimbStep(m', head, root, size, q, rest, i);
      var a := ComputeSubtreeMaxSize(n, m');
      m' := SetMax(n, a, m');
      assert Look(n);
      n := n.parent;
      i := i - 1;
    }
    assert q[..0] == [];
  }

  lemma ClimbStep(m: Sm, head: SplayNode, root: SplayNode, size: int, q: seq<SplayNode>, rest: set<SplayNode>, i: nat)
    requires Shaped(m, head, root, size) && SeamOk(m, q) && 0 < i <= |q| && head in rest && MaxOkBut(m, rest + Members(q[..i]))
    ensures var n := q[i - 1];
      && n in m && (m[n].left != null ==> m[n].left in m) && (m[n].right != null ==> m[n].right in m)
      && m[n].parent == (if i == 1 then null else q[i - 2])
      && var m' := m[n := m[n].(max := Computed(m, n))];
      Shaped(m', head, root, size) && MaxOkBut(m', rest + Members(q[..i - 1])) && SameNodes(m, m')
  {
    var n := q[i - 1];
    if n != head { assert ShapeOk(m, root, size, n); }
    if i > 1 { assert q[..i][i - 2] == q[i - 2]; }
    MaxStep(m, head, root, size, n, rest + Members(q[..i]));
    var m' := m[n := m[n].(max := Computed(m, n))];
    forall y | y in m' && y !in rest + Members(q[..i - 1])
      ensures MaxOk(m', y)
    {
      assert q[..i] == q[..i - 1] + [n];
    }
  }

  // Without the sentinel it is a splay tree.
  lemma DropHead(m: Sm, head: SplayNode, root: SplayNode, size: int)
    requires Shaped(m, head, root, size) && MaxOkBut(m, {head})
    ensures TreeOk(m - {head}, root, size)
  {
    var m' := m - {head};
    forall n | n in m'
      ensures NodeOk(m', root, size, n)
    {
      assert ShapeOk(m, root, size, n) && MaxOk(m, n);
    }
    forall a, b | a in m' && b in m'
      ensures Ordered(m', a, b)
    {
      assert Ordered(m, a, b);
    }
  }
}
