/** Top-down splaying. */
module SplaySplay {
  import opened SplayTree
  import opened SplayStores
  import opened SplayPieces
  import opened SplayRotate
  import opened SplayLink
  import opened SplayAssemble
  import opened SplayJoin

  ghost predicate Apart(m: Sm, root: SplayNode, key: int, x: SplayNode)
    requires root in m && x in m
  {
    x != root ==> m[x].val != key && (m[x].pos < m[root].pos <==> m[x].val < key)
  }

  /** The root holds the key or stands next to where it would be: the nodes before it are below the key
      and those after it above. */
  ghost predicate Nearest(m: Sm, root: SplayNode, key: int) {
    root in m && forall x {:trigger Apart(m, root, key, x)} :: x in m ==> Apart(m, root, key, x)
  }

  // The tree to be splayed, with the sentinel beside it, is a middle without pieces.
  lemma StartPieces(m: Sm, root: SplayNode, size: int, key: int, head: SplayNode)
    requires Hung(m, root, size) && head !in m && m[root].parent != head
    ensures Pieces(m[head := Sn(null, null, null, 0, 0, 0, 0, 0, 0)], root, Spine(head, [head], [head]), size, key)
  {
    var m', s := m[head := Sn(null, null, null, 0, 0, 0, 0, 0, 0)], Spine(head, [head], [head]);
    forall x | x in m' && !InSpine(s, x)
      ensures PlacedOk(m', root, s, size, x)
    {
      assert NodeOk(m, root, size, x);
    }
    forall x | x in m'
      ensures SplitAt(m', root, s, key, x)
    {
      if x != head { assert NodeOk(m, root, size, x); }
    }
    forall a, b | a in m' && b in m' && a != head && b != head
      ensures Ordered(m', a, b)
    {
      assert Ordered(m, a, b);
    }
  }

  // The search has ended: the key is here, or there is nothing on its side.
  ghost predicate Ended(m: Sm, root: SplayNode, key: int) {
    && root in m && (key < m[root].val ==> m[root].left == null) && (key > m[root].val ==> m[root].right == null)
  }

  lemma EndedNearest(m: Sm, root: SplayNode, s: Spine, size: int, key: int, m': Sm)
    requires Pieces(m, root, s, size, key) && Ended(m, root, key) && SameNodes(m, m')
    ensures Nearest(m' - {s.head}, root, key)
  {
    AssembleStart(m, root, s, size, key);
    forall x | x in m' - {s.head}
      ensures Apart(m' - {s.head}, root, key, x)
    {
      assert SplitAt(m, root, s, key, x) && Ordered(m, x, root) && Ordered(m, root, x);
    }
  }

  // The stores of one step to the right piece.
  method LinkRight(root: SplayNode, rtreeMax: SplayNode, rtreePrev: SplayNode?, ghost m: Sm, ghost s: Spine)
    returns (ghost m': Sm)
    requires Mirrored(m) && root in m && |s.rs| > 0 && rtreeMax == s.rs[|s.rs| - 1] && rtreeMax in m && rtreeMax != root
    requires rtreePrev == (if |s.rs| == 1 then null else rtreeMax)
    modifies root, rtreeMax
    ensures m' == LinkedRight(m, root, s) && Mirrored(m')
  {
    m' := SetLeft(rtreeMax, root, m);
    assert Look(rtreeMax);
    m' := SetParent(rtreeMax.left, rtreePrev, m');
  }

  method LinkLeft(root: SplayNode, ltreeMax: SplayNode, ltreePrev: SplayNode?, ghost m: Sm, ghost s: Spine)
    returns (ghost m': Sm)
    requires Mirrored(m) && root in m && |s.ls| > 0 && ltreeMax == s.ls[|s.ls| - 1] && ltreeMax in m && ltreeMax != root
    requires ltreePrev == (if |s.ls| == 1 then null else ltreeMax)
    modifies root, ltreeMax
    ensures m' == LinkedLeft(m, root, s) && Mirrored(m')
  {
    m' := SetRight(ltreeMax, root, m);
    assert Look(ltreeMax);
    m' := SetParent(ltreeMax.right, ltreePrev, m');
  }

  // A rotation together with the maxima of the two nodes.
  method RotateRight(r: SplayNode, ghost m: Sm) returns (root: SplayNode, ghost m': Sm)
    requires Mirrored(m) && RightPivotable(m, r)
    requires (m[m[r].left].right != null ==> m[m[r].left].right in m) && (m[r].right != null ==> m[r].right in m)
    modifies m.Keys, if m[r].parent == null then {} else {m[r].parent}
    ensures root == m[r].left && m' == RightRotated(m, r) && Mirrored(m')
    ensures var p := m[r].parent;
      p != null && p !in m && old(p.left) == r ==> p.left == root && p.right == old(p.right) && p.val == old(p.val)
  {
    root, m' := RightPivot(r, m);
    assert Look(root) && Look(r);
    m' := SetMax(root, root.right.maxSize, m');
    assert Look(root) && Look(r);
    var a := ComputeSubtreeMaxSize(root.right, m');
    m' := SetMax(root.right, a, m');
  }

  method RotateLeft(r: SplayNode, ghost m: Sm) returns (root: SplayNode, ghost m': Sm)
    requires Mirrored(m) && LeftPivotable(m, r)
    requires (m[m[r].right].left != null ==> m[m[r].right].left in m) && (m[r].left != null ==> m[r].left in m)
    modifies m.Keys, if m[r].parent == null then {} else {m[r].parent}
    ensures root == m[r].right && m' == LeftRotated(m, r) && Mirrored(m')
    ensures var p := m[r].parent;
      p != null && p !in m && old(p.left) == r ==> p.left == root && p.right == old(p.right) && p.val == old(p.val)
  {
    root, m' := LeftPivot(r, m);
    assert Look(root) && Look(r);
    m' := SetMax(root, root.left.maxSize, m');
    assert Look(root) && Look(r);
    var a := ComputeSubtreeMaxSize(root.left, m');
    m' := SetMax(root.left, a, m');
  }

  // What is known of the node below the middle.
  lemma BelowLeft(m: Sm, r: SplayNode, s: Spine, size: int, key: int)
    requires Pieces(m, r, s, size, key) && m[r].left != null
    ensures m[r].left in m && RightPivotable(m, r) && (m[m[r].left].right != null ==> m[m[r].left].right in m)
    ensures m[r].right != null ==> m[r].right in m
  {
    RightRotateReady(m, r, s, size, key);
  }

  lemma BelowRight(m: Sm, r: SplayNode, s: Spine, size: int, key: int)
    requires Pieces(m, r, s, size, key) && m[r].right != null
    ensures m[r].right in m && LeftPivotable(m, r) && (m[m[r].right].left != null ==> m[m[r].right].left in m)
    ensures m[r].left != null ==> m[r].left in m
  {
    LeftRotateReady(m, r, s, size, key);
  }

  // Between the rounds of the loop; `outer` is the node that the tree hung below.
  ghost predicate Round(m0: Sm, m: Sm, root: SplayNode, s: Spine, size: int, key: int, outer: SplayNode?) {
    && Pieces(m, root, s, size, key) && SameNodes(m0, m) && (outer != null ==> outer !in m)
    && (m[root].parent != null && m[root].parent !in m ==> m[root].parent == outer)
  }

  lemma RightTurnRound(m0: Sm, m: Sm, root: SplayNode, s: Spine, size: int, key: int, outer: SplayNode?)
    requires Round(m0, m, root, s, size, key, outer) && m[root].left != null
    ensures RightPivotable(m, root)
    ensures var m', c := RightRotated(m, root), m[root].left;
      Round(m0, m', c, s, size, key, outer) && m'[c].parent == m[root].parent && m'[c].hi - m'[c].lo == m[root].hi - m[root].lo
  {
    RightRotatedPieces(m, root, s, size, key);
    RightRotateReady(m, root, s, size, key);
  }

  lemma LeftTurnRound(m0: Sm, m: Sm, root: SplayNode, s: Spine, size: int, key: int, outer: SplayNode?)
    requires Round(m0, m, root, s, size, key, outer) && m[root].right != null
    ensures LeftPivotable(m, root)
    ensures var m', c := LeftRotated(m, root), m[root].right;
      Round(m0, m', c, s, size, key, outer) && m'[c].parent == m[root].parent && m'[c].hi - m'[c].lo == m[root].hi - m[root].lo
  {
    LeftRotatedPieces(m, root, s, size, key);
    LeftRotateReady(m, root, s, size, key);
  }

  lemma LinkRightRound(m0: Sm, m: Sm, root: SplayNode, s: Spine, size: int, key: int, outer: SplayNode?)
    requires Round(m0, m, root, s, size, key, outer) && m[root].left != null && key < m[root].val
    ensures s.rs[|s.rs| - 1] in m && s.rs[|s.rs| - 1] != root
    ensures var m', c := LinkedRight(m, root, s), m[root].left;
      && Round(m0, m', c, s.(rs := s.rs + [root]), size, key, outer)
      && m'[c].parent == root && root in m' && 0 <= m'[c].hi - m'[c].lo < m[root].hi - m[root].lo
  {
    LinkRightPieces(m, root, s, size, key);
    LinkRightReady(m, root, s, size, key);
    PlacedKid(m, root, s, size, key, root, m[root].left);
    assert s.rs[|s.rs| - 1] in s.rs;
  }

  lemma LinkLeftRound(m0: Sm, m: Sm, root: SplayNode, s: Spine, size: int, key: int, outer: SplayNode?)
    requires Round(m0, m, root, s, size, key, outer) && m[root].right != null && key > m[root].val
    ensures s.ls[|s.ls| - 1] in m && s.ls[|s.ls| - 1] != root
    ensures var m', c := LinkedLeft(m, root, s), m[root].right;
      && Round(m0, m', c, s.(ls := s.ls + [root]), size, key, outer)
      && m'[c].parent == root && root in m' && 0 <= m'[c].hi - m'[c].lo < m[root].hi - m[root].lo
  {
    LinkLeftPieces(m, root, s, size, key);
    LinkLeftReady(m, root, s, size, key);
    PlacedKid(m, root, s, size, key, root, m[root].right);
    assert s.ls[|s.ls| - 1] in s.ls;
  }

  // Both loops over the seams.
  method RecomputeSeams(ltreeMax: SplayNode, rtreeMax: SplayNode, ghost m: Sm, ghost root: SplayNode, ghost s: Spine,
                        ghost size: int, ghost key: int, ghost m0: Sm) returns (ghost m': Sm)
    requires Pieces(m0, root, s, size, key) && m == Assembled(m0, root, s, size) && Mirrored(m)
    requires ltreeMax == s.ls[|s.ls| - 1] && rtreeMax == s.rs[|s.rs| - 1]
    modifies m.Keys
    ensures Mirrored(m') && Shaped(m', s.head, root, size) && MaxOkBut(m', {s.head}) && SameNodes(m, m')
  {
    ghost var lq, rq := Seam(s.head, root, s.ls), Seam(s.head, root, s.rs);
    AssembledShaped(m0, root, s, size, key);
    AssembledSeams(m0, root, s, size, key);
    AssembledMax(m0, root, s, size, key);
    assert {s.head} + Members(lq) + Members(rq) == ({s.head} + Members(rq)) + Members(lq);
    m' := RecomputeUp(ltreeMax, m, s.head, root, size, lq, {s.head} + Members(rq));
    m' := RecomputeUp(rtreeMax, m', s.head, root, size, rq, {s.head});
  }

  lemma SplayedOk(m0: Sm, m: Sm, root: SplayNode, s: Spine, size: int, key: int, m': Sm)
    requires Pieces(m, root, s, size, key) && Ended(m, root, key) && SameNodes(m0, m) && SameNodes(m, m')
    requires Shaped(m', s.head, root, size) && MaxOkBut(m', {s.head})
    ensures TreeOk(m' - {s.head}, root, size) && SameNodes(m0 - {s.head}, m' - {s.head}) && Nearest(m' - {s.head}, root, key)
  {
    DropHead(m', s.head, root, size);
    EndedNearest(m, root, s, size, key, m');
  }

  ghost function Links(outer: SplayNode?): (SplayNode?, SplayNode?, int)
    reads if outer == null then {} else {outer}
  {
    if outer == null then (null, null, 0) else (outer.left, outer.right, outer.val)
  }

  // What may become of the links of the node above the tree.
  ghost predicate KeptOutside(m: Sm, r: SplayNode, outer: SplayNode?, w: (SplayNode?, SplayNode?, int), m': Sm, root: SplayNode,
                              w': (SplayNode?, SplayNode?, int))
    requires r in m && root in m'
  {
    outer != null ==>
      if m[r].parent == outer then w.0 == r ==> w'.1 == w.1 && w'.2 == w.2 && (m'[root].parent == outer ==> w'.0 == root)
      else m'[root].parent != outer && w' == w
  }

  // The rotation of the middle, when the key is further on.
  method TurnRight(r: SplayNode, key: int, ghost m0: Sm, ghost m: Sm, ghost s: Spine, ghost size: int, ghost outer: SplayNode?)
    returns (root: SplayNode, ghost m': Sm)
    requires Mirrored(m) && Round(m0, m, r, s, size, key, outer) && m[r].left != null
    modifies m.Keys, if m[r].parent == null then {} else {m[r].parent}
    ensures Mirrored(m') && Round(m0, m', root, s, size, key, outer)
    ensures root == m[r].left && root in m && m'[root].val == m[root].val && m'[root].hi - m'[root].lo == m[r].hi - m[r].lo
    ensures m'[root].parent == m[r].parent && KeptOutside(m, r, outer, old(Links(outer)), m', root, Links(outer))
  {
    BelowLeft(m, r, s, size, key);
    RightTurnRound(m0, m, r, s, size, key, outer);
    root, m' := RotateRight(r, m);
  }

  // The middle joins the right piece.
  method AttachRight(r: SplayNode, rtreeMax: SplayNode, rtreePrev: SplayNode?, key: int, ghost m0: Sm, ghost m: Sm, ghost s: Spine,
                     ghost size: int, ghost outer: SplayNode?)
    returns (root: SplayNode, ghost m': Sm)
    requires Mirrored(m) && Round(m0, m, r, s, size, key, outer) && m[r].left != null && key < m[r].val
    requires rtreeMax == s.rs[|s.rs| - 1] && rtreePrev == (if |s.rs| == 1 then null else rtreeMax)
    modifies m.Keys
    ensures Mirrored(m') && Round(m0, m', root, s.(rs := s.rs + [r]), size, key, outer)
    ensures 0 <= m'[root].hi - m'[root].lo < m[r].hi - m[r].lo && m'[root].parent != outer
  {
    LinkRightRound(m0, m, r, s, size, key, outer);
    m' := LinkRight(r, rtreeMax, rtreePrev, m, s);
    assert Look(r);
    root := r.left;
  }

  // One round of the loop on the left side; it may end the search.
  method GoLeft(r: SplayNode, rtreeMax: SplayNode, rtreePrev: SplayNode?, key: int, ghost m0: Sm, ghost m: Sm, ghost s: Spine,
                ghost size: int, ghost outer: SplayNode?)
    returns (root: SplayNode, max': SplayNode, prev': SplayNode?, done: bool, ghost m': Sm, ghost s': Spine)
    requires Mirrored(m) && Round(m0, m, r, s, size, key, outer) && key < m[r].val && m[r].left != null
    requires rtreeMax == s.rs[|s.rs| - 1] && rtreePrev == (if |s.rs| == 1 then null else rtreeMax)
    modifies m.Keys, if m[r].parent == null then {} else {m[r].parent}
    ensures Mirrored(m') && Round(m0, m', root, s', size, key, outer) && s' == s.(rs := s'.rs)
    ensures |s'.rs| > 0 && max' == s'.rs[|s'.rs| - 1] && prev' == (if |s'.rs| == 1 then null else max')
    ensures if done then Ended(m', root, key) else 0 <= m'[root].hi - m'[root].lo < m[r].hi - m[r].lo
    ensures KeptOutside(m, r, outer, old(Links(outer)), m', root, Links(outer))
  {
    root, max', prev', done, m', s' := r, rtreeMax, rtreePrev, false, m, s;
    BelowLeft(m, r, s, size, key);
    assert Look(r);
    assert Look(r.left);
    if key < r.left.val {
      root, m' := TurnRight(r, key, m0, m, s, size, outer);
      assert Look(root);
      if root.left == null {
        done := true;
        return;
      }
    }
    s' := s.(rs := s.rs + [root]);
    max', prev' := root, root;
    root, m' := AttachRight(root, rtreeMax, rtreePrev, key, m0, m', s, size, outer);
  }

  // The rotation of the middle, when the key is further on.
  method TurnLeft(r: SplayNode, key: int, ghost m0: Sm, ghost m: Sm, ghost s: Spine, ghost size: int, ghost outer: SplayNode?)
    returns (root: SplayNode, ghost m': Sm)
    requires Mirrored(m) && Round(m0, m, r, s, size, key, outer) && m[r].right != null
    modifies m.Keys, if m[r].parent == null then {} else {m[r].parent}
    ensures Mirrored(m') && Round(m0, m', root, s, size, key, outer)
    ensures root == m[r].right && root in m && m'[root].val == m[root].val && m'[root].hi - m'[root].lo == m[r].hi - m[r].lo
    ensures m'[root].parent == m[r].parent && KeptOutside(m, r, outer, old(Links(outer)), m', root, Links(outer))
  {
    BelowRight(m, r, s, size, key);
    LeftTurnRound(m0, m, r, s, size, key, outer);
    root, m' := RotateLeft(r, m);
  }

  // The middle joins the left piece.
  method AttachLeft(r: SplayNode, ltreeMax: SplayNode, ltreePrev: SplayNode?, key: int, ghost m0: Sm, ghost m: Sm, ghost s: Spine,
                     ghost size: int, ghost outer: SplayNode?)
    returns (root: SplayNode, ghost m': Sm)
    requires Mirrored(m) && Round(m0, m, r, s, size, key, outer) && m[r].right != null && key > m[r].val
    requires ltreeMax == s.ls[|s.ls| - 1] && ltreePrev == (if |s.ls| == 1 then null else ltreeMax)
    modifies m.Keys
    ensures Mirrored(m') && Round(m0, m', root, s.(ls := s.ls + [r]), size, key, outer)
    ensures 0 <= m'[root].hi - m'[root].lo < m[r].hi - m[r].lo && m'[root].parent != outer
  {
    LinkLeftRound(m0, m, r, s, size, key, outer);
    m' := LinkLeft(r, ltreeMax, ltreePrev, m, s);
    assert Look(r);
    root := r.right;
  }

  // One round of the loop on the right side; it may end the search.
  method GoRight(r: SplayNode, ltreeMax: SplayNode, ltreePrev: SplayNode?, key: int, ghost m0: Sm, ghost m: Sm, ghost s: Spine,
                ghost size: int, ghost outer: SplayNode?)
    returns (root: SplayNode, max': SplayNode, prev': SplayNode?, done: bool, ghost m': Sm, ghost s': Spine)
    requires Mirrored(m) && Round(m0, m, r, s, size, key, outer) && key > m[r].val && m[r].right != null
    requires ltreeMax == s.ls[|s.ls| - 1] && ltreePrev == (if |s.ls| == 1 then null else ltreeMax)
    modifies m.Keys, if m[r].parent == null then {} else {m[r].parent}
    ensures Mirrored(m') && Round(m0, m', root, s', size, key, outer) && s' == s.(ls := s'.ls)
    ensures |s'.ls| > 0 && max' == s'.ls[|s'.ls| - 1] && prev' == (if |s'.ls| == 1 then null else max')
    ensures if done then Ended(m', root, key) else 0 <= m'[root].hi - m'[root].lo < m[r].hi - m[r].lo
    ensures KeptOutside(m, r, outer, old(Links(outer)), m', root, Links(outer))
  {
    root, max', prev', done, m', s' := r, ltreeMax, ltreePrev, false, m, s;
    BelowRight(m, r, s, size, key);
    assert Look(r);
    assert Look(r.right);
    if key > r.right.val {
      root, m' := TurnLeft(r, key, m0, m, s, size, outer);
      assert Look(root);
      if root.right == null {
        done := true;
        return;
      }
    }
    s' := s.(ls := s.ls + [root]);
    max', prev' := root, root;
    root, m' := AttachLeft(root, ltreeMax, ltreePrev, key, m0, m', s, size, outer);
  }

  // The end of the search: the pieces become one tree.
  method Assemble(root: SplayNode, head: SplayNode, ltreeMax: SplayNode, rtreeMax: SplayNode, key: int, ghost m0: Sm,
                  ghost m: Sm, ghost s: Spine, ghost size: int) returns (ghost m': Sm)
    requires Mirrored(m) && Pieces(m, root, s, size, key) && Ended(m, root, key) && SameNodes(m0, m)
    requires head == s.head && ltreeMax == s.ls[|s.ls| - 1] && rtreeMax == s.rs[|s.rs| - 1]
    modifies m.Keys
    ensures Mirrored(m') && TreeOk(m', root, size) && SameNodes(m0 - {head}, m') && Nearest(m', root, key)
  {
    m' := Join(root, head, ltreeMax, rtreeMax, m, s, size, key);
    AssembledSame(m, root, s, size);
    m' := RecomputeSeams(ltreeMax, rtreeMax, m', root, s, size, key, m);
    SplayedOk(m0, m, root, s, size, key, m');
    MirroredVia(m', m' - {head});
    m' := m' - {head};
  }

  // The sentinel of the stack frame.
  method Sentinel(r: SplayNode, key: int, ghost m: Sm, ghost size: int) returns (head: SplayNode, ghost m': Sm)
    requires Mirrored(m) && Hung(m, r, size)
    ensures fresh(head) && Mirrored(m') && m'.Keys == m.Keys + {head} && m' - {head} == m && m'[r] == m[r]
    ensures Round(m', m', r, Spine(head, [head], [head]), size, key, m[r].parent)
  {
    head := new SplayNode(0, 0);
    assert Look(r);
    StartPieces(m, r, size, key, head);
    m' := m[head := Sn(null, null, null, 0, 0, 0, 0, 0, 0)];
  }

  // The two ends of the spines, and the nodes that were linked before.
  ghost predicate AtEnds(s: Spine, ltreeMax: SplayNode, ltreePrev: SplayNode?, rtreeMax: SplayNode, rtreePrev: SplayNode?) {
    && |s.ls| > 0 && ltreeMax == s.ls[|s.ls| - 1] && ltreePrev == (if |s.ls| == 1 then null else ltreeMax)
    && |s.rs| > 0 && rtreeMax == s.rs[|s.rs| - 1] && rtreePrev == (if |s.rs| == 1 then null else rtreeMax)
  }

  // One round of the loop.
  method GoOn(r: SplayNode, ltreeMax: SplayNode, ltreePrev: SplayNode?, rtreeMax: SplayNode, rtreePrev: SplayNode?, key: int,
              ghost m0: Sm, ghost m: Sm, ghost s: Spine, ghost size: int, ghost outer: SplayNode?)
    returns (root: SplayNode, lmax: SplayNode, lprev: SplayNode?, rmax: SplayNode, rprev: SplayNode?, done: bool, ghost m': Sm,
             ghost s': Spine)
    requires Mirrored(m) && Round(m0, m, r, s, size, key, outer) && AtEnds(s, ltreeMax, ltreePrev, rtreeMax, rtreePrev)
    modifies m.Keys, if m[r].parent == null then {} else {m[r].parent}
    ensures Mirrored(m') && Round(m0, m', root, s', size, key, outer) && AtEnds(s', lmax, lprev, rmax, rprev) && s'.head == s.head
    ensures if done then Ended(m', root, key) else 0 <= m'[root].hi - m'[root].lo < m[r].hi - m[r].lo
    ensures KeptOutside(m, r, outer, old(Links(outer)), m', root, Links(outer))
  {
    root, lmax, lprev, rmax, rprev, done, m', s' := r, ltreeMax, ltreePrev, rtreeMax, rtreePrev, true, m, s;
    assert Look(r);
    if key < r.val && r.left != null {
      root, rmax, rprev, done, m', s' := GoLeft(r, rtreeMax, rtreePrev, key, m0, m, s, size, outer);
    } else if key > r.val && r.right != null {
      root, lmax, lprev, done, m', s' := GoRight(r, ltreeMax, ltreePrev, key, m0, m, s, size, outer);
    }
  }

  // The loop of top_down_splay.
  method SearchDown(r: SplayNode, head: SplayNode, key: int, ghost m: Sm, ghost size: int, ghost outer: SplayNode?)
    returns (root: SplayNode, ltreeMax: SplayNode, rtreeMax: SplayNode, ghost m': Sm, ghost s: Spine)
    requires Mirrored(m) && Round(m, m, r, Spine(head, [head], [head]), size, key, outer)
    modifies m.Keys, if m[r].parent == null then {} else {m[r].parent}
    ensures Mirrored(m') && Round(m, m', root, s, size, key, outer) && s.head == head && Ended(m', root, key)
    ensures |s.ls| > 0 && ltreeMax == s.ls[|s.ls| - 1] && |s.rs| > 0 && rtreeMax == s.rs[|s.rs| - 1]
    ensures KeptOutside(m, r, outer, old(Links(outer)), m', root, Links(outer))
  {
    s := Spine(head, [head], [head]);
    root, m' := r, m;
    ltreeMax, rtreeMax := head, head;
    var ltreePrev: SplayNode?, rtreePrev: SplayNode? := null, null;
    while true
      invariant Mirrored(m') && Round(m, m', root, s, size, key, outer) && s.head == head
      invariant AtEnds(s, ltreeMax, ltreePrev, rtreeMax, rtreePrev)
      invariant KeptOutside(m, r, outer, old(Links(outer)), m', root, Links(outer))
      invariant m'.Keys == m.Keys && (m'[root].parent == m[r].parent || m'[root].parent == null || m'[root].parent in m)
      decreases m'[root].hi - m'[root].lo
    {
      var done;
      root, ltreeMax, ltreePrev, rtreeMax, rtreePrev, done, m', s :=
        GoOn(root, ltreeMax, ltreePrev, rtreeMax, rtreePrev, key, m, m', s, size, outer);
      if done {
        break;
      }
    }
  }

  /** top_down_splay. The nodes keep their order, keys and sizes; the links agree, the maxima are exact
      and the root is nearest to the key. Of a node above the tree only the left link may change. */
  method TopDownSplay(key: int, r: SplayNode, ghost m: Sm, ghost size: int) returns (root: SplayNode, ghost m': Sm)
    requires Mirrored(m) && Hung(m, r, size)
    modifies m.Keys, if m[r].parent == null then {} else {m[r].parent}
    ensures Mirrored(m') && TreeOk(m', root, size) && SameNodes(m, m') && Nearest(m', root, key)
    ensures var p := m[r].parent; p != null && old(p.left) == r ==> p.right == old(p.right) && p.val == old(p.val)
  {
    ghost var outer := m[r].parent;
    var head, ltreeMax, rtreeMax;
    ghost var m0, s;
    head, m0 := Sentinel(r, key, m, size);
    root, ltreeMax, rtreeMax, m', s := SearchDown(r, head, key, m0, size, outer);
    m' := Assemble(root, head, ltreeMax, rtreeMax, key, m0, m', s, size);
  }
}
