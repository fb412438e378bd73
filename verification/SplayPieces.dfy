/** The loop of top_down_splay takes the tree apart into three pieces: the nodes below the key, the
    middle, and the nodes above the key. This is what holds in between, value level. */
module SplayPieces {
  import opened SplayTree
  import opened SplayStores

  /** `ls` leads from the sentinel along right links to the last node of the left piece, `rs` along left
      links to the last node of the right piece; both start with the sentinel. */
  datatype Spine = Spine(head: SplayNode, ls: seq<SplayNode>, rs: seq<SplayNode>)

  // Where the positions begin that item `i` of the left spine takes over, and where those of the right end.
  ghost function LCut(m: Sm, s: Spine, i: int): int
    requires 0 < i <= |s.ls|
  {
    if i == 1 then 0 else if s.ls[i - 1] in m then m[s.ls[i - 1]].pos + 1 else 0
  }

  ghost function RCut(m: Sm, s: Spine, size: int, i: int): int
    requires 0 < i <= |s.rs|
  {
    if i == 1 then size else if s.rs[i - 1] in m then m[s.rs[i - 1]].pos else 0
  }

  ghost predicate LNode(m: Sm, s: Spine, size: int, i: int)
    requires 1 <= i < |s.ls|
  {
    var x := s.ls[i];
    && x in m && 0 <= m[x].lo <= m[x].pos < size && m[x].size >= 0 && LeftOk(m, x)
    && m[x].lo == LCut(m, s, i) && m[x].parent == (if i == 1 then null else s.ls[i - 1])
    && (i + 1 < |s.ls| ==> m[x].right == s.ls[i + 1]) && x !in s.rs && x != s.head
  }

  ghost predicate RNode(m: Sm, s: Spine, size: int, i: int)
    requires 1 <= i < |s.rs|
  {
    var x := s.rs[i];
    && x in m && 0 <= m[x].pos < m[x].hi <= size && m[x].size >= 0 && RightOk(m, x)
    && m[x].hi == RCut(m, s, size, i) && m[x].parent == (if i == 1 then null else s.rs[i - 1])
    && (i + 1 < |s.rs| ==> m[x].left == s.rs[i + 1]) && x !in s.ls && x != s.head
  }

  ghost predicate Distinct(q: seq<SplayNode>) {
    forall i, j :: 0 <= i < j < |q| ==> q[i] != q[j]
  }

  ghost predicate SpineOk(m: Sm, s: Spine, size: int) {
    && |s.ls| > 0 && |s.rs| > 0 && s.ls[0] == s.head && s.rs[0] == s.head && Distinct(s.ls) && Distinct(s.rs)
    && s.head in m && m[s.head].parent == null && m[s.head].size >= 0
    && (|s.ls| > 1 ==> m[s.head].right == s.ls[1]) && (|s.rs| > 1 ==> m[s.head].left == s.rs[1])
    && (forall i {:trigger LNode(m, s, size, i)} :: 1 <= i < |s.ls| ==> LNode(m, s, size, i))
    && (forall i {:trigger RNode(m, s, size, i)} :: 1 <= i < |s.rs| ==> RNode(m, s, size, i))
  }

  ghost predicate InSpine(s: Spine, x: SplayNode) {
    x in s.ls || x in s.rs
  }

  // A node that is still in place below the middle or below a node of a spine.
  ghost predicate PlacedOk(m: Sm, root: SplayNode, s: Spine, size: int, x: SplayNode)
    requires x in m
  {
    && LinksOk(m, size, x) && m[x].max == Computed(m, x)
    && (x != root ==>
          && m[x].parent != null && m[x].parent in m && m[x].parent != s.head
          && (|| (m[m[x].parent].left == x && m[x].parent !in s.rs)
              || (m[m[x].parent].right == x && m[x].parent !in s.ls)))
  }

  // The keys left of the middle are below `key`, those right of it above.
  ghost predicate SplitAt(m: Sm, root: SplayNode, s: Spine, key: int, x: SplayNode)
    requires x in m && root in m
  {
    && (x != s.head && m[x].pos < m[root].lo ==> m[x].val < key)
    && (x != s.head && m[x].pos >= m[root].hi ==> m[x].val > key)
  }

  // The middle still hangs below the node that was linked last, or below something outside.
  ghost predicate RootLink(m: Sm, root: SplayNode, s: Spine)
    requires root in m && |s.ls| > 0 && |s.rs| > 0
  {
    var p := m[root].parent;
    || p == null || p !in m
    || (|s.ls| > 1 && p == s.ls[|s.ls| - 1] && m[p].right == root && m[p].left != root)
    || (|s.rs| > 1 && p == s.rs[|s.rs| - 1] && m[p].left == root)
  }

  ghost predicate OrderBut(m: Sm, head: SplayNode) {
    forall a, b {:trigger Ordered(m, a, b)} :: a in m && b in m && a != head && b != head ==> Ordered(m, a, b)
  }

  ghost predicate Pieces(m: Sm, root: SplayNode, s: Spine, size: int, key: int) {
    && SpineOk(m, s, size) && root in m && !InSpine(s, root)
    && m[root].lo == LCut(m, s, |s.ls|) && m[root].hi == RCut(m, s, size, |s.rs|)
    && (forall x {:trigger PlacedOk(m, root, s, size, x)} :: x in m && !InSpine(s, x) ==> PlacedOk(m, root, s, size, x))
    && (forall x {:trigger SplitAt(m, root, s, key, x)} :: x in m ==> SplitAt(m, root, s, key, x))
    && OrderBut(m, s.head) && RootLink(m, root, s)
  }

  lemma SpineParent(m: Sm, s: Spine, size: int, c: SplayNode)
    requires SpineOk(m, s, size) && InSpine(s, c)
    ensures c in m && (m[c].parent == null || (InSpine(s, m[c].parent) && m[c].parent != s.head))
  {
    if c in s.ls {
      var i :| 0 <= i < |s.ls| && s.ls[i] == c;
      if i > 0 { assert LNode(m, s, size, i); }
    } else {
      var i :| 0 <= i < |s.rs| && s.rs[i] == c;
      if i > 0 { assert RNode(m, s, size, i); }
    }
  }

  // A child of the middle is not on a spine.
  lemma PlacedKid(m: Sm, root: SplayNode, s: Spine, size: int, key: int, x: SplayNode, c: SplayNode)
    requires Pieces(m, root, s, size, key) && x in m && !InSpine(s, x) && (m[x].left == c || m[x].right == c)
    ensures LinksOk(m, size, x) && c in m && m[c].parent == x && !InSpine(s, c) && c != root && c != x
    ensures PlacedOk(m, root, s, size, c)
  {
    assert PlacedOk(m, root, s, size, x);
    if InSpine(s, c) { SpineParent(m, s, size, c); }
    RootNotBelow(m, root, s, x);
    assert PlacedOk(m, root, s, size, c);
  }

  lemma RootNotBelow(m: Sm, root: SplayNode, s: Spine, x: SplayNode)
    requires root in m && |s.ls| > 0 && |s.rs| > 0 && RootLink(m, root, s) && x in m && !InSpine(s, x)
    ensures m[root].parent != x
  {}

  lemma OrderKept(m: Sm, m': Sm, head: SplayNode)
    requires SameNodes(m, m') && OrderBut(m, head)
    ensures OrderBut(m', head)
  {
    forall a, b | a in m' && b in m' && a != head && b != head
      ensures Ordered(m', a, b)
    {
      assert Ordered(m, a, b);
    }
  }

  // The nodes, their positions, keys and sizes are the same, and the middle has the same range.
  lemma KeptOrder(m: Sm, m': Sm, root: SplayNode, root': SplayNode, s: Spine, key: int)
    requires SameNodes(m, m') && OrderBut(m, s.head) && root in m && root' in m
    requires m'[root'].lo == m[root].lo && m'[root'].hi == m[root].hi
    requires forall x {:trigger SplitAt(m, root, s, key, x)} :: x in m ==> SplitAt(m, root, s, key, x)
    ensures OrderBut(m', s.head)
    ensures forall x {:trigger SplitAt(m', root', s, key, x)} :: x in m' ==> SplitAt(m', root', s, key, x)
  {
    OrderKept(m, m', s.head);
    forall x | x in m'
      ensures SplitAt(m', root', s, key, x)
    {
      assert SplitAt(m, root, s, key, x);
    }
  }

  lemma SameCuts(m: Sm, m': Sm, s: Spine, size: int)
    requires SameNodes(m, m') && |s.ls| > 0 && |s.rs| > 0
    ensures LCut(m', s, |s.ls|) == LCut(m, s, |s.ls|) && RCut(m', s, size, |s.rs|) == RCut(m, s, size, |s.rs|)
  {}
}
