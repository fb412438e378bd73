/** Putting the three pieces together again, and recomputing the maxima along the two seams. */
module SplayAssemble {
  import opened SplayTree
  import opened SplayStores
  import opened SplayPieces

  // The tree that results, with the sentinel beside it; the maxima along the spines are still wrong.
  ghost function Assembled(m: Sm, root: SplayNode, s: Spine, size: int): Sm
    requires root in m && |s.ls| > 0 && |s.rs| > 0
  {
    var k, j, a, b, p := |s.ls| - 1, |s.rs| - 1, m[root].left, m[root].right, m[root].pos;
    map x | x in m ::
      var v := m[x];
      if x == root then
        v.(left := if k == 0 then a else s.ls[1], right := if j == 0 then b else s.rs[1], parent := null, lo := 0, hi := size)
      else if x == s.head then v.(right := if k == 0 then a else v.right, left := if j == 0 then b else v.left)
      else if x in s.ls then
        v.(right := if x == s.ls[k] then a else v.right, hi := p, parent := if k > 0 && x == s.ls[1] then root else v.parent)
      else if x in s.rs then
        v.(left := if x == s.rs[j] then b else v.left, lo := p + 1, parent := if j > 0 && x == s.rs[1] then root else v.parent)
      else if x == a then v.(parent := if k == 0 then root else s.ls[k])
      else if x == b then v.(parent := if j == 0 then root else s.rs[j])
      else v
  }

  lemma {:induction false} LRising(m: Sm, s: Spine, size: int, i: int, j: int)
    requires SpineOk(m, s, size) && 1 <= i < j < |s.ls|
    ensures s.ls[i] in m && s.ls[j] in m && m[s.ls[i]].pos < m[s.ls[j]].pos
    decreases j - i
  {
    assert LNode(m, s, size, j) && LNode(m, s, size, j - 1) && LNode(m, s, size, i);
    if i + 1 < j { LRising(m, s, size, i, j - 1); }
  }

  lemma {:induction false} RFalling(m: Sm, s: Spine, size: int, i: int, j: int)
    requires SpineOk(m, s, size) && 1 <= i < j < |s.rs|
    ensures s.rs[i] in m && s.rs[j] in m && m[s.rs[j]].pos < m[s.rs[i]].pos
    decreases j - i
  {
    assert RNode(m, s, size, j) && RNode(m, s, size, j - 1) && RNode(m, s, size, i);
    if i + 1 < j { RFalling(m, s, size, i, j - 1); }
  }

  // What the cases below start from.
  lemma AssembleStart(m: Sm, root: SplayNode, s: Spine, size: int, key: int)
    requires Pieces(m, root, s, size, key)
    ensures LinksOk(m, size, root) && m[root].max == Computed(m, root) && root != s.head
    ensures var a, b := m[root].left, m[root].right;
      && (a != null ==> a in m && !InSpine(s, a) && a != root && a != b)
      && (b != null ==> b in m && !InSpine(s, b) && b != root)
    ensures forall i :: 0 <= i < |s.ls| ==> s.ls[i] in s.ls
    ensures forall i :: 0 <= i < |s.rs| ==> s.rs[i] in s.rs
  {
    assert PlacedOk(m, root, s, size, root);
    assert s.head in s.ls by { assert s.ls[0] in s.ls; }
    var a, b := m[root].left, m[root].right;
    if a != null { PlacedKid(m, root, s, size, key, root, a); }
    if b != null { PlacedKid(m, root, s, size, key, root, b); }
  }

  lemma AssembledRoot(m: Sm, root: SplayNode, s: Spine, size: int, key: int)
    requires Pieces(m, root, s, size, key)
    ensures LinksOk(Assembled(m, root, s, size), size, root)
  {
    AssembleStart(m, root, s, size, key);
    if |s.ls| > 1 {
      assert LNode(m, s, size, 1) && LNode(m, s, size, |s.ls| - 1);
    }
    if |s.rs| > 1 {
      assert RNode(m, s, size, 1) && RNode(m, s, size, |s.rs| - 1);
    }
  }

  lemma AssembledL(m: Sm, root: SplayNode, s: Spine, size: int, key: int, i: int)
    requires Pieces(m, root, s, size, key) && 1 <= i < |s.ls|
    ensures s.ls[i] in m && ShapeOk(Assembled(m, root, s, size), root, size, s.ls[i])
  {
    AssembleStart(m, root, s, size, key);
    var k, x := |s.ls| - 1, s.ls[i];
    assert LNode(m, s, size, i) && LNode(m, s, size, k);
    if i < k {
      LRising(m, s, size, i, k);
      assert LNode(m, s, size, i + 1);
    }
    var c := m[x].left;
    if c != null { SpineKid(m, root, s, size, key, x, c); }
    if i > 1 { assert LNode(m, s, size, i - 1); }
  }

  lemma AssembledR(m: Sm, root: SplayNode, s: Spine, size: int, key: int, i: int)
    requires Pieces(m, root, s, size, key) && 1 <= i < |s.rs|
    ensures s.rs[i] in m && ShapeOk(Assembled(m, root, s, size), root, size, s.rs[i])
  {
    AssembleStart(m, root, s, size, key);
    var k, x := |s.rs| - 1, s.rs[i];
    assert RNode(m, s, size, i) && RNode(m, s, size, k);
    if i < k {
      RFalling(m, s, size, i, k);
      assert RNode(m, s, size, i + 1);
    }
    var c := m[x].right;
    if c != null { SpineKid(m, root, s, size, key, x, c); }
    if i > 1 { assert RNode(m, s, size, i - 1); }
  }

  // The node above a spine node is the one before it.
  lemma SpineAbove(m: Sm, s: Spine, size: int, c: SplayNode)
    requires SpineOk(m, s, size) && InSpine(s, c)
    ensures c in m && (m[c].parent != null ==>
      || (c in s.ls && m[c].parent in s.ls && m[c].parent in m && m[m[c].parent].right == c && m[c].lo > m[m[c].parent].pos)
      || (c in s.rs && m[c].parent in s.rs && m[c].parent in m && m[m[c].parent].left == c && m[c].hi <= m[m[c].parent].pos))
    ensures c != s.head ==> !(c in s.ls && c in s.rs)
  {
    if c in s.ls {
      var i :| 0 <= i < |s.ls| && s.ls[i] == c;
      if i > 0 { assert LNode(m, s, size, i); }
      if i > 1 { assert LNode(m, s, size, i - 1); }
    } else {
      var i :| 0 <= i < |s.rs| && s.rs[i] == c;
      if i > 0 { assert RNode(m, s, size, i); }
      if i > 1 { assert RNode(m, s, size, i - 1); }
    }
  }

  // The outer child of a spine node is a node in place.
  lemma SpineKid(m: Sm, root: SplayNode, s: Spine, size: int, key: int, x: SplayNode, c: SplayNode)
    requires Pieces(m, root, s, size, key) && x in m && InSpine(s, x) && x != s.head
    requires (x in s.ls && m[x].left == c) || (x in s.rs && m[x].right == c)
    ensures c in m && c != root && !InSpine(s, c) && m[c].parent == x && c != m[root].left && c != m[root].right
  {
    AssembleStart(m, root, s, size, key);
    SpineSide(m, s, size, x);
    SpineAbove(m, s, size, x);
    RootOff(m, root, s, size, key, x);
    if InSpine(s, c) { SpineAbove(m, s, size, c); }
  }

  lemma SpineSide(m: Sm, s: Spine, size: int, x: SplayNode)
    requires SpineOk(m, s, size) && InSpine(s, x) && x != s.head
    ensures x in m && (x in s.ls ==> LeftOk(m, x) && m[x].lo <= m[x].pos) && (x in s.rs ==> RightOk(m, x) && m[x].pos < m[x].hi)
  {
    if x in s.ls {
      var i :| 0 <= i < |s.ls| && s.ls[i] == x;
      assert LNode(m, s, size, i);
    }
    if x in s.rs {
      var i :| 0 <= i < |s.rs| && s.rs[i] == x;
      assert RNode(m, s, size, i);
    }
  }

  // The middle is no outer child.
  lemma RootOff(m: Sm, root: SplayNode, s: Spine, size: int, key: int, x: SplayNode)
    requires Pieces(m, root, s, size, key) && InSpine(s, x) && x != s.head
    ensures x in m && (x in s.ls ==> m[x].left != root) && (x in s.rs ==> m[x].right != root)
  {
    SpineSide(m, s, size, x);
    AssembleStart(m, root, s, size, key);
    if |s.rs| > 1 { assert RNode(m, s, size, |s.rs| - 1); }
    if |s.ls| > 1 { assert LNode(m, s, size, |s.ls| - 1); }
    SpineAbove(m, s, size, x);
  }

  // The two subtrees of the middle hang below the ends of the spines, or stay where they are.
  lemma AssembledUnderRoot(m: Sm, root: SplayNode, s: Spine, size: int, key: int, x: SplayNode)
    requires Pieces(m, root, s, size, key) && (m[root].left == x || m[root].right == x)
    ensures x in m && UpOk(Assembled(m, root, s, size), x)
  {
    AssembleStart(m, root, s, size, key);
    var k, j := |s.ls| - 1, |s.rs| - 1;
    if k > 0 { assert LNode(m, s, size, k); }
    if j > 0 { assert RNode(m, s, size, j); }
  }

  lemma AssembledUp(m: Sm, root: SplayNode, s: Spine, size: int, key: int, x: SplayNode)
    requires Pieces(m, root, s, size, key) && x in m && !InSpine(s, x) && x != root
    ensures UpOk(Assembled(m, root, s, size), x)
  {
    assert PlacedOk(m, root, s, size, x);
    if m[x].parent == root {
      AssembledUnderRoot(m, root, s, size, key, x);
    } else {
      AssembleStart(m, root, s, size, key);
    }
  }

  // A node that stayed in place.
  lemma AssembledPlaced(m: Sm, root: SplayNode, s: Spine, size: int, key: int, x: SplayNode)
    requires Pieces(m, root, s, size, key) && x in m && !InSpine(s, x) && x != root
    ensures var m' := Assembled(m, root, s, size); LinksOk(m', size, x) && m'[x].max == Computed(m', x)
  {
    AssembleStart(m, root, s, size, key);
    assert PlacedOk(m, root, s, size, x);
    var l, q := m[x].left, m[x].right;
    if l != null { PlacedKid(m, root, s, size, key, x, l); }
    if q != null { PlacedKid(m, root, s, size, key, x, q); }
  }

  // The maxima outside `bad` are exact.
  ghost predicate MaxOk(m: Sm, x: SplayNode)
    requires x in m
  {
    m[x].max == Computed(m, x)
  }

  ghost predicate MaxOkBut(m: Sm, bad: set<SplayNode>) {
    forall x {:trigger MaxOk(m, x)} :: x in m && x !in bad ==> MaxOk(m, x)
  }

  /** All links are right; the sentinel is still there but belongs to no node. */
  ghost predicate Shaped(m: Sm, head: SplayNode, root: SplayNode, size: int) {
    && root in m && root != head && m[root].lo == 0 && m[root].hi == size && m[root].parent == null
    && head in m && m[head].parent == null && m[head].size >= 0
    && (m[head].left != null ==> m[head].left in m) && (m[head].right != null ==> m[head].right in m)
    && (forall x {:trigger ShapeOk(m, root, size, x)} :: x in m && x != head ==> ShapeOk(m, root, size, x) && m[x].parent != head)
    && OrderBut(m, head)
  }

  // The nodes of a seam, from the top.
  ghost function Seam(head: SplayNode, root: SplayNode, q: seq<SplayNode>): seq<SplayNode>
    requires |q| > 0
  {
    if |q| == 1 then [head] else [root] + q[1..]
  }

  ghost predicate SeamOk(m: Sm, q: seq<SplayNode>) {
    && |q| > 0 && (forall i :: 0 <= i < |q| ==> q[i] in m)
    && m[q[0]].parent == null && (forall i :: 0 < i < |q| ==> m[q[i]].parent == q[i - 1])
  }

  lemma AssembledShape(m: Sm, root: SplayNode, s: Spine, size: int, key: int, x: SplayNode)
    requires Pieces(m, root, s, size, key) && x in m && x != s.head
    ensures ShapeOk(Assembled(m, root, s, size), root, size, x)
  {
    if x in s.ls {
      var i :| 0 <= i < |s.ls| && s.ls[i] == x;
      AssembledL(m, root, s, size, key, i);
    } else if x in s.rs {
      var i :| 0 <= i < |s.rs| && s.rs[i] == x;
      AssembledR(m, root, s, size, key, i);
    } else if x == root {
      AssembledRoot(m, root, s, size, key);
    } else {
      AssembledPlaced(m, root, s, size, key, x);
      AssembledUp(m, root, s, size, key, x);
    }
  }

  // Nothing hangs below the sentinel any more.
  lemma AssembledOff(m: Sm, root: SplayNode, s: Spine, size: int, key: int, x: SplayNode)
    requires Pieces(m, root, s, size, key) && x in m && x != s.head
    ensures Assembled(m, root, s, size)[x].parent != s.head
  {
    AssembleStart(m, root, s, size, key);
    if InSpine(s, x) {
      SpineParent(m, s, size, x);
    } else {
      assert PlacedOk(m, root, s, size, x);
    }
  }

  lemma AssembledHead(m: Sm, root: SplayNode, s: Spine, size: int, key: int)
    requires Pieces(m, root, s, size, key)
    ensures root != s.head
    ensures var m' := Assembled(m, root, s, size);
      && m'[s.head].parent == null && m'[s.head].size >= 0
      && (m'[s.head].left != null ==> m'[s.head].left in m') && (m'[s.head].right != null ==> m'[s.head].right in m')
  {
    AssembleStart(m, root, s, size, key);
    if |s.ls| > 1 { assert LNode(m, s, size, 1); }
    if |s.rs| > 1 { assert RNode(m, s, size, 1); }
  }

  lemma AssembledSame(m: Sm, root: SplayNode, s: Spine, size: int)
    requires root in m && |s.ls| > 0 && |s.rs| > 0
    ensures SameNodes(m, Assembled(m, root, s, size))
  {}

  lemma AssembledShaped(m: Sm, root: SplayNode, s: Spine, size: int, key: int)
    requires Pieces(m, root, s, size, key)
    ensures var m' := Assembled(m, root, s, size); Shaped(m', s.head, root, size)
  {
    var m' := Assembled(m, root, s, size);
    AssembledHead(m, root, s, size, key);
    AssembledSame(m, root, s, size);
    OrderKept(m, m', s.head);
    forall x | x in m' && x != s.head
      ensures ShapeOk(m', root, size, x) && m'[x].parent != s.head
    {
      AssembledShape(m, root, s, size, key, x);
      AssembledOff(m, root, s, size, key, x);
    }
  }

  ghost function Members(q: seq<SplayNode>): set<SplayNode> {
    set x | x in q
  }

  // Only the sentinel and the seams have wrong maxima.
  lemma AssembledMax(m: Sm, root: SplayNode, s: Spine, size: int, key: int)
    requires Pieces(m, root, s, size, key)
    ensures MaxOkBut(Assembled(m, root, s, size),
                     {s.head} + Members(Seam(s.head, root, s.ls)) + Members(Seam(s.head, root, s.rs)))
  {
    var m' := Assembled(m, root, s, size);
    AssembleStart(m, root, s, size, key);
    var lq, rq := Seam(s.head, root, s.ls), Seam(s.head, root, s.rs);
    forall x | x in m' && x !in {s.head} + Members(lq) + Members(rq)
      ensures MaxOk(m', x)
    {
      SeamMembers(s.head, root, s.ls, x);
      SeamMembers(s.head, root, s.rs, x);
      if x != root { AssembledPlaced(m, root, s, size, key, x); }
    }
  }

  lemma SeamMembers(head: SplayNode, root: SplayNode, q: seq<SplayNode>, x: SplayNode)
    requires |q| > 0 && q[0] == head
    ensures x in q ==> x == head || x in Members(Seam(head, root, q))
    ensures |q| > 1 ==> root in Members(Seam(head, root, q))
  {
    if |q| > 1 { assert Seam(head, root, q)[0] == root; }
    if x in q && x != head {
      var i :| 0 <= i < |q| && q[i] == x;
      assert Seam(head, root, q)[i] == x;
    }
  }

  lemma AssembledSeams(m: Sm, root: SplayNode, s: Spine, size: int, key: int)
    requires Pieces(m, root, s, size, key)
    ensures var m' := Assembled(m, root, s, size);
      SeamOk(m', Seam(s.head, root, s.ls)) && SeamOk(m', Seam(s.head, root, s.rs))
  {
    var m' := Assembled(m, root, s, size);
    AssembleStart(m, root, s, size, key);
    var lq, rq := Seam(s.head, root, s.ls), Seam(s.head, root, s.rs);
    forall i | 0 < i < |lq|
      ensures lq[i] in m' && m'[lq[i]].parent == lq[i - 1]
    {
      assert LNode(m, s, size, i) && lq[i] == s.ls[i] && lq[i - 1] == if i == 1 then root else s.ls[i - 1];
    }
    forall i | 0 < i < |rq|
      ensures rq[i] in m' && m'[rq[i]].parent == rq[i - 1]
    {
      assert RNode(m, s, size, i) && rq[i] == s.rs[i] && rq[i - 1] == if i == 1 then root else s.rs[i - 1];
    }
  }

  // Recomputing one maximum leaves at most the node above it wrong.
  lemma MaxStep(m: Sm, head: SplayNode, root: SplayNode, size: int, x: SplayNode, bad: set<SplayNode>)
    requires Shaped(m, head, root, size) && MaxOkBut(m, bad) && head in bad && x in m
    requires m[x].parent == null || m[x].parent in bad
    ensures var m' := m[x := m[x].(max := Computed(m, x))];
      Shaped(m', head, root, size) && MaxOkBut(m', bad - (if x == head then {} else {x})) && SameNodes(m, m')
  {
    var m' := m[x := m[x].(max := Computed(m, x))];
    forall y | y in m' && y != head
      ensures ShapeOk(m', root, size, y) && m'[y].parent != head
    {
      assert ShapeOk(m, root, size, y);
    }
    if x != head { assert ShapeOk(m, root, size, x); }
    forall y | y in m' && y !in bad - (if x == head then {} else {x})
      ensures MaxOk(m', y)
    {
      if y != head {
        assert ShapeOk(m, root, size, y);
        if y != x { assert MaxOk(m, y); }
      }
    }
    OrderKept(m, m', head);
  }
}
