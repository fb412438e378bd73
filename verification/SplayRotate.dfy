/** A rotation of the middle of the tree keeps the pieces. */
module SplayRotate {
  import opened SplayTree
  import opened SplayStores
  import opened SplayPieces

  // ---------- To the right ----------

  // The maxima of the two rotated nodes after a rotation.
  ghost function RightRotated(m: Sm, r: SplayNode): Sm
    requires RightPivotable(m, r)
  {
    var m1, c := PivotRight(m, r), m[r].left;
    var m2 := m1[c := m1[c].(max := m1[r].max)];
    m2[r := m2[r].(max := Computed(m2, r))]
  }

  lemma RightRotateReady(m: Sm, r: SplayNode, s: Spine, size: int, key: int)
    requires Pieces(m, r, s, size, key) && m[r].left != null
    ensures RightPivotable(m, r)
    ensures var c := m[r].left;
      && LinksOk(m, size, r) && LinksOk(m, size, c) && !InSpine(s, c) && m[c].lo == m[r].lo && m[c].hi == m[r].pos
      && m[r].max == Computed(m, r) && m[c].max == Computed(m, c)
      && (m[c].right != null ==> !InSpine(s, m[c].right) && m[m[c].right].parent == c)
      && (m[r].right != null ==> m[r].right in m && m[r].right != c && m[r].right != m[c].right && !InSpine(s, m[r].right))
      && (m[c].left != null ==> m[c].left in m && m[c].left != r && m[c].left != m[c].right && !InSpine(s, m[c].left))
  {
    var c := m[r].left;
    PlacedKid(m, r, s, size, key, r, c);
    assert PlacedOk(m, r, s, size, r);
    if m[c].right != null { PlacedKid(m, r, s, size, key, c, m[c].right); }
    if m[c].left != null { PlacedKid(m, r, s, size, key, c, m[c].left); }
    if m[r].right != null { PlacedKid(m, r, s, size, key, r, m[r].right); }
  }

  // The two rotated nodes.
  lemma RightRotatedPair(m: Sm, r: SplayNode, s: Spine, size: int, key: int)
    requires Pieces(m, r, s, size, key) && m[r].left != null && RightPivotable(m, r)
    ensures var c, m' := m[r].left, RightRotated(m, r);
      && PlacedOk(m', c, s, size, c) && PlacedOk(m', c, s, size, r)
      && m'[c].lo == m[r].lo && m'[c].hi == m[r].hi
  {
    RightRotateReady(m, r, s, size, key);
  }

  lemma RightRotatedLink(m: Sm, r: SplayNode, s: Spine, size: int, key: int)
    requires Pieces(m, r, s, size, key) && m[r].left != null && RightPivotable(m, r)
    ensures RootLink(RightRotated(m, r), m[r].left, s)
  {
    RightRotateReady(m, r, s, size, key);
    var k := |s.ls| - 1;
    if k > 0 { assert LNode(m, s, size, k); }
    assert k > 0 ==> s.ls[k] in s.ls;
    assert s.rs[|s.rs| - 1] in s.rs;
  }

  // What becomes of the other nodes.
  lemma RightRotatedAt(m: Sm, r: SplayNode, x: SplayNode)
    requires RightPivotable(m, r) && x in m && x != r && x != m[r].left
    ensures var c, m' := m[r].left, RightRotated(m, r);
      && m'.Keys == m.Keys && m'[x] == m[x].(left := m'[x].left, right := m'[x].right, parent := m'[x].parent)
      && (x != m[c].right ==> m'[x].parent == m[x].parent)
      && (if x != m[r].parent then m'[x].left == m[x].left && m'[x].right == m[x].right
          else if m[x].left == r then m'[x].left == c && m'[x].right == m[x].right
          else m'[x].left == m[x].left && m'[x].right == c)
  {}

  // Every other node that is in place.
  lemma RightRotatedOther(m: Sm, r: SplayNode, s: Spine, size: int, key: int, x: SplayNode)
    requires Pieces(m, r, s, size, key) && m[r].left != null && RightPivotable(m, r)
    requires x in m && !InSpine(s, x) && x != r && x != m[r].left
    ensures PlacedOk(RightRotated(m, r), m[r].left, s, size, x)
  {
    RightRotateReady(m, r, s, size, key);
    assert PlacedOk(m, r, s, size, x);
    RightRotatedAt(m, r, x);
    var l, q, p := m[x].left, m[x].right, m[x].parent;
    if l != null { PlacedKid(m, r, s, size, key, x, l); RightRotatedAt(m, r, l); }
    if q != null { PlacedKid(m, r, s, size, key, x, q); RightRotatedAt(m, r, q); }
    if p != r && p != m[r].left { RightRotatedAt(m, r, p); }
    RootNotBelow(m, r, s, x);
  }

  // Spine nodes keep everything but the link to the middle.
  lemma RightRotatedLNode(m: Sm, r: SplayNode, s: Spine, size: int, key: int, i: int)
    requires Pieces(m, r, s, size, key) && m[r].left != null && RightPivotable(m, r) && 1 <= i < |s.ls|
    ensures LNode(RightRotated(m, r), s, size, i)
  {
    RightRotateReady(m, r, s, size, key);
    assert LNode(m, s, size, i);
    var x := s.ls[i];
    assert x in s.ls;
    RightRotatedAt(m, r, x);
    if m[x].left != null { RightRotatedAt(m, r, m[x].left); }
    if i > 1 {
      assert LNode(m, s, size, i - 1) && s.ls[i - 1] in s.ls;
      RightRotatedAt(m, r, s.ls[i - 1]);
    }
  }

  lemma RightRotatedRNode(m: Sm, r: SplayNode, s: Spine, size: int, key: int, i: int)
    requires Pieces(m, r, s, size, key) && m[r].left != null && RightPivotable(m, r) && 1 <= i < |s.rs|
    ensures RNode(RightRotated(m, r), s, size, i)
  {
    RightRotateReady(m, r, s, size, key);
    assert RNode(m, s, size, i);
    var x := s.rs[i];
    assert x in s.rs;
    RightRotatedAt(m, r, x);
    if m[x].right != null { RightRotatedAt(m, r, m[x].right); }
    if i > 1 {
      assert RNode(m, s, size, i - 1) && s.rs[i - 1] in s.rs;
      RightRotatedAt(m, r, s.rs[i - 1]);
    }
  }

  lemma RightRotatedSpine(m: Sm, r: SplayNode, s: Spine, size: int, key: int)
    requires Pieces(m, r, s, size, key) && m[r].left != null && RightPivotable(m, r)
    ensures SpineOk(RightRotated(m, r), s, size)
  {
    RightRotateReady(m, r, s, size, key);
    assert s.head in s.ls;
    RightRotatedAt(m, r, s.head);
    forall i | 1 <= i < |s.ls|
      ensures LNode(RightRotated(m, r), s, size, i)
    {
      RightRotatedLNode(m, r, s, size, key, i);
    }
    forall i | 1 <= i < |s.rs|
      ensures RNode(RightRotated(m, r), s, size, i)
    {
      RightRotatedRNode(m, r, s, size, key, i);
    }
  }

  lemma RightRotatedSame(m: Sm, r: SplayNode)
    requires RightPivotable(m, r)
    ensures SameNodes(m, RightRotated(m, r))
  {}

  // A right rotation of the middle keeps the pieces.
  lemma RightRotatedPieces(m: Sm, r: SplayNode, s: Spine, size: int, key: int)
    requires Pieces(m, r, s, size, key) && m[r].left != null
    ensures RightPivotable(m, r) && Pieces(RightRotated(m, r), m[r].left, s, size, key) && SameNodes(m, RightRotated(m, r))
    ensures var c, m' := m[r].left, RightRotated(m, r);
      m'[c].right == r && m'[c].lo == m[r].lo && m'[c].hi == m[r].hi && m'[c].left == m[c].left
  {
    RightRotateReady(m, r, s, size, key);
    var c, m' := m[r].left, RightRotated(m, r);
    RightRotatedPair(m, r, s, size, key);
    RightRotatedLink(m, r, s, size, key);
    RightRotatedSpine(m, r, s, size, key);
    RightRotatedSame(m, r);
    KeptOrder(m, m', r, c, s, key);
    forall x | x in m' && !InSpine(s, x)
      ensures PlacedOk(m', c, s, size, x)
    {
      if x != r && x != c { RightRotatedOther(m, r, s, size, key, x); }
    }
    SameCuts(m, m', s, size);
  }

  // ---------- To the left ----------

  // The maxima of the two rotated nodes after a rotation.
  ghost function LeftRotated(m: Sm, r: SplayNode): Sm
    requires LeftPivotable(m, r)
  {
    var m1, c := PivotLeft(m, r), m[r].right;
    var m2 := m1[c := m1[c].(max := m1[r].max)];
    m2[r := m2[r].(max := Computed(m2, r))]
  }

  lemma LeftRotateReady(m: Sm, r: SplayNode, s: Spine, size: int, key: int)
    requires Pieces(m, r, s, size, key) && m[r].right != null
    ensures LeftPivotable(m, r)
    ensures var c := m[r].right;
      && LinksOk(m, size, r) && LinksOk(m, size, c) && !InSpine(s, c) && m[c].hi == m[r].hi && m[c].lo == m[r].pos + 1
      && m[r].max == Computed(m, r) && m[c].max == Computed(m, c)
      && (m[c].left != null ==> !InSpine(s, m[c].left) && m[m[c].left].parent == c)
      && (m[r].left != null ==> m[r].left in m && m[r].left != c && m[r].left != m[c].left && !InSpine(s, m[r].left))
      && (m[c].right != null ==> m[c].right in m && m[c].right != r && m[c].right != m[c].left && !InSpine(s, m[c].right))
  {
    var c := m[r].right;
    PlacedKid(m, r, s, size, key, r, c);
    assert PlacedOk(m, r, s, size, r);
    if m[c].left != null { PlacedKid(m, r, s, size, key, c, m[c].left); }
    if m[c].right != null { PlacedKid(m, r, s, size, key, c, m[c].right); }
    if m[r].left != null { PlacedKid(m, r, s, size, key, r, m[r].left); }
  }

  // The two rotated nodes.
  lemma LeftRotatedPair(m: Sm, r: SplayNode, s: Spine, size: int, key: int)
    requires Pieces(m, r, s, size, key) && m[r].right != null && LeftPivotable(m, r)
    ensures var c, m' := m[r].right, LeftRotated(m, r);
      && PlacedOk(m', c, s, size, c) && PlacedOk(m', c, s, size, r)
      && m'[c].lo == m[r].lo && m'[c].hi == m[r].hi
  {
    LeftRotateReady(m, r, s, size, key);
  }

  lemma LeftRotatedLink(m: Sm, r: SplayNode, s: Spine, size: int, key: int)
    requires Pieces(m, r, s, size, key) && m[r].right != null && LeftPivotable(m, r)
    ensures RootLink(LeftRotated(m, r), m[r].right, s)
  {
    LeftRotateReady(m, r, s, size, key);
    var k := |s.ls| - 1;
    if k > 0 { assert LNode(m, s, size, k); }
    assert k > 0 ==> s.ls[k] in s.ls;
    assert s.rs[|s.rs| - 1] in s.rs;
  }

  // What becomes of the other nodes.
  lemma LeftRotatedAt(m: Sm, r: SplayNode, x: SplayNode)
    requires LeftPivotable(m, r) && x in m && x != r && x != m[r].right
    ensures var c, m' := m[r].right, LeftRotated(m, r);
      && m'.Keys == m.Keys && m'[x] == m[x].(right := m'[x].right, left := m'[x].left, parent := m'[x].parent)
      && (x != m[c].left ==> m'[x].parent == m[x].parent)
      && (if x != m[r].parent then m'[x].right == m[x].right && m'[x].left == m[x].left
          else if m[x].left == r then m'[x].left == c && m'[x].right == m[x].right
          else m'[x].left == m[x].left && m'[x].right == c)
  {}

  // Every other node that is in place.
  lemma LeftRotatedOther(m: Sm, r: SplayNode, s: Spine, size: int, key: int, x: SplayNode)
    requires Pieces(m, r, s, size, key) && m[r].right != null && LeftPivotable(m, r)
    requires x in m && !InSpine(s, x) && x != r && x != m[r].right
    ensures PlacedOk(LeftRotated(m, r), m[r].right, s, size, x)
  {
    LeftRotateReady(m, r, s, size, key);
    assert PlacedOk(m, r, s, size, x);
    LeftRotatedAt(m, r, x);
    var l, q, p := m[x].right, m[x].left, m[x].parent;
    if l != null { PlacedKid(m, r, s, size, key, x, l); LeftRotatedAt(m, r, l); }
    if q != null { PlacedKid(m, r, s, size, key, x, q); LeftRotatedAt(m, r, q); }
    if p != r && p != m[r].right { LeftRotatedAt(m, r, p); }
    RootNotBelow(m, r, s, x);
  }

  // Spine nodes keep everything but the link to the middle.
  lemma LeftRotatedRNode(m: Sm, r: SplayNode, s: Spine, size: int, key: int, i: int)
    requires Pieces(m, r, s, size, key) && m[r].right != null && LeftPivotable(m, r) && 1 <= i < |s.rs|
    ensures RNode(LeftRotated(m, r), s, size, i)
  {
    LeftRotateReady(m, r, s, size, key);
    assert RNode(m, s, size, i);
    var x := s.rs[i];
    assert x in s.rs;
    LeftRotatedAt(m, r, x);
    if m[x].right != null { LeftRotatedAt(m, r, m[x].right); }
    if i > 1 {
      assert RNode(m, s, size, i - 1) && s.rs[i - 1] in s.rs;
      LeftRotatedAt(m, r, s.rs[i - 1]);
    }
  }

  lemma LeftRotatedLNode(m: Sm, r: SplayNode, s: Spine, size: int, key: int, i: int)
    requires Pieces(m, r, s, size, key) && m[r].right != null && LeftPivotable(m, r) && 1 <= i < |s.ls|
    ensures LNode(LeftRotated(m, r), s, size, i)
  {
    LeftRotateReady(m, r, s, size, key);
    assert LNode(m, s, size, i);
    var x := s.ls[i];
    assert x in s.ls;
    LeftRotatedAt(m, r, x);
    if m[x].left != null { LeftRotatedAt(m, r, m[x].left); }
    if i > 1 {
      assert LNode(m, s, size, i - 1) && s.ls[i - 1] in s.ls;
      LeftRotatedAt(m, r, s.ls[i - 1]);
    }
  }

  lemma LeftRotatedSpine(m: Sm, r: SplayNode, s: Spine, size: int, key: int)
    requires Pieces(m, r, s, size, key) && m[r].right != null && LeftPivotable(m, r)
    ensures SpineOk(LeftRotated(m, r), s, size)
  {
    LeftRotateReady(m, r, s, size, key);
    assert s.head in s.rs;
    LeftRotatedAt(m, r, s.head);
    forall i | 1 <= i < |s.rs|
      ensures RNode(LeftRotated(m, r), s, size, i)
    {
      LeftRotatedRNode(m, r, s, size, key, i);
    }
    forall i | 1 <= i < |s.ls|
      ensures LNode(LeftRotated(m, r), s, size, i)
    {
      LeftRotatedLNode(m, r, s, size, key, i);
    }
  }

  lemma LeftRotatedSame(m: Sm, r: SplayNode)
    requires LeftPivotable(m, r)
    ensures SameNodes(m, LeftRotated(m, r))
  {}

  // A left rotation of the middle keeps the pieces.
  lemma LeftRotatedPieces(m: Sm, r: SplayNode, s: Spine, size: int, key: int)
    requires Pieces(m, r, s, size, key) && m[r].right != null
    ensures LeftPivotable(m, r) && Pieces(LeftRotated(m, r), m[r].right, s, size, key) && SameNodes(m, LeftRotated(m, r))
    ensures var c, m' := m[r].right, LeftRotated(m, r);
      m'[c].left == r && m'[c].lo == m[r].lo && m'[c].hi == m[r].hi && m'[c].right == m[c].right
  {
    LeftRotateReady(m, r, s, size, key);
    var c, m' := m[r].right, LeftRotated(m, r);
    LeftRotatedPair(m, r, s, size, key);
    LeftRotatedLink(m, r, s, size, key);
    LeftRotatedSpine(m, r, s, size, key);
    LeftRotatedSame(m, r);
    KeptOrder(m, m', r, c, s, key);
    forall x | x in m' && !InSpine(s, x)
      ensures PlacedOk(m', c, s, size, x)
    {
      if x != r && x != c { LeftRotatedOther(m, r, s, size, key, x); }
    }
    SameCuts(m, m', s, size);
  }
}
