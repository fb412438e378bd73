/** Linking the middle of the tree to the left or the right piece. */
module SplayLink {
  import opened SplayTree
  import opened SplayPieces

  // The middle is not in place below a node of a spine.
  lemma NotOnSpine(m: Sm, root: SplayNode, s: Spine, size: int, key: int, x: SplayNode)
    requires Pieces(m, root, s, size, key) && InSpine(s, x) && x != s.head
    ensures x in m
    ensures x in s.ls ==> m[x].left != root
    ensures x in s.rs ==> m[x].right != root
  {
    SpineParent(m, s, size, x);
    assert PlacedOk(m, root, s, size, root);
    var k := |s.rs| - 1;
    if k > 0 { assert RNode(m, s, size, k); }
    if x in s.ls {
      var i :| 0 <= i < |s.ls| && s.ls[i] == x;
      assert LNode(m, s, size, i);
    }
    if x in s.rs {
      var i :| 0 <= i < |s.rs| && s.rs[i] == x;
      assert RNode(m, s, size, i);
    }
  }

  // The middle joins the right piece and its left child becomes the middle.
  ghost function LinkedRight(m: Sm, root: SplayNode, s: Spine): Sm
    requires |s.rs| > 0 && s.rs[|s.rs| - 1] in m && root in m
  {
    var k := |s.rs| - 1;
    var m1 := m[s.rs[k] := m[s.rs[k]].(left := root)];
    m1[root := m1[root].(parent := if k == 0 then null else s.rs[k])]
  }

  lemma LinkRightReady(m: Sm, root: SplayNode, s: Spine, size: int, key: int)
    requires Pieces(m, root, s, size, key) && m[root].left != null
    ensures var k := |s.rs| - 1; s.rs[k] in m && s.rs[k] != root
    ensures LinksOk(m, size, root) && !InSpine(s, m[root].left) && m[root].left in m && m[root].left != root
    ensures forall x :: x in m && !InSpine(s, x) ==> m[x].left != root && m[x].right != root
  {
    var k := |s.rs| - 1;
    if k > 0 { assert RNode(m, s, size, k); }
    assert s.rs[k] in s.rs;
    assert PlacedOk(m, root, s, size, root);
    PlacedKid(m, root, s, size, key, root, m[root].left);
    forall x | x in m && !InSpine(s, x)
      ensures m[x].left != root && m[x].right != root
    {
      assert PlacedOk(m, root, s, size, x);
      RootNotBelow(m, root, s, x);
    }
  }

  lemma LinkRightPlaced(m: Sm, root: SplayNode, s: Spine, size: int, key: int, x: SplayNode)
    requires Pieces(m, root, s, size, key) && m[root].left != null && s.rs[|s.rs| - 1] in m
    requires x in m && !InSpine(s, x) && x != root
    ensures PlacedOk(LinkedRight(m, root, s), m[root].left, s.(rs := s.rs + [root]), size, x)
  {
    LinkRightReady(m, root, s, size, key);
    assert PlacedOk(m, root, s, size, x);
    assert s.rs[|s.rs| - 1] in s.rs;
    var l, q := m[x].left, m[x].right;
    if l != null { PlacedKid(m, root, s, size, key, x, l); }
    if q != null { PlacedKid(m, root, s, size, key, x, q); }
  }

  lemma LinkRightLNode(m: Sm, root: SplayNode, s: Spine, size: int, key: int, i: int)
    requires Pieces(m, root, s, size, key) && m[root].left != null && s.rs[|s.rs| - 1] in m && 1 <= i < |s.ls|
    ensures LNode(LinkedRight(m, root, s), s.(rs := s.rs + [root]), size, i)
  {
    LinkRightReady(m, root, s, size, key);
    assert LNode(m, s, size, i);
    var x := s.ls[i];
    assert x in s.ls && s.rs[|s.rs| - 1] in s.rs;
    if i > 1 { assert LNode(m, s, size, i - 1) && s.ls[i - 1] in s.ls; }
    NotOnSpine(m, root, s, size, key, x);
  }

  lemma LinkRightRNode(m: Sm, root: SplayNode, s: Spine, size: int, key: int, i: int)
    requires Pieces(m, root, s, size, key) && m[root].left != null && s.rs[|s.rs| - 1] in m && 1 <= i < |s.rs| + 1
    ensures RNode(LinkedRight(m, root, s), s.(rs := s.rs + [root]), size, i)
  {
    LinkRightReady(m, root, s, size, key);
    assert PlacedOk(m, root, s, size, root);
    if i > 1 { assert RNode(m, s, size, i - 1) && s.rs[i - 1] in s.rs; }
    if i < |s.rs| {
      assert RNode(m, s, size, i);
      var x := s.rs[i];
      assert x in s.rs;
      NotOnSpine(m, root, s, size, key, x);
    }
  }

  lemma LinkRightSpine(m: Sm, root: SplayNode, s: Spine, size: int, key: int)
    requires Pieces(m, root, s, size, key) && m[root].left != null && s.rs[|s.rs| - 1] in m
    ensures SpineOk(LinkedRight(m, root, s), s.(rs := s.rs + [root]), size)
  {
    LinkRightReady(m, root, s, size, key);
    var m', s' := LinkedRight(m, root, s), s.(rs := s.rs + [root]);
    assert s.head in s.ls && forall i :: 0 <= i < |s.rs| ==> s.rs[i] in s.rs;
    forall i | 1 <= i < |s'.ls|
      ensures LNode(m', s', size, i)
    {
      LinkRightLNode(m, root, s, size, key, i);
    }
    forall i | 1 <= i < |s'.rs|
      ensures RNode(m', s', size, i)
    {
      LinkRightRNode(m, root, s, size, key, i);
    }
  }

  lemma LinkRightSplit(m: Sm, root: SplayNode, s: Spine, size: int, key: int, x: SplayNode)
    requires Pieces(m, root, s, size, key) && m[root].left != null && s.rs[|s.rs| - 1] in m && key < m[root].val && x in m
    ensures m[root].left in m && SplitAt(LinkedRight(m, root, s), m[root].left, s.(rs := s.rs + [root]), key, x)
  {
    LinkRightReady(m, root, s, size, key);
    assert SplitAt(m, root, s, key, x);
    assert root != s.head by { assert s.head in s.ls; }
    if x != s.head { assert Ordered(m, x, root); }
  }

  // Linking keeps the pieces, and the middle becomes smaller.
  lemma LinkRightPieces(m: Sm, root: SplayNode, s: Spine, size: int, key: int)
    requires Pieces(m, root, s, size, key) && m[root].left != null && key < m[root].val
    ensures s.rs[|s.rs| - 1] in m && m[root].left in m
    ensures var m', s', c := LinkedRight(m, root, s), s.(rs := s.rs + [root]), m[root].left;
      Pieces(m', c, s', size, key) && SameNodes(m, m') && 0 <= m'[c].hi - m'[c].lo < m[root].hi - m[root].lo
  {
    LinkRightReady(m, root, s, size, key);
    var m', s', c := LinkedRight(m, root, s), s.(rs := s.rs + [root]), m[root].left;
    LinkRightSpine(m, root, s, size, key);
    forall x | x in m' && !InSpine(s', x)
      ensures PlacedOk(m', c, s', size, x)
    {
      assert root in s'.rs && forall y :: y in s.rs ==> y in s'.rs;
      LinkRightPlaced(m, root, s, size, key, x);
    }
    forall x | x in m'
      ensures SplitAt(m', c, s', key, x)
    {
      LinkRightSplit(m, root, s, size, key, x);
    }
    forall a, b | a in m' && b in m' && a != s.head && b != s.head
      ensures Ordered(m', a, b)
    {
      assert Ordered(m, a, b);
    }
  }

  // The middle joins the left piece and its right child becomes the middle.
  ghost function LinkedLeft(m: Sm, root: SplayNode, s: Spine): Sm
    requires |s.ls| > 0 && s.ls[|s.ls| - 1] in m && root in m
  {
    var k := |s.ls| - 1;
    var m1 := m[s.ls[k] := m[s.ls[k]].(right := root)];
    m1[root := m1[root].(parent := if k == 0 then null else s.ls[k])]
  }

  lemma LinkLeftReady(m: Sm, root: SplayNode, s: Spine, size: int, key: int)
    requires Pieces(m, root, s, size, key) && m[root].right != null
    ensures var k := |s.ls| - 1; s.ls[k] in m && s.ls[k] != root
    ensures LinksOk(m, size, root) && !InSpine(s, m[root].right) && m[root].right in m && m[root].right != root
    ensures forall x :: x in m && !InSpine(s, x) ==> m[x].right != root && m[x].left != root
  {
    var k := |s.ls| - 1;
    if k > 0 { assert LNode(m, s, size, k); }
    assert s.ls[k] in s.ls;
    assert PlacedOk(m, root, s, size, root);
    PlacedKid(m, root, s, size, key, root, m[root].right);
    forall x | x in m && !InSpine(s, x)
      ensures m[x].right != root && m[x].left != root
    {
      assert PlacedOk(m, root, s, size, x);
      RootNotBelow(m, root, s, x);
    }
  }

  lemma LinkLeftPlaced(m: Sm, root: SplayNode, s: Spine, size: int, key: int, x: SplayNode)
    requires Pieces(m, root, s, size, key) && m[root].right != null && s.ls[|s.ls| - 1] in m
    requires x in m && !InSpine(s, x) && x != root
    ensures PlacedOk(LinkedLeft(m, root, s), m[root].right, s.(ls := s.ls + [root]), size, x)
  {
    LinkLeftReady(m, root, s, size, key);
    assert PlacedOk(m, root, s, size, x);
    assert s.ls[|s.ls| - 1] in s.ls;
    var l, q := m[x].right, m[x].left;
    if l != null { PlacedKid(m, root, s, size, key, x, l); }
    if q != null { PlacedKid(m, root, s, size, key, x, q); }
  }

  lemma LinkLeftRNode(m: Sm, root: SplayNode, s: Spine, size: int, key: int, i: int)
    requires Pieces(m, root, s, size, key) && m[root].right != null && s.ls[|s.ls| - 1] in m && 1 <= i < |s.rs|
    ensures RNode(LinkedLeft(m, root, s), s.(ls := s.ls + [root]), size, i)
  {
    LinkLeftReady(m, root, s, size, key);
    assert RNode(m, s, size, i);
    var x := s.rs[i];
    assert x in s.rs && s.ls[|s.ls| - 1] in s.ls;
    if i > 1 { assert RNode(m, s, size, i - 1) && s.rs[i - 1] in s.rs; }
    NotOnSpine(m, root, s, size, key, x);
  }

  lemma LinkLeftLNode(m: Sm, root: SplayNode, s: Spine, size: int, key: int, i: int)
    requires Pieces(m, root, s, size, key) && m[root].right != null && s.ls[|s.ls| - 1] in m && 1 <= i < |s.ls| + 1
    ensures LNode(LinkedLeft(m, root, s), s.(ls := s.ls + [root]), size, i)
  {
    LinkLeftReady(m, root, s, size, key);
    assert PlacedOk(m, root, s, size, root);
    if i > 1 { assert LNode(m, s, size, i - 1) && s.ls[i - 1] in s.ls; }
    if i < |s.ls| {
      assert LNode(m, s, size, i);
      var x := s.ls[i];
      assert x in s.ls;
      NotOnSpine(m, root, s, size, key, x);
    }
  }

  lemma LinkLeftSpine(m: Sm, root: SplayNode, s: Spine, size: int, key: int)
    requires Pieces(m, root, s, size, key) && m[root].right != null && s.ls[|s.ls| - 1] in m
    ensures SpineOk(LinkedLeft(m, root, s), s.(ls := s.ls + [root]), size)
  {
    LinkLeftReady(m, root, s, size, key);
    var m', s' := LinkedLeft(m, root, s), s.(ls := s.ls + [root]);
    assert s.head in s.rs && forall i :: 0 <= i < |s.ls| ==> s.ls[i] in s.ls;
    forall i | 1 <= i < |s'.rs|
      ensures RNode(m', s', size, i)
    {
      LinkLeftRNode(m, root, s, size, key, i);
    }
    forall i | 1 <= i < |s'.ls|
      ensures LNode(m', s', size, i)
    {
      LinkLeftLNode(m, root, s, size, key, i);
    }
  }

  lemma LinkLeftSplit(m: Sm, root: SplayNode, s: Spine, size: int, key: int, x: SplayNode)
    requires Pieces(m, root, s, size, key) && m[root].right != null && s.ls[|s.ls| - 1] in m && key > m[root].val && x in m
    ensures m[root].right in m && SplitAt(LinkedLeft(m, root, s), m[root].right, s.(ls := s.ls + [root]), key, x)
  {
    LinkLeftReady(m, root, s, size, key);
    assert SplitAt(m, root, s, key, x);
    assert root != s.head by { assert s.head in s.rs; }
    if x != s.head { assert Ordered(m, x, root); }
  }

  // Linking keeps the pieces, and the middle becomes smaller.
  lemma LinkLeftPieces(m: Sm, root: SplayNode, s: Spine, size: int, key: int)
    requires Pieces(m, root, s, size, key) && m[root].right != null && key > m[root].val
    ensures s.ls[|s.ls| - 1] in m && m[root].right in m
    ensures var m', s', c := LinkedLeft(m, root, s), s.(ls := s.ls + [root]), m[root].right;
      Pieces(m', c, s', size, key) && SameNodes(m, m') && 0 <= m'[c].hi - m'[c].lo < m[root].hi - m[root].lo
  {
    LinkLeftReady(m, root, s, size, key);
    var m', s', c := LinkedLeft(m, root, s), s.(ls := s.ls + [root]), m[root].right;
    LinkLeftSpine(m, root, s, size, key);
    forall x | x in m' && !InSpine(s', x)
      ensures PlacedOk(m', c, s', size, x)
    {
      assert root in s'.ls && forall y :: y in s.ls ==> y in s'.ls;
      LinkLeftPlaced(m, root, s, size, key, x);
    }
    forall x | x in m'
      ensures SplitAt(m', c, s', key, x)
    {
      LinkLeftSplit(m, root, s, size, key, x);
    }
    forall a, b | a in m' && b in m' && a != s.head && b != s.head
      ensures Ordered(m', a, b)
    {
      assert Ordered(m, a, b);
    }
  }
}
