/** The in-order sequence of keys of a search tree, and what removal does to it. */
module BsInOrder {
  import opened BsTree

  ghost predicate Sorted(s: seq<int>) {
    forall i, j :: 0 <= i < j < |s| ==> s[i] < s[j]
  }

  ghost predicate Within(s: seq<int>, lo: int, hi: int) {
    forall i :: 0 <= i < |s| ==> lo < s[i] < hi
  }

  lemma JoinSorted(a: seq<int>, k: int, b: seq<int>, lo: int, hi: int)
    requires Sorted(a) && Sorted(b) && Within(a, lo, k) && Within(b, k, hi) && lo < k < hi
    ensures Sorted(a + [k] + b) && Within(a + [k] + b, lo, hi)
  {
    var s := a + [k] + b;
    forall i | 0 <= i < |s|
      ensures if i < |a| then lo < s[i] < k else if i == |a| then s[i] == k else k < s[i] < hi
    {}
    forall i, j | 0 <= i < j < |s|
      ensures s[i] < s[j]
    {
      if j < |a| { assert a[i] < a[j]; }
      if i > |a| { assert b[i - |a| - 1] < b[j - |a| - 1]; }
    }
  }

  ghost function InOrder(m: Bsm, root: BstNode, n: BstNode?): (s: seq<int>)
    requires TreeOk(m, root) && (n != null ==> n in m)
    ensures Sorted(s) && (n != null ==> Within(s, m[n].lo, m[n].hi))
    decreases if n == null then 0 else m[n].hi - m[n].lo
  {
    if n == null then []
    else
      assert NodeOk(m, root, n);
      assert m[n].left != null ==> NodeOk(m, root, m[n].left);
      assert m[n].right != null ==> NodeOk(m, root, m[n].right);
      var a, b := InOrder(m, root, m[n].left), InOrder(m, root, m[n].right);
      JoinSorted(a, m[n].key, b, m[n].lo, m[n].hi);
      a + [m[n].key] + b
  }

  // What a node's traversal meets, the root's meets too.
  lemma {:induction false} InOrderRoot(m: Bsm, root: BstNode, n: BstNode, k: int)
    requires TreeOk(m, root) && n in m && k in InOrder(m, root, n)
    ensures k in InOrder(m, root, root)
    decreases SIZE_MAX + 2 - (m[n].hi - m[n].lo)
  {
    assert NodeOk(m, root, n);
    if n != root {
      assert NodeOk(m, root, m[n].parent);
      InOrderRoot(m, root, m[n].parent, k);
    }
  }

  lemma {:induction false} InOrderKeys(m: Bsm, root: BstNode, n: BstNode?, k: int)
    requires TreeOk(m, root) && (n != null ==> n in m) && k in InOrder(m, root, n)
    ensures k in KeysOf(m)
    decreases if n == null then 0 else m[n].hi - m[n].lo
  {
    if n != null {
      assert NodeOk(m, root, n);
      var l, r := m[n].left, m[n].right;
      if l != null { assert NodeOk(m, root, l); }
      if r != null { assert NodeOk(m, root, r); }
      if k in InOrder(m, root, l) {
        InOrderKeys(m, root, l, k);
      } else if k in InOrder(m, root, r) {
        InOrderKeys(m, root, r, k);
      } else {
        assert m[n].key == k;
      }
    }
  }

  // The traversal meets exactly the keys of the tree.
  lemma InOrderExact(m: Bsm, root: BstNode, k: int)
    requires TreeOk(m, root)
    ensures k in InOrder(m, root, root) <==> k in KeysOf(m)
  {
    if k in KeysOf(m) {
      var n: BstNode :| n in m && m[n].key == k;
      assert k in InOrder(m, root, n);
      InOrderRoot(m, root, n, k);
    }
    if k in InOrder(m, root, root) { InOrderKeys(m, root, root, k); }
  }

  lemma HasFirst(s: seq<int>)
    ensures s != [] ==> s[0] in s
  {}

  // A sorted sequence is known by its elements.
  lemma {:induction false} SortedSame(s: seq<int>, t: seq<int>)
    requires Sorted(s) && Sorted(t) && forall k :: k in s <==> k in t
    ensures s == t
  {
    HasFirst(s);
    HasFirst(t);
    if s != [] {
      assert s[0] in s;
      assert s[0] in t;
      assert t[0] in t;
      var i :| 0 <= i < |t| && t[i] == s[0];
      var j :| 0 <= j < |s| && s[j] == t[0];
      assert s[0] == t[0];
      forall k
        ensures k in s[1..] <==> k in t[1..]
      {
        if k in s[1..] { assert k in s && k != s[0]; assert k in t; }
        if k in t[1..] { assert k in t && k != t[0]; assert k in s; }
      }
      SortedSame(s[1..], t[1..]);
      assert s == [s[0]] + s[1..] && t == [t[0]] + t[1..];
    }
  }

  ghost function Traversal(m: Bsm, root: BstNode?): seq<int>
    requires Bst(m, root)
  {
    if root == null then [] else InOrder(m, root, root)
  }

  lemma TraversalExact(m: Bsm, root: BstNode?, k: int)
    requires Bst(m, root)
    ensures k in Traversal(m, root) <==> k in KeysOf(m)
    ensures Sorted(Traversal(m, root))
  {
    if root != null { InOrderExact(m, root, k); }
  }

  // Leaving out one element of a sorted sequence.
  lemma LeftOut(s: seq<int>, i: nat, k: int)
    requires Sorted(s) && i < |s|
    ensures var t := s[..i] + s[i + 1..]; Sorted(t) && (k in t <==> k in s && k != s[i])
  {
    var t := s[..i] + s[i + 1..];
    if k in s && k != s[i] {
      var j :| 0 <= j < |s| && s[j] == k;
      assert t[if j < i then j else j - 1] == k;
    }
    if k in t {
      var j :| 0 <= j < |t| && t[j] == k;
      assert s[if j < i then j else j + 1] == k;
    }
  }

  /** A tree that has lost exactly one key has the in-order sequence without that key. */
  lemma LosesOne(m: Bsm, root: BstNode?, m': Bsm, root': BstNode?, key: int)
    requires Bst(m, root) && Bst(m', root') && key in KeysOf(m) && KeysOf(m') == KeysOf(m) - {key}
    ensures var s, s' := Traversal(m, root), Traversal(m', root');
      exists i :: 0 <= i < |s| && s[i] == key && s' == s[..i] + s[i + 1..]
  {
    var s, s' := Traversal(m, root), Traversal(m', root');
    TraversalExact(m, root, key);
    TraversalExact(m', root', key);
    var i :| 0 <= i < |s| && s[i] == key;
    var t := s[..i] + s[i + 1..];
    forall k
      ensures k in s' <==> k in t
    {
      TraversalExact(m, root, k);
      TraversalExact(m', root', k);
      LeftOut(s, i, k);
    }
    LeftOut(s, i, key);
    SortedSame(s', t);
  }
}
