/** The B-tree: nodes with keys at every level, and the structural invariant stated node by node. */
module BTree {
  import opened Words

  // The minimum degree; every statement holds for any degree of at least 2. btree.h uses 16.
  type Degree = t: nat | 2 <= t witness 16
  const MIN_DEGREE: Degree
  const MIN_NODE_SLOTS: nat := MIN_DEGREE - 1
  const MAX_NODE_SLOTS: nat := 2 * MIN_DEGREE - 1

  /** A node; `links` is empty in a leaf. */
  class BtNode {
    var slot: seq<int>
    var links: seq<BtNode>

    constructor ()
      ensures slot == [] && links == []
    {
      slot, links := [], [];
    }
  }

  /** Holds the global variable `root`. */
  class BtRoot {
    var root: BtNode

    constructor ()
      ensures fresh(root) && root.slot == [] && root.links == []
    {
      root := new BtNode();
    }
  }

  /** What the proofs know about one node: its fields, the node above it, the open key interval (lo, hi)
      that the keys above assign to it, and its height. */
  datatype Bn = Bn(slot: seq<int>, links: seq<BtNode>, up: BtNode?, lo: int, hi: int, h: int)

  type Bm = map<BtNode, Bn>

  // Naming a node makes the verifier look at it.
  ghost predicate Look(n: BtNode) {
    true
  }

  // The heap agrees with `m` on all nodes of height at most `h`.
  ghost predicate Mirrored(m: Bm, h: int)
    reads m.Keys
  {
    forall n: BtNode {:trigger Look(n)} :: Look(n) && n in m && m[n].h <= h ==> n.slot == m[n].slot && n.links == m[n].links
  }

  // The keys of the tree.
  ghost function Keys(m: Bm): set<int> {
    set n: BtNode, k | n in m && k in m[n].slot :: k
  }

  // The interval of the i-th child.
  ghost function KLo(v: Bn, i: int): int
    requires 0 <= i <= |v.slot|
  {
    if i == 0 then v.lo else v.slot[i - 1]
  }

  ghost function KHi(v: Bn, i: int): int
    requires 0 <= i <= |v.slot|
  {
    if i == |v.slot| then v.hi else v.slot[i]
  }

  ghost predicate Rising(s: seq<int>) {
    forall i, j :: 0 <= i < j < |s| ==> s[i] < s[j]
  }

  ghost predicate SlotsOk(v: Bn) {
    && v.h >= 0 && v.lo < v.hi && Rising(v.slot)
    && (forall i :: 0 <= i < |v.slot| ==> v.lo < v.slot[i] < v.hi)
    && |v.links| == (if v.h == 0 then 0 else |v.slot| + 1)
  }

  ghost predicate KidOk(m: Bm, n: BtNode, i: int)
    requires n in m && 0 <= i < |m[n].links| == |m[n].slot| + 1
  {
    var c := m[n].links[i];
    && c in m && m[c].up == n && m[c].h == m[n].h - 1
    && m[c].lo == KLo(m[n], i) && m[c].hi == KHi(m[n], i)
  }

  ghost predicate KidsOk(m: Bm, n: BtNode)
    requires n in m && |m[n].links| == |m[n].slot| + 1
  {
    forall i {:trigger KidOk(m, n, i)} :: 0 <= i < |m[n].links| ==> KidOk(m, n, i)
  }

  ghost predicate UpOk(m: Bm, root: BtNode, n: BtNode)
    requires n in m && root in m
  {
    var v := m[n];
    && -1 <= v.lo && v.hi <= W
    && (n == root ==> v.up == null && v.lo == -1 && v.hi == W)
    && (n != root ==> v.h < m[root].h && v.up != null && v.up in m && n in m[v.up].links)
  }

  ghost predicate NodeOk(m: Bm, root: BtNode, n: BtNode)
    requires n in m && root in m
  {
    && UpOk(m, root, n) && SlotsOk(m[n]) && (m[n].h > 0 ==> KidsOk(m, n))
  }

  ghost predicate Struct(m: Bm, root: BtNode) {
    root in m && forall n {:trigger NodeOk(m, root, n)} :: n in m ==> NodeOk(m, root, n)
  }

  // Occupancy: between t - 1 and 2t - 1 keys below the root.
  ghost predicate SizeOk(m: Bm, root: BtNode) {
    forall n {:trigger |m[n].slot|} :: n in m ==>
      && |m[n].slot| <= MAX_NODE_SLOTS
      && (n != root ==> |m[n].slot| >= MIN_NODE_SLOTS)
      && (n == root && m[n].h > 0 ==> |m[n].slot| >= 1)
  }

  ghost predicate Inside(v: Bn, k: int) {
    v.lo < k < v.hi
  }

  // The edge above a node other than the root.
  lemma UpEdge(m: Bm, root: BtNode, x: BtNode) returns (p: BtNode, i: int)
    requires Struct(m, root) && x in m && x != root
    ensures p in m && m[x].up == p && m[p].h > 0 && SlotsOk(m[p])
    ensures 0 <= i < |m[p].links| && m[p].links[i] == x && KidOk(m, p, i)
  {
    assert NodeOk(m, root, x);
    p := m[x].up;
    i :| 0 <= i < |m[p].links| && m[p].links[i] == x;
    assert NodeOk(m, root, p) && KidOk(m, p, i);
  }

  // Two nodes around the same key nest, and are the same at equal height.
  lemma {:induction false} Nest(m: Bm, root: BtNode, x: BtNode, y: BtNode, k: int)
    requires Struct(m, root) && x in m && y in m
    requires m[x].h <= m[y].h && Inside(m[x], k) && Inside(m[y], k)
    ensures m[y].lo <= m[x].lo && m[x].hi <= m[y].hi
    ensures m[x].h == m[y].h ==> x == y
    decreases m[root].h - m[x].h, m[root].h - m[y].h
  {
    assert NodeOk(m, root, x) && NodeOk(m, root, y);
    if x != root {
      var p, i := UpEdge(m, root, x);
      assert NodeOk(m, root, p);
      if m[x].h < m[y].h {
        Nest(m, root, p, y, k);
      } else if y != root {
        var q, j := UpEdge(m, root, y);
        Nest(m, root, p, q, k);
      }
    }
  }

  // No node lies around a key of a higher node.
  lemma {:induction false} NoDeeper(m: Bm, root: BtNode, x: BtNode, y: BtNode, k: int)
    requires Struct(m, root) && x in m && y in m && m[x].h < m[y].h && k in m[y].slot
    ensures !Inside(m[x], k)
    decreases m[root].h - m[x].h
  {
    assert NodeOk(m, root, x) && NodeOk(m, root, y);
    if Inside(m[x], k) && x != root {
      var p, i := UpEdge(m, root, x);
      assert NodeOk(m, root, p);
      if m[p].h < m[y].h {
        NoDeeper(m, root, p, y, k);
      } else {
        Nest(m, root, p, y, k);
      }
    }
  }

  // Every key occurs once in the tree.
  lemma KeyOnce(m: Bm, root: BtNode, x: BtNode, i: nat, y: BtNode, j: nat)
    requires Struct(m, root) && x in m && y in m && m[x].h <= m[y].h
    requires i < |m[x].slot| && j < |m[y].slot| && m[x].slot[i] == m[y].slot[j]
    ensures x == y && i == j
  {
    var k := m[x].slot[i];
    assert NodeOk(m, root, x) && NodeOk(m, root, y);
    if m[x].h < m[y].h {
      NoDeeper(m, root, x, y, k);
    } else {
      Nest(m, root, x, y, k);
    }
  }

  // The nodes a node lists are exactly those below it.
  lemma KidsExactly(m: Bm, root: BtNode, n: BtNode)
    requires Struct(m, root) && n in m
    ensures SlotsOk(m[n])
    ensures forall x :: x in m[n].links ==> x in m && x != n && m[x].up == n
    ensures forall x :: x in m && m[x].up == n ==> x in m[n].links
  {
    assert NodeOk(m, root, n);
    forall x | x in m[n].links
      ensures x in m && x != n && m[x].up == n
    {
      var i :| 0 <= i < |m[n].links| && m[n].links[i] == x;
      assert KidOk(m, n, i);
    }
    forall x | x in m && m[x].up == n
      ensures x in m[n].links
    {
      assert NodeOk(m, root, x);
    }
  }
}
