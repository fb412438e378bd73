/** What one step of a B-tree removal does to the invariant, value level. */
module BTreeSteps {
  import opened Words
  import opened BTree
  import opened BTreeCut
  import opened BTreeOps
  import Merging

  ghost predicate Sound(m: Bm, root: BtNode) {
    Struct(m, root) && SizeOk(m, root)
  }

  // Enough keys to lose one, or the root.
  ghost predicate Roomy(m: Bm, root: BtNode, n: BtNode)
    requires n in m
  {
    n == root || |m[n].slot| > MIN_NODE_SLOTS
  }

  // Nothing above height `h` has changed, and no node has changed its height.
  ghost predicate Below(m: Bm, m': Bm, h: int) {
    && m'.Keys <= m.Keys
    && (forall x {:trigger m'[x]} :: x in m' ==> m'[x].h == m[x].h)
    && (forall x {:trigger m[x]} :: x in m && m[x].h > h ==> x in m' && m'[x] == m[x])
  }

  lemma BelowTrans(a: Bm, b: Bm, c: Bm, h: int)
    requires Below(a, b, h) && Below(b, c, h)
    ensures Below(a, c, h)
  {}

  lemma MergeBelow(m: Bm, root: BtNode, p: BtNode, i: nat)
    requires Struct(m, root) && Mergeable(m, p, i)
    ensures Below(m, Merge(m, p, i), m[p].h)
  {
    MergeStart(m, root, p, i);
    var r := m[p].links[i + 1];
    forall x | x in m && m[x].h > m[p].h
      ensures Merge(m, p, i)[x] == m[x]
    {
      assert NodeOk(m, root, x);
      if x != root && m[x].up == r {
        var q, j := UpEdge(m, root, x);
      }
    }
  }

  lemma CutBelow(m: Bm, root: BtNode, s: Site)
    requires Struct(m, root) && Cuttable(m, s)
    ensures forall x :: x in m && m[x].h > m[s.p].h ==> Cut(m, s)[x] == m[x]
    ensures forall x :: x in m ==> Cut(m, s)[x].h == m[x].h
  {
    CutStart(m, root, s);
    var c := m[s.p].links[s.i];
    forall x | x in m && m[x].h > m[s.p].h
      ensures Cut(m, s)[x] == m[x]
    {
      assert NodeOk(m, root, x);
      if x != root && m[x].up == c {
        var q, j := UpEdge(m, root, x);
      }
    }
  }

  lemma RedivideBelow(m: Bm, root: BtNode, p: BtNode, i: nat, k: nat)
    requires Struct(m, root) && Redividable(m, p, i, k)
    ensures Below(m, Redivide(m, p, i, k), m[p].h)
  {
    MergeStart(m, root, p, i);
    MergeStruct(m, root, p, i);
    MergeBelow(m, root, p, i);
    CutBelow(Merge(m, p, i), root, Site(p, i, m[p].links[i + 1], k));
    RedivideHalves(m, p, i, k);
  }

  // ---------- Sizes ----------

  lemma RedivideSizes(m: Bm, root: BtNode, p: BtNode, i: nat, k: nat)
    requires Sound(m, root) && Redividable(m, p, i, k)
    requires MIN_NODE_SLOTS <= k <= MAX_NODE_SLOTS
    requires MIN_NODE_SLOTS <= |m[m[p].links[i]].slot| + |m[m[p].links[i + 1]].slot| - k <= MAX_NODE_SLOTS
    ensures SizeOk(Redivide(m, p, i, k), root)
  {
    var m' := Redivide(m, p, i, k);
    MergeStart(m, root, p, i);
    RedivideParent(m, p, i, k);
    RedivideHalves(m, p, i, k);
    forall n | n in m'
      ensures && |m'[n].slot| <= MAX_NODE_SLOTS && (n != root ==> |m'[n].slot| >= MIN_NODE_SLOTS)
              && (n == root && m'[n].h > 0 ==> |m'[n].slot| >= 1)
    {
      assert |m[n].slot| <= MAX_NODE_SLOTS;
      if n != p && n != m[p].links[i] && n != m[p].links[i + 1] {
        RedivideOthers(m, p, i, k, n);
      }
    }
  }

  lemma MergeSlots(m: Bm, p: BtNode, i: nat, n: BtNode)
    requires Mergeable(m, p, i) && n in m && n != m[p].links[i + 1]
    ensures var l, r, m' := m[p].links[i], m[p].links[i + 1], Merge(m, p, i);
      && n in m' && m'[n].h == m[n].h
      && |m'[n].slot| == (if n == l then |m[l].slot| + |m[r].slot| + 1 else if n == p then |m[p].slot| - 1 else |m[n].slot|)
  {}

  lemma MergeSizes(m: Bm, root: BtNode, p: BtNode, i: nat)
    requires Sound(m, root) && Mergeable(m, p, i) && Roomy(m, root, p)
    requires |m[m[p].links[i]].slot| == MIN_NODE_SLOTS && |m[m[p].links[i + 1]].slot| == MIN_NODE_SLOTS
    ensures var m' := Merge(m, p, i);
      && (forall n :: n in m' ==> |m'[n].slot| <= MAX_NODE_SLOTS && (n != root ==> |m'[n].slot| >= MIN_NODE_SLOTS))
      && (root in m' && m'[root].h > 0 && m'[root].slot == [] ==> p == root)
  {
    var m' := Merge(m, p, i);
    MergeStart(m, root, p, i);
    forall n | n in m'
      ensures && |m'[n].slot| <= MAX_NODE_SLOTS && (n != root ==> |m'[n].slot| >= MIN_NODE_SLOTS)
              && (n == root && m'[n].h > 0 && n != p ==> |m'[n].slot| >= 1)
    {
      MergeSlots(m, p, i, n);
      assert |m[n].slot| <= MAX_NODE_SLOTS;
    }
  }

  // ---------- Steps ----------

  // The removal of `val` may go on at `n`.
  ghost predicate At(m: Bm, root: BtNode, n: BtNode, val: int) {
    Sound(m, root) && n in m && Inside(m[n], val) && Roomy(m, root, n)
  }

  // A key moves from the right sibling to the child that the search is about to enter.
  lemma MovedLeft(m: Bm, root: BtNode, p: BtNode, i: nat, k: nat, val: int)
    requires Sound(m, root) && Redividable(m, p, i, k) && k == MIN_NODE_SLOTS + 1
    requires var l, r := m[p].links[i], m[p].links[i + 1];
      |m[l].slot| == MIN_NODE_SLOTS && |m[r].slot| > MIN_NODE_SLOTS && Inside(m[l], val)
    ensures var m' := Redivide(m, p, i, k);
      At(m', root, m[p].links[i], val) && Keys(m') == Keys(m) && Below(m, m', m[p].h)
  {
    var l, r := m[p].links[i], m[p].links[i + 1];
    MergeStart(m, root, p, i);
    assert |m[r].slot| <= MAX_NODE_SLOTS;
    RedivideStruct(m, root, p, i, k);
    RedivideSizes(m, root, p, i, k);
    RedivideBelow(m, root, p, i, k);
    RedivideHalves(m, p, i, k);
    assert NodeOk(m, root, r) && m[r].lo < m[r].slot[0];
    assert (m[l].slot + [m[p].slot[i]] + m[r].slot)[k] == m[r].slot[0];
  }

  lemma MovedRight(m: Bm, root: BtNode, p: BtNode, i: nat, k: nat, val: int)
    requires Sound(m, root) && Redividable(m, p, i, k) && k + 1 == |m[m[p].links[i]].slot|
    requires var l, r := m[p].links[i], m[p].links[i + 1];
      |m[r].slot| == MIN_NODE_SLOTS && |m[l].slot| > MIN_NODE_SLOTS && Inside(m[r], val)
    ensures var m' := Redivide(m, p, i, k);
      At(m', root, m[p].links[i + 1], val) && Keys(m') == Keys(m) && Below(m, m', m[p].h)
  {
    var l, r := m[p].links[i], m[p].links[i + 1];
    MergeStart(m, root, p, i);
    assert |m[l].slot| <= MAX_NODE_SLOTS;
    RedivideStruct(m, root, p, i, k);
    RedivideSizes(m, root, p, i, k);
    RedivideBelow(m, root, p, i, k);
    RedivideHalves(m, p, i, k);
    assert NodeOk(m, root, l) && m[l].slot[k] < m[l].hi;
    assert (m[l].slot + [m[p].slot[i]] + m[r].slot)[k] == m[l].slot[k];
  }

  lemma CollapseBelow(m: Bm, root: BtNode)
    requires Struct(m, root) && |m[root].links| == 1 && m[root].links[0] in m && m[root].h > 0
    ensures Below(m, Collapse(m, root), m[root].h)
  {
    assert KidOk(m, root, 0) by { assert NodeOk(m, root, root); }
    forall x | x in m
      ensures m[x].h <= m[root].h
    {
      assert NodeOk(m, root, x);
    }
  }

  // Two minimal siblings have been merged; the root is replaced if it ran empty.
  lemma MergedDown(m: Bm, root: BtNode, p: BtNode, i: nat, val: int)
    requires Sound(m, root) && Mergeable(m, p, i) && Roomy(m, root, p)
    requires var l, r := m[p].links[i], m[p].links[i + 1];
      |m[l].slot| == MIN_NODE_SLOTS && |m[r].slot| == MIN_NODE_SLOTS && m[l].lo < val < m[r].hi
    ensures var l, m' := m[p].links[i], Merged(m, root, p, i);
      var root' := if p == root && |m[p].slot| == 1 then l else root;
      && At(m', root', l, val) && Keys(m') == Keys(m) && Below(m, m', m[p].h)
      && m'[l].slot == m[l].slot + [m[p].slot[i]] + m[m[p].links[i + 1]].slot
  {
    var l, m1 := m[p].links[i], Merge(m, p, i);
    MergeStart(m, root, p, i);
    MergeStruct(m, root, p, i);
    MergeKeys(m, p, i);
    MergeSizes(m, root, p, i);
    MergeBelow(m, root, p, i);
    if p == root && |m[p].slot| == 1 {
      assert m1[p].slot == [] && m1[p].links == [l];
      CollapseStruct(m1, p);
      CollapseBelow(m1, p);
      BelowTrans(m, m1, Collapse(m1, p), m[p].h);
      CollapsedSizes(m1, p, l);
    } else {
      MergeSlots(m, p, i, p);
      assert forall n :: n in m1 ==> |m1[n].slot| >= 0;
    }
  }

  lemma CollapsedSizes(m: Bm, root: BtNode, l: BtNode)
    requires root in m && l in m && |m[root].links| == 1 && m[root].links[0] == l && l != root && |m[l].slot| >= 1
    requires forall n :: n in m ==> |m[n].slot| <= MAX_NODE_SLOTS && (n != root ==> |m[n].slot| >= MIN_NODE_SLOTS)
    ensures SizeOk(Collapse(m, root), l)
  {
    var m' := Collapse(m, root);
    forall n | n in m'
      ensures |m'[n].slot| == |m[n].slot|
    {}
  }

  // The search for `val` ends in a leaf that does not hold it: no node does.
  lemma NotFound(m: Bm, root: BtNode, n: BtNode, val: int)
    requires Struct(m, root) && n in m && m[n].h == 0 && Inside(m[n], val) && val !in m[n].slot
    ensures val !in Keys(m)
  {
    if val in Keys(m) {
      var y: BtNode :| y in m && val in m[y].slot;
      assert NodeOk(m, root, y);
      if m[y].h == 0 {
        Nest(m, root, n, y, val);
      } else {
        NoDeeper(m, root, n, y, val);
      }
    }
  }

  // ---------- Deleting a key of a leaf ----------

  ghost function SetSlot(m: Bm, n: BtNode, slot: seq<int>): Bm
    requires n in m
  {
    m[n := m[n].(slot := slot)]
  }

  lemma DelInLeaf(m: Bm, root: BtNode, n: BtNode, i: nat)
    requires Sound(m, root) && n in m && m[n].h == 0 && Roomy(m, root, n) && i < |m[n].slot|
    ensures var m' := SetSlot(m, n, Merging.Del(m[n].slot, i));
      && Sound(m', root) && Keys(m') == Keys(m) - {m[n].slot[i]} && Below(m, m', m[n].h)
  {
    var m' := SetSlot(m, n, Merging.Del(m[n].slot, i));
    assert NodeOk(m, root, n);
    forall x | x in m'
      ensures NodeOk(m', root, x)
    {
      assert NodeOk(m, root, x);
      if m[x].h > 0 {
        forall j | 0 <= j < |m'[x].links|
          ensures KidOk(m', x, j)
        {
          assert KidOk(m, x, j);
        }
      }
    }
    forall x | x in m'
      ensures && |m'[x].slot| <= MAX_NODE_SLOTS && (x != root ==> |m'[x].slot| >= MIN_NODE_SLOTS)
              && (x == root && m'[x].h > 0 ==> |m'[x].slot| >= 1)
    {
      assert |m[x].slot| <= MAX_NODE_SLOTS;
    }
    DelKeys(m, root, n, i);
  }

  lemma DelKeys(m: Bm, root: BtNode, n: BtNode, i: nat)
    requires Struct(m, root) && n in m && m[n].h == 0 && i < |m[n].slot|
    ensures Keys(SetSlot(m, n, Merging.Del(m[n].slot, i))) == Keys(m) - {m[n].slot[i]}
  {
    var m' := SetSlot(m, n, Merging.Del(m[n].slot, i));
    var key := m[n].slot[i];
    forall k | k in Keys(m) && k != key
      ensures k in Keys(m')
    {
      var x: BtNode :| x in m && k in m[x].slot;
      DelElement(m[n].slot, i, k);
      assert k in m'[x].slot;
    }
    forall k | k in Keys(m')
      ensures k in Keys(m) && k != key
    {
      var x: BtNode :| x in m' && k in m'[x].slot;
      DelElement(m[n].slot, i, k);
      assert k in m[x].slot;
      if k == key {
        assert NodeOk(m, root, x);
        var j :| 0 <= j < |m[x].slot| && m[x].slot[j] == k;
        KeyOnce(m, root, n, i, x, j);
      }
    }
  }
}
