/** bt_insert and bt_search. */
module BTreeInsert {
  import opened Words
  import opened BTree
  import opened BTreeCut
  import opened BTreeOps
  import opened BTreeSteps
  import Cutting

  // The search for `val` has arrived at `n`, which has room for one more key.
  ghost predicate Open(m: Bm, root: BtNode, n: BtNode, val: int) {
    Sound(m, root) && n in m && Inside(m[n], val) && |m[n].slot| < MAX_NODE_SLOTS
  }

  lemma CutSizes(m: Bm, root: BtNode, s: Site)
    requires Struct(m, root) && Cuttable(m, s) && s.k == MIN_DEGREE - 1
    requires forall n :: n in m ==> |m[n].slot| <= MAX_NODE_SLOTS && (n != root ==> |m[n].slot| >= MIN_NODE_SLOTS)
    requires root in m && (m[root].h > 0 && root != s.p ==> |m[root].slot| >= 1)
    requires |m[m[s.p].links[s.i]].slot| == MAX_NODE_SLOTS && |m[s.p].slot| < MAX_NODE_SLOTS
    ensures SizeOk(Cut(m, s), root)
  {
    var m' := Cut(m, s);
    CutStart(m, root, s);
    forall n | n in m'
      ensures && |m'[n].slot| <= MAX_NODE_SLOTS && (n != root ==> |m'[n].slot| >= MIN_NODE_SLOTS)
              && (n == root && m'[n].h > 0 ==> |m'[n].slot| >= 1)
    {
      if n != s.r { assert |m[n].slot| <= MAX_NODE_SLOTS; }
    }
  }

  // A full child has been split: the half on the side of `val` can be entered, unless `val` moved up.
  lemma SplitDown(m: Bm, root: BtNode, s: Site, val: int)
    requires Sound(m, root) && Cuttable(m, s) && s.k == MIN_DEGREE - 1 && |m[s.p].slot| < MAX_NODE_SLOTS
    requires |m[m[s.p].links[s.i]].slot| == MAX_NODE_SLOTS && Inside(m[m[s.p].links[s.i]], val)
    ensures var m' := Cut(m, s);
      && Sound(m', root) && Keys(m') == Keys(m) && m'[root].h == m[root].h && s.i < |m'[s.p].slot| && s.i + 1 < |m'[s.p].links|
      && (m'[s.p].slot[s.i] == val ==> val in Keys(m))
      && (m'[s.p].slot[s.i] != val ==>
            var n := m'[s.p].links[if val > m'[s.p].slot[s.i] then s.i + 1 else s.i];
            Open(m', root, n, val) && m'[n].h + 1 == m[s.p].h)
  {
    var m' := Cut(m, s);
    CutStart(m, root, s);
    CutStruct(m, root, s);
    CutKeys(m, s);
    CutSizes(m, root, s);
    assert m'[s.p].slot[s.i] in m'[s.p].slot;
    assert m'[s.p].links[s.i] == m[s.p].links[s.i] && m'[s.p].links[s.i + 1] == s.r;
  }

  lemma InsInLeaf(m: Bm, root: BtNode, n: BtNode, i: nat, val: int)
    requires Open(m, root, n, val) && m[n].h == 0 && Position(m[n].slot, val, i) && val !in m[n].slot
    ensures var m' := SetSlot(m, n, Cutting.Ins(m[n].slot, i, val));
      && Sound(m', root) && Keys(m') == Keys(m) + {val}
  {
    var m' := SetSlot(m, n, Cutting.Ins(m[n].slot, i, val));
    assert NodeOk(m, root, n);
    InsRising(m[n].slot, i, val);
    forall x | x in m'
      ensures NodeOk(m', root, x)
    {
      assert NodeOk(m, root, x);
      if m[x].h > 0 {
        forall j | 0 <= j < |m'[x].links|
          ensures KidOk(m', x, j)
        {
          assert KidOk(m, x, j);
        }
      }
    }
    forall x | x in m'
      ensures && |m'[x].slot| <= MAX_NODE_SLOTS && (x != root ==> |m'[x].slot| >= MIN_NODE_SLOTS)
              && (x == root && m'[x].h > 0 ==> |m'[x].slot| >= 1)
    {
      assert |m[x].slot| <= MAX_NODE_SLOTS;
    }
    InsKeys(m, n, i, val);
  }

  lemma InsKeys(m: Bm, n: BtNode, i: nat, val: int)
    requires n in m && i <= |m[n].slot|
    ensures Keys(SetSlot(m, n, Cutting.Ins(m[n].slot, i, val))) == Keys(m) + {val}
  {
    var m' := SetSlot(m, n, Cutting.Ins(m[n].slot, i, val));
    InsElement(m[n].slot, i, val, val);
    assert val in m'[n].slot;
    forall k | k in Keys(m)
      ensures k in Keys(m')
    {
      var x: BtNode :| x in m && k in m[x].slot;
      InsElement(m[n].slot, i, val, k);
      assert k in m'[x].slot;
    }
    forall k | k in Keys(m')
      ensures k in Keys(m) + {val}
    {
      var x: BtNode :| x in m' && k in m'[x].slot;
      InsElement(m[n].slot, i, val, k);
      assert k == val || k in m[x].slot;
    }
  }

  /** An empty tree is one leaf. */
  method BtNew() returns (t: BtRoot, ghost m: Bm)
    ensures fresh(t) && fresh(t.root) && m.Keys == {t.root} && Sound(m, t.root) && Mirrored(m, m[t.root].h) && Keys(m) == {}
  {
    t := new BtRoot();
    m := map[t.root := Bn([], [], null, -1, W, 0)];
  }

  // ---------- A full root ----------

  lemma GrowSplit(m: Bm, root: BtNode, nr: BtNode, s: Site)
    requires Sound(m, root) && nr !in m && |m[root].slot| == MAX_NODE_SLOTS
    requires Cuttable(Grow(m, root, nr), s) && s.p == nr && s.i == 0 && s.k == MIN_DEGREE - 1
    ensures var m' := Cut(Grow(m, root, nr), s);
      && Sound(m', nr) && Keys(m') == Keys(m) && nr in m' && |m'[nr].slot| == 1 && m'[nr].lo == -1 && m'[nr].hi == W
      && m'[nr].h == m[root].h + 1
  {
    var g := Grow(m, root, nr);
    GrowStruct(m, root, nr);
    forall n | n in g
      ensures |g[n].slot| <= MAX_NODE_SLOTS && (n != nr ==> |g[n].slot| >= MIN_NODE_SLOTS)
    {
      if n != nr { assert |m[n].slot| <= MAX_NODE_SLOTS; }
    }
    CutSizes(g, nr, s);
    CutStruct(g, nr, s);
    CutKeys(g, s);
  }

  // bt_split_root_node
  method BtSplitRootNode(root: BtNode, ghost m: Bm) returns (newRoot: BtNode, ghost m': Bm)
    requires Sound(m, root) && |m[root].slot| == MAX_NODE_SLOTS && Mirrored(m, m[root].h)
    modifies root
    ensures fresh(newRoot) && newRoot in m' && fresh(m'.Keys - m.Keys) && m.Keys <= m'.Keys
    ensures Sound(m', newRoot) && Keys(m') == Keys(m) && |m'[newRoot].slot| == 1 && m'[newRoot].lo == -1 && m'[newRoot].hi == W
    ensures Mirrored(m', m'[newRoot].h)
  {
    assert NodeOk(m, root, root);
    newRoot := new BtNode();
    newRoot.links := [root];
    ghost var g := Grow(m, root, newRoot);
    GrowStruct(m, root, newRoot);
    assert forall n: BtNode :: n in m ==> m[n].h <= m[root].h by {
      forall n: BtNode | n in m
        ensures m[n].h <= m[root].h
      {
        assert NodeOk(m, root, n);
      }
    }
    assert Mirrored(g, g[newRoot].h);
    ghost var r;
    m', r := BtSplitChildNode(root, newRoot, 0, g, newRoot, g[newRoot].h);
    GrowSplit(m, root, newRoot, Site(newRoot, 0, r, MIN_DEGREE - 1));
  }

  // ---------- The descent ----------

  // What one round of the loop finds out.
  datatype Outcome = Present | Inserted | Descend(n: BtNode)

  lemma RoundFacts(m: Bm, root: BtNode, n: BtNode, val: int, i: nat)
    requires Open(m, root, n, val) && Position(m[n].slot, val, i)
    ensures SlotsOk(m[n])
    ensures (i < |m[n].slot| && m[n].slot[i] == val) <==> val in m[n].slot
    ensures val in m[n].slot ==> val in Keys(m)
    ensures val !in m[n].slot && m[n].h > 0 ==>
      && i < |m[n].links| && var c := m[n].links[i];
      && c in m && Inside(m[c], val) && m[c].h + 1 == m[n].h && |m[c].slot| <= MAX_NODE_SLOTS
  {
    assert NodeOk(m, root, n);
    if i < |m[n].slot| && m[n].slot[i] == val { assert m[n].slot[i] in m[n].slot; }
    if val !in m[n].slot && m[n].h > 0 {
      PositionInside(m, root, n, val, i);
    }
  }

  method Round(n: BtNode, val: int, ghost m: Bm, ghost root: BtNode, ghost h: int) returns (o: Outcome, ghost m': Bm)
    requires Open(m, root, n, val) && Mirrored(m, h) && 0 <= m[n].h <= h
    modifies m.Keys
    ensures Sound(m', root) && Mirrored(m', h) && fresh(m'.Keys - m.Keys) && m'[root].h == m[root].h
    ensures o.Present? ==> val in Keys(m) && Keys(m') == Keys(m)
    ensures o.Inserted? ==> val !in Keys(m) && Keys(m') == Keys(m) + {val}
    ensures o.Descend? ==> Open(m', root, o.n, val) && Keys(m') == Keys(m) && 0 <= m'[o.n].h < m[n].h
  {
    assert Look(n) && NodeOk(m, root, n);
    var index := BtSearchNodeIndex(n, val);
    RoundFacts(m, root, n, val, index);
    m' := m;
    if index < |n.slot| && n.slot[index] == val {
      return Present, m';
    }
    if n.links == [] {
      InsInLeaf(m, root, n, index, val);
      NotFound(m, root, n, val);
      m' := Store(n, Cutting.Ins(n.slot, index, val), n.links, m, h);
      return Inserted, m';
    }
    var c := n.links[index];
    assert Look(c) && NodeOk(m, root, c);
    if |c.slot| == MAX_NODE_SLOTS {
      o, m' := SplitRound(c, n, index, val, m, root, h);
    } else {
      o := Descend(c);
    }
  }

  // The child is full: split it and choose the half, unless the key that moved up is `val`.
  method SplitRound(c: BtNode, n: BtNode, index: nat, val: int, ghost m: Bm, ghost root: BtNode, ghost h: int) returns (o: Outcome, ghost m': Bm)
    requires Open(m, root, n, val) && Mirrored(m, h) && 0 < m[n].h <= h && index < |m[n].links| && m[n].links[index] == c
    requires c in m && |m[c].slot| == MAX_NODE_SLOTS && Inside(m[c], val)
    modifies m.Keys
    ensures Sound(m', root) && Mirrored(m', h) && fresh(m'.Keys - m.Keys) && !o.Inserted? && Keys(m') == Keys(m)
    ensures m'[root].h == m[root].h
    ensures o.Present? ==> val in Keys(m)
    ensures o.Descend? ==> Open(m', root, o.n, val) && 0 <= m'[o.n].h < m[n].h
  {
    ghost var r;
    m', r := BtSplitChildNode(c, n, index, m, root, h);
    SplitDown(m, root, Site(n, index, r, MIN_DEGREE - 1), val);
    assert Look(n);
    if n.slot[index] == val {
      return Present, m';
    }
    var j := index;
    if val > n.slot[index] {
      j := index + 1;
    }
    assert NodeOk(m', root, n.links[j]);
    o := Descend(n.links[j]);
  }

  /** bt_insert: adds `val`, or returns -1 if it is there already. */
  method BtInsert(t: BtRoot, val: int, ghost m0: Bm) returns (rv: int, ghost m: Bm)
    requires Sound(m0, t.root) && Mirrored(m0, m0[t.root].h) && -1 < val < W
    modifies t`root, m0.Keys
    ensures Sound(m, t.root) && Mirrored(m, m[t.root].h) && fresh(m.Keys - m0.Keys)
    ensures rv == (if val in Keys(m0) then -1 else 0) && Keys(m) == Keys(m0) + {val}
  {
    m := m0;
    assert NodeOk(m, t.root, t.root) && Look(t.root) && |m[t.root].slot| <= MAX_NODE_SLOTS;
    if |t.root.slot| == MAX_NODE_SLOTS {
      var n;
      n, m := BtSplitRootNode(t.root, m);
      t.root := n;
      assert NodeOk(m, t.root, t.root);
    }
    var n := t.root;
    ghost var h := m[t.root].h;
    while true
      invariant Open(m, t.root, n, val) && Mirrored(m, h) && h == m[t.root].h && 0 <= m[n].h <= h
      invariant Keys(m) == Keys(m0) && fresh(m.Keys - m0.Keys)
      decreases m[n].h
    {
      var o;
      ghost var m1 := m;
      o, m := Round(n, val, m, t.root, h);
      match o
      case Present => return -1, m;
      case Inserted => return 0, m;
      case Descend(c) => n := c;
    }
  }

  // bt_search finds the node and position of a key exactly if the tree holds it.
  method BtSearch(n0: BtNode, val: int, ghost m: Bm) returns (n: BtNode?, pos: nat)
    requires Sound(m, n0) && Mirrored(m, m[n0].h) && -1 < val < W
    ensures n != null <==> val in Keys(m)
    ensures n != null ==> n in m && pos < |n.slot| && n.slot[pos] == val
  {
    var c := n0;
    assert NodeOk(m, n0, n0);
    while true
      invariant c in m && Inside(m[c], val) && 0 <= m[c].h <= m[n0].h
      decreases m[c].h
    {
      assert Look(c) && NodeOk(m, n0, c);
      var index := BtSearchNodeIndex(c, val);
      if index < |c.slot| && c.slot[index] == val {
        assert c.slot[index] in m[c].slot;
        return c, index;
      }
      if c.links == [] {
        NotFound(m, n0, c, val);
        return null, 0;
      }
      PositionInside(m, n0, c, val, index);
      assert NodeOk(m, n0, c.links[index]);
      c := c.links[index];
    }
  }
}
