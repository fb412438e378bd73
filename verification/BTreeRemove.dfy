/** bt_remove: a descent that never enters a minimal node, a merge loop, and the recursion on the
    predecessor or successor. */
module BTreeRemove {
  import opened Words
  import opened BTree
  import opened BTreeCut
  import opened BTreeOps
  import opened BTreeSteps
  import opened BTreeReplace
  import Merging

  // Where the removal stands: at `n`, with the same keys, and nothing above `h` touched.
  ghost predicate Reached(m0: Bm, m: Bm, root: BtNode, n: BtNode, val: int, h: int) {
    At(m, root, n, val) && Keys(m) == Keys(m0) && Below(m0, m, h) && m[n].h <= h
  }

  lemma ReachedVia(m0: Bm, m: Bm, m': Bm, root: BtNode, p: BtNode, root': BtNode, n: BtNode, val: int, h: int)
    requires Reached(m0, m, root, p, val, h) && At(m', root', n, val) && Keys(m') == Keys(m) && Below(m, m', m[p].h)
    requires m'[n].h < m[p].h
    ensures Reached(m0, m', root', n, val, h)
  {}

  // The nodes an operation on `n` may change.
  ghost function Zone(m: Bm, h: int): set<BtNode> {
    set n: BtNode | n in m && m[n].h <= h
  }

  lemma OtherKid(m: Bm, root: BtNode, p: BtNode, i: nat)
    requires Sound(m, root) && p in m && m[p].h > 0 && |m[p].links| == |m[p].slot| + 1 && i < |m[p].links|
    ensures KidOk(m, p, i) && m[p].links[i] != root && |m[m[p].links[i]].slot| >= MIN_NODE_SLOTS
  {
    assert NodeOk(m, root, p) && KidOk(m, p, i);
    assert NodeOk(m, root, m[p].links[i]) && |m[m[p].links[i]].slot| <= MAX_NODE_SLOTS;
  }

  // What the child at the search position is like.
  lemma ChildFacts(m: Bm, root: BtNode, p: BtNode, val: int, i: nat)
    requires At(m, root, p, val) && m[p].h > 0 && Position(m[p].slot, val, i) && (i < |m[p].slot| ==> m[p].slot[i] != val)
    ensures i < |m[p].links| && |m[p].links| == |m[p].slot| + 1 && |m[p].slot| >= 1
    ensures var c := m[p].links[i];
      && c in m && c != root && Inside(m[c], val) && m[c].h + 1 == m[p].h && |m[c].slot| >= MIN_NODE_SLOTS
      && (i < |m[p].slot| ==> Siblings(m, root, p, i) && m[m[p].links[i + 1]].h + 1 == m[p].h
                              && |m[m[p].links[i + 1]].slot| >= MIN_NODE_SLOTS)
      && (i > 0 ==> Siblings(m, root, p, i - 1) && m[m[p].links[i - 1]].h + 1 == m[p].h
                    && |m[m[p].links[i - 1]].slot| >= MIN_NODE_SLOTS)
  {
    PositionInside(m, root, p, val, i);
    assert NodeOk(m, root, p) && NodeOk(m, root, m[p].links[i]);
    assert |m[p].slot| <= MAX_NODE_SLOTS && |m[m[p].links[i]].slot| <= MAX_NODE_SLOTS;
    if i < |m[p].slot| { OtherKid(m, root, p, i + 1); }
    if i > 0 { OtherKid(m, root, p, i - 1); }
  }

  // A minimal child gets a key from a sibling.
  method Borrow(parent: BtNode, i: nat, fromRight: bool, ghost val: int, ghost m: Bm, ghost root: BtNode, ghost h: int) returns (ghost m': Bm)
    requires Sound(m, root) && Siblings(m, root, parent, i) && Mirrored(m, h) && m[parent].h <= h
    requires var l, r := m[parent].links[i], m[parent].links[i + 1];
      if fromRight then |m[l].slot| == MIN_NODE_SLOTS < |m[r].slot| && Inside(m[l], val)
      else |m[r].slot| == MIN_NODE_SLOTS < |m[l].slot| && Inside(m[r], val)
    modifies parent, m[parent].links[i], m[parent].links[i + 1]
    ensures Mirrored(m', h) && Keys(m') == Keys(m) && Below(m, m', m[parent].h)
    ensures At(m', root, m[parent].links[if fromRight then i else i + 1], val)
  {
    if fromRight {
      ghost var k := MIN_NODE_SLOTS + 1;
      m' := BtMoveToLeft(parent, i, m, root, k, h);
      MovedLeft(m, root, parent, i, k, val);
    } else {
      ghost var k := |m[m[parent].links[i]].slot| - 1;
      m' := BtMoveToRight(parent, i, m, root, k, h);
      MovedRight(m, root, parent, i, k, val);
    }
  }

  // Two minimal siblings become one, which covers both.
  method Join(t: BtRoot, parent: BtNode, idx: nat, ghost val: int, ghost i: nat, ghost m: Bm, ghost h: int) returns (n: BtNode, ghost m': Bm)
    requires Sound(m, t.root) && parent in m && i == Adjust(idx, |m[parent].slot|) && Siblings(m, t.root, parent, i)
    requires Mirrored(m, h) && m[parent].h <= h && Roomy(m, t.root, parent)
    requires var l, r := m[parent].links[i], m[parent].links[i + 1];
      |m[l].slot| == MIN_NODE_SLOTS && |m[r].slot| == MIN_NODE_SLOTS && m[l].lo < val < m[r].hi
    modifies t`root, parent, m[parent].links[i]
    ensures Mirrored(m', h) && At(m', t.root, n, val) && Keys(m') == Keys(m) && Below(m, m', m[parent].h) && m'[n].h < m[parent].h
    ensures n == m[parent].links[i] && m'[n].slot == m[n].slot + [m[parent].slot[i]] + m[m[parent].links[i + 1]].slot
    ensures parent != old(t.root) ==> t.root == old(t.root)
  {
    MergeStart(m, t.root, parent, i);
    MergedDown(m, t.root, parent, i, val);
    n, m' := BtMergeSiblings(t, parent, idx, m, i, h);
  }

  // One level down: a minimal child borrows a key or is merged before it is entered.
  method Enter(t: BtRoot, parent: BtNode, idx: nat, ghost val: int, ghost m: Bm, ghost h: int) returns (sub: BtNode, ghost m': Bm)
    requires At(m, t.root, parent, val) && Mirrored(m, h) && 0 < m[parent].h <= h
    requires Position(m[parent].slot, val, idx) && (idx < |m[parent].slot| ==> m[parent].slot[idx] != val)
    modifies t`root, Zone(m, m[parent].h)
    ensures Mirrored(m', h) && At(m', t.root, sub, val) && Keys(m') == Keys(m) && Below(m, m', m[parent].h)
    ensures m'[sub].h < m[parent].h && (parent != old(t.root) ==> t.root == old(t.root))
  {
    ChildFacts(m, t.root, parent, val, idx);
    assert Look(parent);
    sub := parent.links[idx];
    assert Look(sub);
    m' := m;
    if |sub.slot| <= MIN_NODE_SLOTS {
      ghost var len := |m[parent].slot|;
      assert idx < len ==> Look(m[parent].links[idx + 1]);
      assert idx > 0 ==> Look(m[parent].links[idx - 1]);
      if idx < |parent.slot| && |parent.links[idx + 1].slot| > MIN_NODE_SLOTS {
        m' := Borrow(parent, idx, true, val, m, t.root, h);
      } else if idx > 0 && |parent.links[idx - 1].slot| > MIN_NODE_SLOTS {
        m' := Borrow(parent, idx - 1, false, val, m, t.root, h);
      } else {
        JoinFacts(m, t.root, parent, val, idx);
        sub, m' := Join(t, parent, idx, val, Adjust(idx, |parent.slot|), m, h);
      }
    }
  }

  lemma JoinFacts(m: Bm, root: BtNode, p: BtNode, val: int, idx: nat)
    requires At(m, root, p, val) && m[p].h > 0 && Position(m[p].slot, val, idx) && (idx < |m[p].slot| ==> m[p].slot[idx] != val)
    requires idx < |m[p].links| && m[p].links[idx] in m && |m[m[p].links[idx]].slot| <= MIN_NODE_SLOTS
    requires idx < |m[p].slot| ==> idx + 1 < |m[p].links| && m[p].links[idx + 1] in m && |m[m[p].links[idx + 1]].slot| <= MIN_NODE_SLOTS
    requires idx > 0 ==> m[p].links[idx - 1] in m && |m[m[p].links[idx - 1]].slot| <= MIN_NODE_SLOTS
    ensures var i := Adjust(idx, |m[p].slot|);
      && Siblings(m, root, p, i)
      && var l, r := m[p].links[i], m[p].links[i + 1];
      |m[l].slot| == MIN_NODE_SLOTS && |m[r].slot| == MIN_NODE_SLOTS && m[l].lo < val < m[r].hi
  {
    ChildFacts(m, root, p, val, idx);
    var i := Adjust(idx, |m[p].slot|);
    assert NodeOk(m, root, p) && KidOk(m, p, i) && KidOk(m, p, i + 1);
    MergeStart(m, root, p, i);
    assert |m[m[p].links[i]].slot| >= MIN_NODE_SLOTS && |m[m[p].links[i + 1]].slot| >= MIN_NODE_SLOTS;
  }

  // ---------- At the key ----------

  // The key has been found at position `i` of `n`.
  ghost predicate Found(m: Bm, root: BtNode, n: BtNode, i: int, val: int) {
    At(m, root, n, val) && 0 <= i < |m[n].slot| && m[n].slot[i] == val
  }

  lemma FoundFacts(m: Bm, root: BtNode, n: BtNode, i: int, val: int)
    requires Found(m, root, n, i, val)
    ensures m[n].h >= 0 && |m[n].links| == (if m[n].h == 0 then 0 else |m[n].slot| + 1)
    ensures m[n].h > 0 ==>
      var l, r := m[n].links[i], m[n].links[i + 1];
      && KidOk(m, n, i) && KidOk(m, n, i + 1) && l != root && r != root && Siblings(m, root, n, i)
      && |m[l].slot| >= MIN_NODE_SLOTS && |m[r].slot| >= MIN_NODE_SLOTS && m[l].lo < val < m[r].hi
  {
    assert NodeOk(m, root, n);
    if m[n].h > 0 {
      OtherKid(m, root, n, i);
      OtherKid(m, root, n, i + 1);
      MergeStart(m, root, n, i);
    }
  }

  lemma ReplacedMirrored(m: Bm, m1: Bm, m2: Bm, sub: BtNode, h0: int, h: int)
    requires Below(m, m1, h0) && m2.Keys == m1.Keys && sub in m2 && m[sub].h > h0 && Mirrored(m1, h0)
    requires forall n :: n in m1 ==> m2[n].h == m1[n].h && m2[n].links == m1[n].links && (n != sub ==> m2[n].slot == m1[n].slot)
    requires sub.slot == m2[sub].slot && sub.links == m2[sub].links
    requires forall n: BtNode :: n in m && h0 < m[n].h <= h && n != sub ==> n.slot == m[n].slot && n.links == m[n].links
    ensures Mirrored(m2, h)
  {
    forall n: BtNode | n in m2 && m2[n].h <= h
      ensures n.slot == m2[n].slot && n.links == m2[n].links
    {
      assert Look(n);
    }
  }

  // Key `i` of `sub` is overwritten by the key `s2` next to it in child `c`, and that one is removed below.
  method ReplaceBy(t: BtRoot, sub: BtNode, i: nat, c: BtNode, s2: int, ghost m: Bm, ghost h: int) returns (ghost m': Bm)
    requires sub in m && i < |m[sub].slot| && Found(m, t.root, sub, i, m[sub].slot[i]) && Mirrored(m, h) && m[sub].h <= h
    requires Beside(m, t.root, sub, i, c, s2) && |m[c].slot| > MIN_NODE_SLOTS
    modifies t`root, Zone(m, m[sub].h)
    ensures Sound(m', t.root) && Mirrored(m', h) && Keys(m') == Keys(m) - {m[sub].slot[i]} && Below(m, m', m[sub].h)
    ensures t.root == old(t.root)
    decreases m[sub].h, 0
  {
    assert Look(sub) && NodeOk(m, t.root, c);
    sub.slot := sub.slot[i := s2];
    var rv;
    ghost var m1;
    rv, m1 := BtRemove(t, c, s2, m);
    Replaced(m, m1, t.root, sub, i, c, s2);
    m' := MoveKey(m1, m[sub].slot[i], s2);
    forall n: BtNode | n in m && m[c].h < m[n].h <= h && n != sub
      ensures n.slot == m[n].slot && n.links == m[n].links
    {
      assert Look(n) && n !in Zone(m, m[c].h);
    }
    ReplacedMirrored(m, m1, m', sub, m[c].h, h);
  }

  // Below a node that is not the root the root is not met.
  lemma NotRoot(m0: Bm, m: Bm, root: BtNode, top: BtNode, n: BtNode)
    requires Struct(m0, root) && top in m0 && top != root && Below(m0, m, m0[top].h) && n in m && m[n].h <= m0[top].h
    ensures n != root
  {
    assert NodeOk(m0, root, top);
  }

  // One round from the label `loop` on: the key is removed, or it has moved into the merged node `n`.
  method LoopRound(t: BtRoot, sub: BtNode, idx: nat, ghost val: int, ghost m: Bm, ghost h: int)
      returns (done: bool, n: BtNode, ghost m': Bm)
    requires Found(m, t.root, sub, idx, val) && Mirrored(m, h) && m[sub].h <= h
    modifies t`root, Zone(m, m[sub].h)
    ensures Sound(m', t.root) && Mirrored(m', h) && Below(m, m', m[sub].h)
    ensures if done then Keys(m') == Keys(m) - {val}
            else Found(m', t.root, n, MIN_NODE_SLOTS, val) && Keys(m') == Keys(m) && m'[n].h < m[sub].h
    ensures sub != old(t.root) ==> t.root == old(t.root)
    decreases m[sub].h, 1
  {
    FoundFacts(m, t.root, sub, idx, val);
    assert Look(sub);
    done, n := true, sub;
    if sub.links == [] {
      DelInLeaf(m, t.root, sub, idx);
      m' := Store(sub, Merging.Del(sub.slot, idx), sub.links, m, h);
    } else {
      var l, r := sub.links[idx], sub.links[idx + 1];
      assert Look(l) && Look(r);
      if |l.slot| > MIN_NODE_SLOTS {
        var prev := BtMaxNode(l, m, t.root);
        PrevBeside(m, t.root, sub, idx, prev);
        m' := ReplaceBy(t, sub, idx, l, prev.slot[|prev.slot| - 1], m, h);
      } else if |r.slot| > MIN_NODE_SLOTS {
        var next := BtMinNode(r, m, t.root);
        NextBeside(m, t.root, sub, idx, next);
        m' := ReplaceBy(t, sub, idx, r, next.slot[0], m, h);
      } else {
        n, m' := Join(t, sub, idx, val, idx, m, h);
        done := false;
      }
    }
  }

  // The part of bt_remove from the label `loop` on.
  method RemoveFound(t: BtRoot, sub: BtNode, idx: nat, ghost val: int, ghost m0: Bm, ghost h: int) returns (ghost m: Bm)
    requires Found(m0, t.root, sub, idx, val) && Mirrored(m0, h) && m0[sub].h <= h
    modifies t`root, Zone(m0, m0[sub].h)
    ensures Sound(m, t.root) && Mirrored(m, h) && Keys(m) == Keys(m0) - {val} && Below(m0, m, m0[sub].h)
    ensures sub != old(t.root) ==> t.root == old(t.root)
    decreases m0[sub].h, 2
  {
    var n, i, done := sub, idx, false;
    m := m0;
    ghost var root := t.root;
    while !done
      invariant Sound(m, t.root) && Mirrored(m, h) && Below(m0, m, m0[sub].h)
      invariant if done then Keys(m) == Keys(m0) - {val}
                else Found(m, t.root, n, i, val) && Keys(m) == Keys(m0) && m[n].h <= m0[sub].h
      invariant sub != old(t.root) ==> t.root == old(t.root)
      decreases if done then -1 else m[n].h
    {
      FoundFacts(m, t.root, n, i, val);
      if sub != root { NotRoot(m0, m, root, sub, n); }
      ghost var m1 := m;
      done, n, m := LoopRound(t, n, i, val, m, h);
      BelowTrans(m0, m1, m, m0[sub].h);
      i := MIN_NODE_SLOTS;
    }
  }

  /** bt_remove: removes precisely `val`, or returns -1 and leaves the keys as they are. */
  method BtRemove(t: BtRoot, top: BtNode, val: int, ghost m0: Bm) returns (rv: int, ghost m: Bm)
    requires At(m0, t.root, top, val) && Mirrored(m0, m0[top].h)
    modifies t`root, Zone(m0, m0[top].h)
    ensures Sound(m, t.root) && Mirrored(m, m0[top].h) && Below(m0, m, m0[top].h)
    ensures rv == (if val in Keys(m0) then 0 else -1) && Keys(m) == Keys(m0) - {val}
    ensures top != old(t.root) ==> t.root == old(t.root)
    decreases m0[top].h, 3
  {
    var sub := top;
    m := m0;
    ghost var h, root := m0[top].h, t.root;
    while true
      invariant Reached(m0, m, t.root, sub, val, h) && Mirrored(m, h)
      invariant top != old(t.root) ==> t.root == old(t.root)
      decreases m[sub].h
    {
      assert Look(sub) && NodeOk(m, t.root, sub);
      if top != root { NotRoot(m0, m, root, top, sub); }
      var idx := BtSearchNodeIndex(sub, val);
      if idx < |sub.slot| && sub.slot[idx] == val {
        ghost var m1 := m;
        assert val in m[sub].slot;
        m := RemoveFound(t, sub, idx, val, m, h);
        BelowTrans(m0, m1, m, h);
        return 0, m;
      }
      if sub.links == [] {
        NotFound(m, t.root, sub, val);
        return -1, m;
      }
      ghost var m1, root1, p := m, t.root, sub;
      sub, m := Enter(t, sub, idx, val, m, h);
      ReachedVia(m0, m1, m, root1, p, t.root, sub, val, h);
    }
  }
}
