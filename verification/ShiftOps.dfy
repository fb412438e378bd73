/** The two shifts on the heap. A shift is described as merging the siblings and cutting the result
    one entry further left or right, with the same two nodes. */
module ShiftOps {
  import opened Words
  import opened Node
  import opened Shape
  import opened Avail
  import opened Cutting
  import opened Merging
  import opened Store
  import opened Tree
  import opened MergeOps

  ghost function ShiftSite(m: Mem, p: Bpn, i: nat, k: nat): Site
    requires p in m && i + 1 < |m[p].subl| && i + 1 < |m[p].suba| && m[p].subl[i + 1] in m
  {
    Site(p, i, m[p].subl[i + 1], k, m[p].suba[i], m[p].suba[i + 1], m[m[p].subl[i + 1]].ppos)
  }

  // The siblings at `i` and `i + 1` redivided so that the left one has `k` entries.
  ghost function Redivide(m: Mem, p: Bpn, i: nat, k: nat): Mem
    requires Redividable(m, p, i, k)
  {
    Cut(Merge(m, p, i, m[p].suba[i]), ShiftSite(m, p, i, k))
  }

  ghost predicate Redividable(m: Mem, p: Bpn, i: nat, k: nat) {
    Mergeable(m, p, i) && Cuttable(Merge(m, p, i, m[p].suba[i]), ShiftSite(m, p, i, k))
  }

  lemma RedividableFacts(m: Mem, root: Bpn, d: int, p: Bpn, i: nat, k: nat)
    requires Siblings(m, root, d, p, i) && Mergeable(m, p, i)
    requires var l, r := m[p].subl[i], m[p].subl[i + 1];
      0 < k < Entries(m[l]) + Entries(m[r])
    ensures Redividable(m, p, i, k)
  {
    MergeStruct(m, root, d, p, i, m[p].suba[i]);
    var m' := Merge(m, p, i, m[p].suba[i]);
    assert NodeOk(m', root, d, p) && KidOk(m', p, i) && NodeOk(m', root, d, m[p].subl[i]);
    SiblingsFacts(m, root, d, p, i);
  }

  // ---------- Left ----------

  ghost predicate CanShiftLeft(m: Mem, p: Bpn, i: nat)
    requires Mergeable(m, p, i)
  {
    var l, r := m[p].subl[i], m[p].subl[i + 1];
    Entries(m[l]) < MAX_ENTRIES && Entries(m[r]) > MinEntries(m[r].leaf) && Entries(m[r]) >= 1
    && (m[r].leaf ==> Entries(m[r]) >= 2) && (!m[r].leaf ==> InnerOk(m[r]))
  }

  ghost function ShiftLeftStores(m: Mem, p: Bpn, i: nat): Mem
    requires Mergeable(m, p, i) && CanShiftLeft(m, p, i)
  {
    var l, r := m[p].subl[i], m[p].subl[i + 1];
    if m[l].leaf then
      m[l := m[l].(vas := m[l].vas + [m[r].vas[0]])]
       [p := m[p].(slot := m[p].slot[i := m[r].vas[1].start])]
       [r := m[r].(vas := m[r].vas[1..])]
    else
      SetParents(
        m[l := m[l].(slot := m[l].slot + [m[p].slot[i]], subl := m[l].subl + [m[r].subl[0]], suba := m[l].suba + [m[r].suba[0]])]
         [p := m[p].(slot := m[p].slot[i := m[r].slot[0]])]
         [r := m[r].(slot := m[r].slot[1..], subl := m[r].subl[1..], suba := m[r].suba[1..])],
        [m[r].subl[0]], l)
  }

  lemma ShiftLeftLeafParent(m: Mem, root: Bpn, d: int, p: Bpn, i: nat, k: nat)
    requires Siblings(m, root, d, p, i) && Mergeable(m, p, i) && CanShiftLeft(m, p, i) && m[m[p].subl[i]].leaf
    requires k == Entries(m[m[p].subl[i]]) + 1 && Redividable(m, p, i, k)
    ensures var m1, m' := ShiftLeftStores(m, p, i), Redivide(m, p, i, k);
      p in m' && p in m1 && m'[p] == m1[p].(lo := m'[p].lo, hi := m'[p].hi, h := m'[p].h)
  {
    SiblingsFacts(m, root, d, p, i);
    var m1 := ShiftLeftStores(m, p, i);
    var m' := Redivide(m, p, i, k);
    assert m'[p].slot == m1[p].slot && m'[p].subl == m1[p].subl && m'[p].suba == m1[p].suba;
  }

  lemma ShiftLeftLeafNear(m: Mem, root: Bpn, d: int, p: Bpn, i: nat, k: nat)
    requires Siblings(m, root, d, p, i) && Mergeable(m, p, i) && CanShiftLeft(m, p, i) && m[m[p].subl[i]].leaf
    requires k == Entries(m[m[p].subl[i]]) + 1 && Redividable(m, p, i, k)
    ensures var m1, m' := ShiftLeftStores(m, p, i), Redivide(m, p, i, k);
      forall x :: x in [m[p].subl[i], m[p].subl[i + 1]] ==>
        x in m' && x in m1 && m'[x] == m1[x].(lo := m'[x].lo, hi := m'[x].hi, h := m'[x].h)
  {
    SiblingsFacts(m, root, d, p, i);
    var l, r := m[p].subl[i], m[p].subl[i + 1];
    var m1 := ShiftLeftStores(m, p, i);
    var m' := Redivide(m, p, i, k);
    assert m'[l].vas == m1[l].vas && m'[r].vas == m1[r].vas;
  }

  lemma ShiftLeftLeaf(m: Mem, root: Bpn, d: int, p: Bpn, i: nat, k: nat)
    requires Siblings(m, root, d, p, i) && Mergeable(m, p, i) && CanShiftLeft(m, p, i) && m[m[p].subl[i]].leaf
    requires k == Entries(m[m[p].subl[i]]) + 1 && Redividable(m, p, i, k)
    ensures SameStores(ShiftLeftStores(m, p, i), Redivide(m, p, i, k))
  {
    var m1 := ShiftLeftStores(m, p, i);
    var m' := Redivide(m, p, i, k);
    ShiftLeftLeafParent(m, root, d, p, i, k);
    ShiftLeftLeafNear(m, root, d, p, i, k);
    SiblingsFacts(m, root, d, p, i);
    assert m1.Keys == m'.Keys;
    forall x | x in m1 && x != p && x != m[p].subl[i] && x != m[p].subl[i + 1]
      ensures m'[x] == m1[x]
    {}
  }

  lemma ShiftLeftInner(m: Mem, root: Bpn, d: int, p: Bpn, i: nat, k: nat)
    requires Siblings(m, root, d, p, i) && Mergeable(m, p, i) && CanShiftLeft(m, p, i) && !m[m[p].subl[i]].leaf
    requires k == Entries(m[m[p].subl[i]]) + 1 && Redividable(m, p, i, k)
    ensures SameStores(ShiftLeftStores(m, p, i), Redivide(m, p, i, k))
  {
    SiblingsFacts(m, root, d, p, i);
    var l, r := m[p].subl[i], m[p].subl[i + 1];
    var m1 := ShiftLeftStores(m, p, i);
    var m' := Redivide(m, p, i, k);
    assert m1.Keys == m'.Keys;
    forall x | x in m1
      ensures m'[x] == m1[x].(lo := m'[x].lo, hi := m'[x].hi, h := m'[x].h)
    {
      if x == p {
        ShiftLeftParent(m, root, d, p, i, k);
      } else if x == l {
        ShiftLeftLeftNode(m, root, d, p, i, k);
      } else if x == r {
        ShiftLeftRightNode(m, root, d, p, i, k);
      } else {
        ShiftLeftInnerFar(m, root, d, p, i, k, x);
      }
    }
  }

  lemma ShiftLeftParent(m: Mem, root: Bpn, d: int, p: Bpn, i: nat, k: nat)
    requires Siblings(m, root, d, p, i) && Mergeable(m, p, i) && CanShiftLeft(m, p, i) && !m[m[p].subl[i]].leaf
    requires k == Entries(m[m[p].subl[i]]) + 1 && Redividable(m, p, i, k)
    ensures var x, m1, m' := p, ShiftLeftStores(m, p, i), Redivide(m, p, i, k);
      x in m' && x in m1 && m'[x] == m1[x].(lo := m'[x].lo, hi := m'[x].hi, h := m'[x].h)
  {
    SiblingsFacts(m, root, d, p, i);
    var l, r := m[p].subl[i], m[p].subl[i + 1];
    var m1 := ShiftLeftStores(m, p, i);
    var m' := Redivide(m, p, i, k);
    assert m[r].subl[0] in m[r].subl;
    assert m'[p].slot == m1[p].slot && m'[p].subl == m1[p].subl && m'[p].suba == m1[p].suba;
  }

  lemma ShiftLeftLeftNode(m: Mem, root: Bpn, d: int, p: Bpn, i: nat, k: nat)
    requires Siblings(m, root, d, p, i) && Mergeable(m, p, i) && CanShiftLeft(m, p, i) && !m[m[p].subl[i]].leaf
    requires k == Entries(m[m[p].subl[i]]) + 1 && Redividable(m, p, i, k)
    ensures var x, m1, m' := m[p].subl[i], ShiftLeftStores(m, p, i), Redivide(m, p, i, k);
      x in m' && x in m1 && m'[x] == m1[x].(lo := m'[x].lo, hi := m'[x].hi, h := m'[x].h)
  {
    SiblingsFacts(m, root, d, p, i);
    var l, r := m[p].subl[i], m[p].subl[i + 1];
    var m1 := ShiftLeftStores(m, p, i);
    var m' := Redivide(m, p, i, k);
    assert m[r].subl[0] in m[r].subl;
    assert m'[l].slot == m1[l].slot && m'[l].subl == m1[l].subl && m'[l].suba == m1[l].suba;
  }

  lemma ShiftLeftRightNode(m: Mem, root: Bpn, d: int, p: Bpn, i: nat, k: nat)
    requires Siblings(m, root, d, p, i) && Mergeable(m, p, i) && CanShiftLeft(m, p, i) && !m[m[p].subl[i]].leaf
    requires k == Entries(m[m[p].subl[i]]) + 1 && Redividable(m, p, i, k)
    ensures var x, m1, m' := m[p].subl[i + 1], ShiftLeftStores(m, p, i), Redivide(m, p, i, k);
      x in m' && x in m1 && m'[x] == m1[x].(lo := m'[x].lo, hi := m'[x].hi, h := m'[x].h)
  {
    SiblingsFacts(m, root, d, p, i);
    var l, r := m[p].subl[i], m[p].subl[i + 1];
    var m1 := ShiftLeftStores(m, p, i);
    var m' := Redivide(m, p, i, k);
    assert m[r].subl[0] in m[r].subl;
    assert m'[r].slot == m1[r].slot && m'[r].subl == m1[r].subl && m'[r].suba == m1[r].suba;
  }

  lemma ShiftLeftInnerFar(m: Mem, root: Bpn, d: int, p: Bpn, i: nat, k: nat, x: Bpn)
    requires Siblings(m, root, d, p, i) && Mergeable(m, p, i) && CanShiftLeft(m, p, i) && !m[m[p].subl[i]].leaf
    requires k == Entries(m[m[p].subl[i]]) + 1 && Redividable(m, p, i, k)
    requires x in m && x != p && x != m[p].subl[i] && x != m[p].subl[i + 1]
    ensures var m1, m' := ShiftLeftStores(m, p, i), Redivide(m, p, i, k);
        x in m' && x in m1 && m'[x] == m1[x].(lo := m'[x].lo, hi := m'[x].hi, h := m'[x].h)
  {
    ShiftedKid(m, root, d, p, i, x);
    var l, r := m[p].subl[i], m[p].subl[i + 1];
    var joined := m[l].slot + [m[p].slot[i]] + m[r].slot;
    assert joined[|m[l].slot| + 1] == m[r].slot[0];
    assert x == m[r].subl[0] ==> m[x].parent == r;
  }

  // Where a child of either sibling lies relative to the separator and the outer ones.
  lemma ShiftedKid(m: Mem, root: Bpn, d: int, p: Bpn, i: nat, x: Bpn)
    requires Siblings(m, root, d, p, i) && Mergeable(m, p, i) && x in m && !m[m[p].subl[i]].leaf
    ensures var l, r, s := m[p].subl[i], m[p].subl[i + 1], m[p].slot[i];
      && InnerOk(m[l]) && InnerOk(m[r]) && m[l].hi == s == m[r].lo
      && (m[x].parent == r ==> m[x].lo >= s && (x != m[r].subl[0] && m[r].slot != [] ==> m[x].lo >= m[r].slot[0]))
      && (m[x].parent == l ==> m[x].lo < s && (x != m[l].subl[|m[l].slot|] && m[l].slot != [] ==> m[x].lo < m[l].slot[|m[l].slot| - 1]))
      && (x == m[r].subl[0] ==> m[x].parent == r && m[x].lo == s)
      && (m[l].slot != [] && x == m[l].subl[|m[l].slot|] ==> m[x].parent == l && m[x].lo == m[l].slot[|m[l].slot| - 1])
  {
    var l, r := m[p].subl[i], m[p].subl[i + 1];
    MergeStart(m, root, d, p, i);
    assert KidOk(m, r, 0) && KidOk(m, l, |m[l].slot|);
    assert NodeOk(m, root, d, x);
    if m[x].parent == r || m[x].parent == l {
      var q, j := UpEdge(m, root, d, x);
    }
  }

  // ---------- Right ----------

  ghost predicate CanShiftRight(m: Mem, p: Bpn, i: nat)
    requires Mergeable(m, p, i)
  {
    var l, r := m[p].subl[i], m[p].subl[i + 1];
    Entries(m[r]) < MAX_ENTRIES && Entries(m[l]) > MinEntries(m[l].leaf)
    && Entries(m[l]) >= 2 && (!m[l].leaf ==> InnerOk(m[l]))
  }

  ghost function ShiftRightStores(m: Mem, p: Bpn, i: nat): Mem
    requires Mergeable(m, p, i) && CanShiftRight(m, p, i)
  {
    var l, r := m[p].subl[i], m[p].subl[i + 1];
    var e := Entries(m[l]) - 1;
    if m[l].leaf then
      m[r := m[r].(vas := [m[l].vas[e]] + m[r].vas)]
       [p := m[p].(slot := m[p].slot[i := m[l].vas[e].start])]
       [l := m[l].(vas := m[l].vas[..e])]
    else
      SetParents(
        m[r := m[r].(slot := [m[p].slot[i]] + m[r].slot, subl := [m[l].subl[e + 1]] + m[r].subl, suba := [m[l].suba[e + 1]] + m[r].suba)]
         [p := m[p].(slot := m[p].slot[i := m[l].slot[e]])]
         [l := m[l].(slot := m[l].slot[..e], subl := m[l].subl[..e + 1], suba := m[l].suba[..e + 1])],
        [m[l].subl[e + 1]], r)
  }

  lemma ShiftRightLeafParent(m: Mem, root: Bpn, d: int, p: Bpn, i: nat, k: nat)
    requires Siblings(m, root, d, p, i) && Mergeable(m, p, i) && CanShiftRight(m, p, i) && m[m[p].subl[i]].leaf
    requires k + 1 == Entries(m[m[p].subl[i]]) && Redividable(m, p, i, k)
    ensures var m1, m' := ShiftRightStores(m, p, i), Redivide(m, p, i, k);
      p in m' && p in m1 && m'[p] == m1[p].(lo := m'[p].lo, hi := m'[p].hi, h := m'[p].h)
  {
    SiblingsFacts(m, root, d, p, i);
    var m1 := ShiftRightStores(m, p, i);
    var m' := Redivide(m, p, i, k);
    assert m'[p].slot == m1[p].slot && m'[p].subl == m1[p].subl && m'[p].suba == m1[p].suba;
  }

  lemma ShiftRightLeafNear(m: Mem, root: Bpn, d: int, p: Bpn, i: nat, k: nat)
    requires Siblings(m, root, d, p, i) && Mergeable(m, p, i) && CanShiftRight(m, p, i) && m[m[p].subl[i]].leaf
    requires k + 1 == Entries(m[m[p].subl[i]]) && Redividable(m, p, i, k)
    ensures var m1, m' := ShiftRightStores(m, p, i), Redivide(m, p, i, k);
      forall x :: x in [m[p].subl[i], m[p].subl[i + 1]] ==>
        x in m' && x in m1 && m'[x] == m1[x].(lo := m'[x].lo, hi := m'[x].hi, h := m'[x].h)
  {
    SiblingsFacts(m, root, d, p, i);
    var l, r := m[p].subl[i], m[p].subl[i + 1];
    var m1 := ShiftRightStores(m, p, i);
    var m' := Redivide(m, p, i, k);
    assert m'[l].vas == m1[l].vas && m'[r].vas == m1[r].vas;
  }

  lemma ShiftRightLeaf(m: Mem, root: Bpn, d: int, p: Bpn, i: nat, k: nat)
    requires Siblings(m, root, d, p, i) && Mergeable(m, p, i) && CanShiftRight(m, p, i) && m[m[p].subl[i]].leaf
    requires k + 1 == Entries(m[m[p].subl[i]]) && Redividable(m, p, i, k)
    ensures SameStores(ShiftRightStores(m, p, i), Redivide(m, p, i, k))
  {
    var m1 := ShiftRightStores(m, p, i);
    var m' := Redivide(m, p, i, k);
    ShiftRightLeafParent(m, root, d, p, i, k);
    ShiftRightLeafNear(m, root, d, p, i, k);
    SiblingsFacts(m, root, d, p, i);
    assert m1.Keys == m'.Keys;
    forall x | x in m1 && x != p && x != m[p].subl[i] && x != m[p].subl[i + 1]
      ensures m'[x] == m1[x]
    {}
  }

  lemma ShiftRightInner(m: Mem, root: Bpn, d: int, p: Bpn, i: nat, k: nat)
    requires Siblings(m, root, d, p, i) && Mergeable(m, p, i) && CanShiftRight(m, p, i) && !m[m[p].subl[i]].leaf
    requires k + 1 == Entries(m[m[p].subl[i]]) && Redividable(m, p, i, k)
    ensures SameStores(ShiftRightStores(m, p, i), Redivide(m, p, i, k))
  {
    SiblingsFacts(m, root, d, p, i);
    var l, r := m[p].subl[i], m[p].subl[i + 1];
    var m1 := ShiftRightStores(m, p, i);
    var m' := Redivide(m, p, i, k);
    assert m1.Keys == m'.Keys;
    forall x | x in m1
      ensures m'[x] == m1[x].(lo := m'[x].lo, hi := m'[x].hi, h := m'[x].h)
    {
      if x == p {
        ShiftRightParent(m, root, d, p, i, k);
      } else if x == l {
        ShiftRightLeftNode(m, root, d, p, i, k);
      } else if x == r {
        ShiftRightRightNode(m, root, d, p, i, k);
      } else {
        ShiftRightInnerFar(m, root, d, p, i, k, x);
      }
    }
  }

  lemma ShiftRightParent(m: Mem, root: Bpn, d: int, p: Bpn, i: nat, k: nat)
    requires Siblings(m, root, d, p, i) && Mergeable(m, p, i) && CanShiftRight(m, p, i) && !m[m[p].subl[i]].leaf
    requires k + 1 == Entries(m[m[p].subl[i]]) && Redividable(m, p, i, k)
    ensures var x, m1, m' := p, ShiftRightStores(m, p, i), Redivide(m, p, i, k);
      x in m' && x in m1 && m'[x] == m1[x].(lo := m'[x].lo, hi := m'[x].hi, h := m'[x].h)
  {
    SiblingsFacts(m, root, d, p, i);
    var l, r := m[p].subl[i], m[p].subl[i + 1];
    var m1 := ShiftRightStores(m, p, i);
    var m' := Redivide(m, p, i, k);
    assert m[l].subl[Entries(m[l])] in m[l].subl;
    assert m'[p].slot == m1[p].slot && m'[p].subl == m1[p].subl && m'[p].suba == m1[p].suba;
  }

  lemma ShiftRightLeftNode(m: Mem, root: Bpn, d: int, p: Bpn, i: nat, k: nat)
    requires Siblings(m, root, d, p, i) && Mergeable(m, p, i) && CanShiftRight(m, p, i) && !m[m[p].subl[i]].leaf
    requires k + 1 == Entries(m[m[p].subl[i]]) && Redividable(m, p, i, k)
    ensures var x, m1, m' := m[p].subl[i], ShiftRightStores(m, p, i), Redivide(m, p, i, k);
      x in m' && x in m1 && m'[x] == m1[x].(lo := m'[x].lo, hi := m'[x].hi, h := m'[x].h)
  {
    SiblingsFacts(m, root, d, p, i);
    var l, r := m[p].subl[i], m[p].subl[i + 1];
    var m1 := ShiftRightStores(m, p, i);
    var m' := Redivide(m, p, i, k);
    assert m[l].subl[Entries(m[l])] in m[l].subl;
    assert m'[l].slot == m1[l].slot && m'[l].subl == m1[l].subl && m'[l].suba == m1[l].suba;
  }

  lemma ShiftRightRightNode(m: Mem, root: Bpn, d: int, p: Bpn, i: nat, k: nat)
    requires Siblings(m, root, d, p, i) && Mergeable(m, p, i) && CanShiftRight(m, p, i) && !m[m[p].subl[i]].leaf
    requires k + 1 == Entries(m[m[p].subl[i]]) && Redividable(m, p, i, k)
    ensures var x, m1, m' := m[p].subl[i + 1], ShiftRightStores(m, p, i), Redivide(m, p, i, k);
      x in m' && x in m1 && m'[x] == m1[x].(lo := m'[x].lo, hi := m'[x].hi, h := m'[x].h)
  {
    SiblingsFacts(m, root, d, p, i);
    var l, r := m[p].subl[i], m[p].subl[i + 1];
    var m1 := ShiftRightStores(m, p, i);
    var m' := Redivide(m, p, i, k);
    assert m[l].subl[Entries(m[l])] in m[l].subl;
    assert m'[r].slot == m1[r].slot && m'[r].subl == m1[r].subl && m'[r].suba == m1[r].suba;
  }

  lemma ShiftRightInnerFar(m: Mem, root: Bpn, d: int, p: Bpn, i: nat, k: nat, x: Bpn)
    requires Siblings(m, root, d, p, i) && Mergeable(m, p, i) && CanShiftRight(m, p, i) && !m[m[p].subl[i]].leaf
    requires k + 1 == Entries(m[m[p].subl[i]]) && Redividable(m, p, i, k)
    requires x in m && x != p && x != m[p].subl[i] && x != m[p].subl[i + 1]
    ensures var m1, m' := ShiftRightStores(m, p, i), Redivide(m, p, i, k);
        x in m' && x in m1 && m'[x] == m1[x].(lo := m'[x].lo, hi := m'[x].hi, h := m'[x].h)
  {
    ShiftedKid(m, root, d, p, i, x);
    var l, r := m[p].subl[i], m[p].subl[i + 1];
    var joined := m[l].slot + [m[p].slot[i]] + m[r].slot;
    assert joined[|m[l].slot| - 1] == m[l].slot[|m[l].slot| - 1];
  }

  // ---------- The methods ----------

  lemma ShiftLeftReady(m: Mem, root: Bpn, d: int, p: Bpn, i: nat, k: nat)
    requires Siblings(m, root, d, p, i) && m[p].subl[i] in m && k == Entries(m[m[p].subl[i]]) + 1
    ensures Mergeable(m, p, i)
    ensures var l, r := m[p].subl[i], m[p].subl[i + 1];
      && l != r && (!m[r].leaf ==> InnerOk(m[l]) && InnerOk(m[r]) && m[r].subl[0] in m)
    ensures CanShiftLeft(m, p, i) ==>
      Redividable(m, p, i, k) && SameStores(ShiftLeftStores(m, p, i), Redivide(m, p, i, k))
  {
    SiblingsFacts(m, root, d, p, i);
    var r := m[p].subl[i + 1];
    if !m[r].leaf {
      KidsExactly(m, root, d, r);
      assert m[r].subl[0] in m[r].subl;
    }
    if CanShiftLeft(m, p, i) {
      RedividableFacts(m, root, d, p, i, k);
      if m[r].leaf { ShiftLeftLeaf(m, root, d, p, i, k); } else { ShiftLeftInner(m, root, d, p, i, k); }
    }
  }

  // The first record of the right leaf, or the separator and the first child, move left.
  method MoveFirstLeft(t: BptRoot, l: Bpn, r: Bpn, p: Bpn, i: nat)
    requires Linked(t) && Mergeable(t.m, p, i) && l == t.m[p].subl[i] && r == t.m[p].subl[i + 1] && CanShiftLeft(t.m, p, i)
    requires !t.m[r].leaf ==> InnerOk(t.m[l]) && InnerOk(t.m[r]) && t.m[r].subl[0] in t.m
    modifies t`m, t.m.Keys
    ensures Linked(t) && t.m == ShiftLeftStores(old(t.m), p, i)
  {
    assert See(l) && See(r) && See(p);
    if !l.leaf {
      StoreInner(t, l, l.slot + [p.slot[i]], l.subl + [r.subl[0]], l.suba + [r.suba[0]]);
      StoreSlot(t, p, i, r.slot[0]);
      var c := r.subl[0];
      StoreInner(t, r, r.slot[1..], r.subl[1..], r.suba[1..]);
      StoreParents(t, [c], l);
    } else {
      StoreVas(t, l, l.vas + [r.vas[0]]);
      StoreSlot(t, p, i, r.vas[1].start);
      StoreVas(t, r, r.vas[1..]);
    }
  }

  // The left node has room and the right one an entry to spare.
  method MayShiftLeft(t: BptRoot, l: Bpn, r: Bpn, p: Bpn, i: nat) returns (ok: bool)
    requires Linked(t) && Mergeable(t.m, p, i) && l == t.m[p].subl[i] && r == t.m[p].subl[i + 1] && Entries(t.m[l]) <= MAX_ENTRIES
    requires !t.m[r].leaf ==> InnerOk(t.m[r])
    ensures ok == CanShiftLeft(t.m, p, i)
  {
    assert See(l) && See(r) && See(p);
    ok := !(i >= |p.slot| || (if l.leaf then |l.vas| else |l.slot|) == MAX_ENTRIES
            || (if r.leaf then |r.vas| else |r.slot|) <= MinEntries(r.leaf));
  }

  // The old left and right nodes redivided at `k`.
  ghost predicate RedividedTo(m: Mem, m': Mem, p: Bpn, i: nat, k: nat) {
    Redividable(m, p, i, k) && m' == Redivide(m, p, i, k)
  }

  method BpnTryShiftLeft(t: BptRoot, l: Bpn, r: Bpn, p: Bpn, pos: nat, ghost i: nat, ghost k: nat, ghost root: Bpn, ghost d: int) returns (ok: bool)
    requires Linked(t) && p in t.m && i == Adjust(pos, |t.m[p].slot|) && Siblings(t.m, root, d, p, i)
    requires l == t.m[p].subl[i] && r == t.m[p].subl[i + 1] && l in t.m && r in t.m && Entries(t.m[l]) <= MAX_ENTRIES
    requires k == Entries(t.m[l]) + 1
    modifies t`m, t.m.Keys
    ensures Mergeable(old(t.m), p, i) && ok == CanShiftLeft(old(t.m), p, i) && Linked(t)
    ensures if ok then RedividedTo(old(t.m), t.m, p, i, k) else t.m == old(t.m)
  {
    ghost var m := t.m;
    assert See(p);
    ShiftLeftReady(m, root, d, p, i, k);
    var pos' := Adjust(pos, |p.slot|);
    ok := MayShiftLeft(t, l, r, p, pos');
    if ok {
      MoveFirstLeft(t, l, r, p, pos');
      Remeasure(t, Redivide(m, p, i, k));
    }
  }

  lemma ShiftRightReady(m: Mem, root: Bpn, d: int, p: Bpn, i: nat, k: nat)
    requires Siblings(m, root, d, p, i) && m[p].subl[i] in m && k + 1 == Entries(m[m[p].subl[i]])
    ensures Mergeable(m, p, i)
    ensures var l, r := m[p].subl[i], m[p].subl[i + 1];
      && l != r && (!m[l].leaf ==> InnerOk(m[l]) && InnerOk(m[r]) && m[l].subl[|m[l].slot|] in m)
    ensures CanShiftRight(m, p, i) ==>
      Redividable(m, p, i, k) && SameStores(ShiftRightStores(m, p, i), Redivide(m, p, i, k))
  {
    SiblingsFacts(m, root, d, p, i);
    var l := m[p].subl[i];
    if !m[l].leaf {
      KidsExactly(m, root, d, l);
      assert m[l].subl[|m[l].slot|] in m[l].subl;
    }
    if CanShiftRight(m, p, i) {
      RedividableFacts(m, root, d, p, i, k);
      if m[l].leaf { ShiftRightLeaf(m, root, d, p, i, k); } else { ShiftRightInner(m, root, d, p, i, k); }
    }
  }

  // The last child of the left node and the separator move right.
  method MoveLastRightInner(t: BptRoot, l: Bpn, r: Bpn, p: Bpn, i: nat)
    requires Linked(t) && Mergeable(t.m, p, i) && l == t.m[p].subl[i] && r == t.m[p].subl[i + 1] && CanShiftRight(t.m, p, i)
    requires !t.m[l].leaf && InnerOk(t.m[r]) && t.m[l].subl[|t.m[l].slot|] in t.m
    modifies t`m, t.m.Keys
    ensures Linked(t) && t.m == ShiftRightStores(old(t.m), p, i)
  {
    assert See(l) && See(r) && See(p);
    var e := |l.slot| - 1;
    var key, c, a := l.slot[e], l.subl[e + 1], l.suba[e + 1];
    StoreInner(t, r, [p.slot[i]] + r.slot, [c] + r.subl, [a] + r.suba);
    StoreSlot(t, p, i, key);
    StoreInner(t, l, l.slot[..e], l.subl[..e + 1], l.suba[..e + 1]);
    StoreParents(t, [c], r);
  }

  // The last record of the left leaf moves right.
  method MoveLastRightLeaf(t: BptRoot, l: Bpn, r: Bpn, p: Bpn, i: nat)
    requires Linked(t) && Mergeable(t.m, p, i) && l == t.m[p].subl[i] && r == t.m[p].subl[i + 1] && CanShiftRight(t.m, p, i)
    requires t.m[l].leaf
    modifies t`m, t.m.Keys
    ensures Linked(t) && t.m == ShiftRightStores(old(t.m), p, i)
  {
    assert See(l) && See(r) && See(p);
    var e := |l.vas| - 1;
    var va := l.vas[e];
    StoreVas(t, r, [va] + r.vas);
    StoreSlot(t, p, i, va.start);
    StoreVas(t, l, l.vas[..e]);
  }

  method MayShiftRight(t: BptRoot, l: Bpn, r: Bpn, p: Bpn, i: nat) returns (ok: bool)
    requires Linked(t) && Mergeable(t.m, p, i) && l == t.m[p].subl[i] && r == t.m[p].subl[i + 1] && Entries(t.m[r]) <= MAX_ENTRIES
    requires !t.m[l].leaf ==> InnerOk(t.m[l])
    ensures ok == CanShiftRight(t.m, p, i)
  {
    assert See(l) && See(r) && See(p);
    ok := !(i >= |p.slot| || (if r.leaf then |r.vas| else |r.slot|) == MAX_ENTRIES
            || (if l.leaf then |l.vas| else |l.slot|) <= MinEntries(l.leaf));
  }

  method MoveLastRight(t: BptRoot, l: Bpn, r: Bpn, p: Bpn, i: nat)
    requires Linked(t) && Mergeable(t.m, p, i) && l == t.m[p].subl[i] && r == t.m[p].subl[i + 1] && CanShiftRight(t.m, p, i)
    requires !t.m[l].leaf ==> InnerOk(t.m[l]) && InnerOk(t.m[r]) && t.m[l].subl[|t.m[l].slot|] in t.m
    modifies t`m, t.m.Keys
    ensures Linked(t) && t.m == ShiftRightStores(old(t.m), p, i)
  {
    assert See(l);
    if l.leaf { MoveLastRightLeaf(t, l, r, p, i); } else { MoveLastRightInner(t, l, r, p, i); }
  }

  method BpnTryShiftRight(t: BptRoot, l: Bpn, r: Bpn, p: Bpn, pos: nat, ghost i: nat, ghost k: nat, ghost root: Bpn, ghost d: int) returns (ok: bool)
    requires Linked(t) && p in t.m && i == Adjust(pos, |t.m[p].slot|) && Siblings(t.m, root, d, p, i)
    requires l == t.m[p].subl[i] && r == t.m[p].subl[i + 1] && l in t.m && r in t.m && Entries(t.m[r]) <= MAX_ENTRIES
    requires k + 1 == Entries(t.m[l])
    modifies t`m, t.m.Keys
    ensures Mergeable(old(t.m), p, i) && ok == CanShiftRight(old(t.m), p, i) && Linked(t)
    ensures if ok then RedividedTo(old(t.m), t.m, p, i, k) else t.m == old(t.m)
  {
    ghost var m := t.m;
    assert See(p);
    ShiftRightReady(m, root, d, p, i, k);
    var pos' := Adjust(pos, |p.slot|);
    ok := MayShiftRight(t, l, r, p, pos');
    if ok {
      MoveLastRight(t, l, r, p, pos');
      Remeasure(t, Redivide(m, p, i, k));
    }
  }
}
