/** bpn_merge_siblings and the two shifts on the heap. */
module MergeOps {
  import opened Words
  import opened Node
  import opened Shape
  import opened Avail
  import opened Cutting
  import opened Merging
  import opened Store
  import opened Tree

  // ---------- Merging two siblings ----------

  ghost function JoinStores(m: Mem, l: Bpn, r: Bpn, sep: int): Mem
    requires l in m && r in m && l != r
  {
    if m[l].leaf then
      ListDelM(m[l := m[l].(vas := m[l].vas + m[r].vas)], r)
    else
      SetParents(m[l := m[l].(slot := m[l].slot + [sep] + m[r].slot, subl := m[l].subl + m[r].subl, suba := m[l].suba + m[r].suba)],
                 m[r].subl, l)
  }

  ghost function MergeStores(m: Mem, p: Bpn, i: nat): Mem
    requires Mergeable(m, p, i) && (!m[m[p].subl[i]].leaf ==> p !in m[m[p].subl[i + 1]].subl)
  {
    var l, r := m[p].subl[i], m[p].subl[i + 1];
    var u := m[p].(slot := Del(m[p].slot, i), subl := Del(m[p].subl, i + 1), suba := Del(m[p].suba, i + 1));
    JoinStores(m, l, r, m[p].slot[i])[p := u] - {r}
  }

  // What the surgery on two siblings starts from.
  ghost predicate Siblings(m: Mem, root: Bpn, d: int, p: Bpn, i: nat) {
    Struct(m, root, d) && p in m && !m[p].leaf && i < |m[p].slot| && i + 1 < |m[p].subl|
  }

  lemma SiblingsFacts(m: Mem, root: Bpn, d: int, p: Bpn, i: nat)
    requires Siblings(m, root, d, p, i)
    ensures Mergeable(m, p, i)
    ensures var l, r := m[p].subl[i], m[p].subl[i + 1];
      && m[l].parent == p && m[r].parent == p && l != root && r != root && m[p].parent != l && m[p].parent != r
      && (m[l].leaf ==> m[l].next == r && m[r].prev == l && LeafOk(m[l], d) && LeafOk(m[r], d) && ChainOk(m, l) && ChainOk(m, r))
      && (!m[l].leaf ==> InnerOk(m[l]) && InnerOk(m[r]) && l !in m[l].subl && r !in m[l].subl && p !in m[l].subl
                         && l !in m[r].subl && r !in m[r].subl && p !in m[r].subl)
  {
    assert NodeOk(m, root, d, p) && KidOk(m, p, i) && KidOk(m, p, i + 1);
    var l, r := m[p].subl[i], m[p].subl[i + 1];
    assert NodeOk(m, root, d, l) && NodeOk(m, root, d, r);
    assert m[l].hi == m[r].lo;
    MergeStart(m, root, d, p, i);
    if p != root {
      var q, j := UpEdge(m, root, d, p);
    }
    if !m[l].leaf {
      KidsExactly(m, root, d, l);
      KidsExactly(m, root, d, r);
    }
  }

  lemma MergeStoresLeaf(m: Mem, root: Bpn, d: int, p: Bpn, i: nat)
    requires Siblings(m, root, d, p, i) && Mergeable(m, p, i) && m[m[p].subl[i]].leaf
    ensures SameStores(MergeStores(m, p, i), Merge(m, p, i, m[p].suba[i]))
  {
    SiblingsFacts(m, root, d, p, i);
    assert Del(m[p].suba, i + 1)[i := m[p].suba[i]] == Del(m[p].suba, i + 1);
  }

  lemma MergeStoresInner(m: Mem, root: Bpn, d: int, p: Bpn, i: nat)
    requires Siblings(m, root, d, p, i) && Mergeable(m, p, i) && !m[m[p].subl[i]].leaf
    ensures p !in m[m[p].subl[i + 1]].subl && SameStores(MergeStores(m, p, i), Merge(m, p, i, m[p].suba[i]))
  {
    SiblingsFacts(m, root, d, p, i);
    KidsExactly(m, root, d, m[p].subl[i + 1]);
    assert Del(m[p].suba, i + 1)[i := m[p].suba[i]] == Del(m[p].suba, i + 1);
    var m1 := MergeStores(m, p, i);
    var m' := Merge(m, p, i, m[p].suba[i]);
    forall x | x in m1
      ensures m'[x] == m1[x].(lo := m'[x].lo, hi := m'[x].hi, h := m'[x].h)
    {
      if x == m[p].subl[i] || x == p {
      } else {
        assert m1[x] == if x in m[m[p].subl[i + 1]].subl then m[x].(parent := m[p].subl[i]) else m[x];
      }
    }
  }

  // Two neighbours in the leaf list whose ends are `first` and `last`.
  ghost predicate LeafPair(m: Mem, l: Bpn, r: Bpn, first: Bpn?, last: Bpn?)
    requires l in m && r in m
  {
    && m[l].next == r && m[r].prev == l && m[r].next != r && m[r].next != l
    && (if m[r].next == null then r == last else m[r].next in m && r != last && m[r].next != first)
  }

  // Two internal nodes; neither they nor their parent are among the right one's children.
  ghost predicate InnerPair(m: Mem, p: Bpn, l: Bpn, r: Bpn)
    requires l in m && r in m
  {
    && InnerOk(m[l]) && InnerOk(m[r])
    && p !in m[r].subl && l !in m[r].subl && r !in m[r].subl && forall x :: x in m[r].subl ==> x in m
  }

  // Everything the stores of a merge rely on.
  lemma MergeReady(m: Mem, root: Bpn, d: int, p: Bpn, i: nat, first: Bpn, last: Bpn)
    requires Siblings(m, root, d, p, i)
    requires first in m && m[first].leaf && m[first].prev == null && last in m && m[last].leaf && m[last].next == null
    ensures Mergeable(m, p, i)
    ensures var l, r := m[p].subl[i], m[p].subl[i + 1];
      && r != first && l != root && r != root && m[r].next != p
      && (if m[l].leaf then LeafPair(m, l, r, first, last) else r != last && InnerPair(m, p, l, r))
  {
    SiblingsFacts(m, root, d, p, i);
    var l, r := m[p].subl[i], m[p].subl[i + 1];
    if !m[l].leaf {
      KidsExactly(m, root, d, r);
    } else if m[r].next == null {
      assert NodeOk(m, root, d, last);
      Nest(m, root, d, r, last, W - 1);
    }
  }

  // Copy the right sibling's contents to the left one.
  method JoinContents(t: BptRoot, ghost p: Bpn, l: Bpn, r: Bpn, sep: int)
    requires Linked(t) && l in t.m && r in t.m && l != r && t.m[l].leaf == t.m[r].leaf && r != t.first
    requires if t.m[l].leaf then LeafPair(t.m, l, r, t.first, t.last) else r != t.last && InnerPair(t.m, p, l, r)
    modifies t`m, t`last, t.m.Keys
    ensures Linked(t) && t.m == JoinStores(old(t.m), l, r, sep) && t.first != r && t.last != r
  {
    assert See(l) && See(r);
    if !l.leaf {
      StoreInner(t, l, l.slot + [sep] + r.slot, l.subl + r.subl, l.suba + r.suba);
      StoreParents(t, r.subl, l);
    } else {
      StoreVas(t, l, l.vas + r.vas);
      ListDel(t, r);
    }
  }

  lemma MergeIsStores(m: Mem, root: Bpn, d: int, p: Bpn, i: nat)
    requires Siblings(m, root, d, p, i) && Mergeable(m, p, i)
    ensures (!m[m[p].subl[i]].leaf ==> p !in m[m[p].subl[i + 1]].subl)
    ensures SameStores(MergeStores(m, p, i), Merge(m, p, i, m[p].suba[i]))
  {
    if m[m[p].subl[i]].leaf { MergeStoresLeaf(m, root, d, p, i); } else { MergeStoresInner(m, root, d, p, i); }
  }

  // The separator to work on: the last one when the search ended behind it.
  function Adjust(pos: nat, entries: nat): nat {
    if pos == entries > 0 then pos - 1 else pos
  }

  // The children at `i` and `i + 1` of `p` become one; SUB_AVAIL of the result is left to the caller.
  method BpnMergeSiblings(t: BptRoot, p: Bpn, pos: nat, ghost i: nat, ghost root: Bpn, ghost d: int) returns (l: Bpn)
    requires Linked(t) && p in t.m && i == Adjust(pos, |t.m[p].slot|) && Siblings(t.m, root, d, p, i)
    requires var l, r := t.m[p].subl[i], t.m[p].subl[i + 1];
      l in t.m && r in t.m && Entries(t.m[l]) + Entries(t.m[r]) + (if t.m[l].leaf then 0 else 1) <= MAX_ENTRIES
    modifies t`m, t`last, t.m.Keys
    ensures Mergeable(old(t.m), p, i)
    ensures Linked(t) && l == old(t.m)[p].subl[i] && t.m == Merge(old(t.m), p, i, old(t.m)[p].suba[i])
  {
    ghost var m := t.m;
    assert See(p);
    var pos' := Adjust(pos, |p.slot|);
    l := p.subl[pos'];
    var r := p.subl[pos' + 1];
    MergeReady(m, root, d, p, pos', t.first, t.last);
    JoinContents(t, p, l, r, p.slot[pos']);
    assert t.m[p] == m[p];
    StoreInner(t, p, Del(p.slot, pos'), Del(p.subl, pos' + 1), Del(p.suba, pos' + 1));
    Free(t, r);
    MergeIsStores(m, root, d, p, i);
    assert t.m == MergeStores(m, p, i);
    Remeasure(t, Merge(m, p, i, m[p].suba[i]));
  }
}
