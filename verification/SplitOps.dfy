/** bpn_split and its two halves on the heap. */
module SplitOps {
  import opened Words
  import opened Node
  import opened Shape
  import opened Avail
  import opened Cutting
  import opened Store
  import opened Tree

  // The children right of the cut are those whose interval starts at or after the cut key.
  lemma MovedKids(m: Mem, root: Bpn, d: int, n: Bpn, k: nat)
    requires Struct(m, root, d) && n in m && !m[n].leaf && k < |m[n].slot|
    ensures InnerOk(m[n])
    ensures forall x :: x in m[n].subl[k + 1..] ==> x in m && m[x].parent == n && m[x].lo >= m[n].slot[k]
    ensures forall x :: x in m && m[x].parent == n && m[x].lo >= m[n].slot[k] ==> x in m[n].subl[k + 1..]
  {
    assert NodeOk(m, root, d, n);
    forall x | x in m[n].subl[k + 1..]
      ensures x in m && m[x].parent == n && m[x].lo >= m[n].slot[k]
    {
      var i :| 0 <= i < |m[n].subl[k + 1..]| && m[n].subl[k + 1..][i] == x;
      assert KidOk(m, n, k + 1 + i);
    }
    forall x | x in m && m[x].parent == n && m[x].lo >= m[n].slot[k]
      ensures x in m[n].subl[k + 1..]
    {
      assert NodeOk(m, root, d, x);
      var p, i := UpEdge(m, root, d, x);
      assert i >= k + 1;
      assert m[n].subl[k + 1..][i - k - 1] == x;
    }
  }

  // The right part of a full internal node moves to the new node; the middle separator is given up.
  method BpnSplitInternal(t: BptRoot, l: Bpn, r: Bpn)
    requires Linked(t) && l in t.m && r in t.m && l != r && InnerOk(t.m[l]) && |t.m[l].slot| == MAX_ENTRIES
    requires forall x :: x in t.m[l].subl ==> x in t.m && x != l && x != r
    modifies t`m, t.m.Keys
    ensures Linked(t) && t.m == SplitInternalM(old(t.m), l, r)
  {
    assert See(l) && See(r);
    var re := Split(MAX_ENTRIES) - 1;
    var le := MAX_ENTRIES - (re + 1);
    var kids := l.subl[le + 1..];
    StoreInner(t, r, l.slot[le + 1..], kids, l.suba[le + 1..]);
    StoreInner(t, l, l.slot[..le], l.subl[..le + 1], l.suba[..le + 1]);
    StoreParents(t, kids, r);
  }

  ghost function SplitInternalM(m: Mem, l: Bpn, r: Bpn): Mem
    requires l in m && r in m && l != r && InnerOk(m[l]) && |m[l].slot| == MAX_ENTRIES
  {
    var k := MAX_ENTRIES - Split(MAX_ENTRIES);
    var v := m[l];
    SetParents(m[r := m[r].(slot := v.slot[k + 1..], subl := v.subl[k + 1..], suba := v.suba[k + 1..])]
                [l := v.(slot := v.slot[..k], subl := v.subl[..k + 1], suba := v.suba[..k + 1])],
               v.subl[k + 1..], r)
  }

  // The right part of a full leaf moves to the new leaf, which is linked in behind the old one.
  method BpnSplitExternal(t: BptRoot, l: Bpn, r: Bpn)
    requires Linked(t) && l in t.m && r in t.m && l != r && |t.m[l].vas| == MAX_ENTRIES
    requires t.m[r].leaf && t.m[r].prev == t.m[r].next == null && r != t.first && r != t.last
    requires t.m[l].next != l && t.m[l].next != r && (t.m[l].next != null ==> t.m[l].next in t.m && t.m[t.m[l].next].prev == l)
    requires t.m[l].next == null ==> l == t.last
    modifies t`m, t`last, t.m.Keys
    ensures Linked(t) && t.m == SplitExternalM(old(t.m), l, r)
  {
    assert See(l);
    var re := Split(MAX_ENTRIES);
    var le := MAX_ENTRIES - re;
    StoreVas(t, r, l.vas[le..]);
    StoreVas(t, l, l.vas[..le]);
    ListAdd(t, l, r);
  }

  ghost function SplitExternalM(m: Mem, l: Bpn, r: Bpn): Mem
    requires l in m && r in m && l != r && |m[l].vas| == MAX_ENTRIES
  {
    var k := MAX_ENTRIES - Split(MAX_ENTRIES);
    ListAddM(m[r := m[r].(vas := m[l].vas[k..])][l := m[l].(vas := m[l].vas[..k])], l, r)
  }

  ghost function DividedM(m: Mem, n: Bpn, r: Bpn): Mem
    requires n in m && r !in m && Entries(m[n]) == MAX_ENTRIES && (!m[n].leaf ==> InnerOk(m[n]))
  {
    var b := m[r := BlankNd(m[n].leaf)];
    if m[n].leaf then SplitExternalM(b, n, r) else SplitInternalM(b, n, r)
  }

  ghost function RaisedM(m: Mem, n: Bpn, r: Bpn, p: Bpn, i: nat, key: int, al: int, ar: int): Mem
    requires n in m && r in m && p in m && i < |m[p].subl| == |m[p].slot| + 1 == |m[p].suba|
  {
    var u := m[p].(slot := Ins(m[p].slot, i, key), subl := Ins(m[p].subl, i + 1, r),
                   suba := m[p].suba[..i] + [al, ar] + m[p].suba[i + 1..]);
    var e := m[p := u];
    var f := e[r := e[r].(parent := p)];
    f[n := f[n].(parent := p)]
  }

  // The stores of a split, before intervals are restated.
  ghost function SplitM(m: Mem, n: Bpn, p: Bpn, i: nat, r: Bpn, al: int, ar: int): Mem
    requires n in m && p in m && n != p && r !in m && Entries(m[n]) == MAX_ENTRIES && (!m[n].leaf ==> InnerOk(m[n]))
    requires InnerOk(m[p]) && i < |m[p].subl| && (!m[n].leaf ==> p !in m[n].subl)
  {
    RaisedM(DividedM(m, n, r), n, r, p, i, CutKey(m[n], MAX_ENTRIES - Split(MAX_ENTRIES)), al, ar)
  }

  // `n` is child `s.i` of `s.p` except that its parent pointer may still be unset.
  ghost predicate SplitSite(m: Mem, root: Bpn, n: Bpn, s: Site) {
    && n in m && s.p in m && n != s.p && Entries(m[n]) == MAX_ENTRIES && s.k == MAX_ENTRIES - Split(MAX_ENTRIES)
    && s.i < |m[s.p].subl| && m[s.p].subl[s.i] == n && !m[s.p].leaf && s.r !in m && s.pp == 0
    && Struct(m[n := m[n].(parent := s.p)], root, -1)
  }

  // The children of `l` right of position `k` are the nodes below it that start at or after slot k.
  ghost predicate Movable(m: Mem, l: Bpn, k: nat)
    requires l in m && InnerOk(m[l]) && k < |m[l].slot|
  {
    && (forall x :: x in m[l].subl ==> x in m && x != l && m[x].parent == l)
    && (forall x :: x in m[l].subl[k + 1..] ==> m[x].lo >= m[l].slot[k])
    && (forall x :: x in m && x != l && m[x].parent == l && m[x].lo >= m[l].slot[k] ==> x in m[l].subl[k + 1..])
  }

  lemma SplitMovable(m: Mem, root: Bpn, n: Bpn, s: Site)
    requires SplitSite(m, root, n, s) && !m[n].leaf
    ensures InnerOk(m[n]) && Movable(m, n, s.k)
  {
    var m0 := m[n := m[n].(parent := s.p)];
    assert m0[n].slot == m[n].slot && m0[n].subl == m[n].subl;
    KidsExactly(m0, root, -1, n);
    MovedKids(m0, root, -1, n, s.k);
    forall x | x in m && x != n
      ensures m0[x] == m[x]
    {}
  }

  lemma SplitSiteFacts(m: Mem, root: Bpn, n: Bpn, s: Site)
    requires SplitSite(m, root, n, s)
    ensures Cuttable(m[n := m[n].(parent := s.p)], s) && InnerOk(m[s.p]) && m[s.p].parent != n
    ensures m[n].leaf ==> LeafOk(m[n], -1) && ChainOk(m[n := m[n].(parent := s.p)], n) && m[n].next != s.p && m[n].next != n && m[n].next != s.r
    ensures !m[n].leaf ==> InnerOk(m[n])
  {
    var m0 := m[n := m[n].(parent := s.p)];
    assert NodeOk(m0, root, -1, s.p) && NodeOk(m0, root, -1, n) && KidOk(m0, s.p, s.i);
    if s.p != root {
      var q, j := UpEdge(m0, root, -1, s.p);
    }
  }

  lemma SplitIsCutLeaf(m: Mem, root: Bpn, n: Bpn, s: Site)
    requires SplitSite(m, root, n, s) && m[n].leaf && Cuttable(m[n := m[n].(parent := s.p)], s)
    requires InnerOk(m[s.p]) && LeafOk(m[n], -1) && m[n].next != s.p && m[n].next != n && m[n].next != s.r
    ensures SameStores(SplitM(m, n, s.p, s.i, s.r, s.al, s.ar), Cut(m[n := m[n].(parent := s.p)], s))
  {
    var m1 := SplitM(m, n, s.p, s.i, s.r, s.al, s.ar);
    var m' := Cut(m[n := m[n].(parent := s.p)], s);
    assert m1.Keys == m'.Keys;
    forall x | x in m
      ensures m'[x] == m1[x].(lo := m'[x].lo, hi := m'[x].hi, h := m'[x].h)
    {}
  }

  lemma SplitIsCutInner(m: Mem, root: Bpn, n: Bpn, s: Site)
    requires SplitSite(m, root, n, s) && !m[n].leaf && Cuttable(m[n := m[n].(parent := s.p)], s)
    requires InnerOk(m[s.p]) && InnerOk(m[n]) && Movable(m, n, s.k) && m[s.p].parent != n
    ensures SameStores(SplitM(m, n, s.p, s.i, s.r, s.al, s.ar), Cut(m[n := m[n].(parent := s.p)], s))
  {
    var m1 := SplitM(m, n, s.p, s.i, s.r, s.al, s.ar);
    var m' := Cut(m[n := m[n].(parent := s.p)], s);
    assert s.p !in m[n].subl;
    forall x | x in m
      ensures m'[x] == m1[x].(lo := m'[x].lo, hi := m'[x].hi, h := m'[x].h)
    {
      if x == n || x == s.p {
      } else {
        assert m1[x] == if x in m[n].subl[s.k + 1..] then m[x].(parent := s.r) else m[x];
      }
    }
  }

  lemma SplitReady(m: Mem, root: Bpn, n: Bpn, p: Bpn, i: nat, last: Bpn)
    requires n in m && p in m && n != p && Entries(m[n]) == MAX_ENTRIES && !m[p].leaf
    requires Struct(m[n := m[n].(parent := p)], root, -1) && i < |m[p].subl| && m[p].subl[i] == n
    requires last in m && m[last].leaf && m[last].next == null
    ensures InnerOk(m[p])
    ensures !m[n].leaf ==> InnerOk(m[n]) && (forall x :: x in m[n].subl ==> x in m && x != n) && p !in m[n].subl && n !in m[n].subl
    ensures m[n].leaf ==> m[n].next != n && (if m[n].next == null then n == last else m[n].next in m && m[m[n].next].prev == n)
  {
    var m0 := m[n := m[n].(parent := p)];
    assert NodeOk(m0, root, -1, p) && NodeOk(m0, root, -1, n) && KidOk(m0, p, i);
    if !m[n].leaf {
      forall x | x in m[n].subl
        ensures x in m && x != n && x != p
      {
        var j :| 0 <= j < |m[n].subl| && m[n].subl[j] == x;
        assert KidOk(m0, n, j);
      }
    } else if m[n].next == null {
      assert NodeOk(m0, root, -1, last);
      Nest(m0, root, -1, n, last, W - 1);
    }
  }

  lemma SplitIsCut(m: Mem, root: Bpn, n: Bpn, s: Site)
    requires SplitSite(m, root, n, s)
    ensures Cuttable(m[n := m[n].(parent := s.p)], s)
    ensures InnerOk(m[s.p]) && (!m[n].leaf ==> InnerOk(m[n]) && s.p !in m[n].subl)
    ensures SameStores(SplitM(m, n, s.p, s.i, s.r, s.al, s.ar), Cut(m[n := m[n].(parent := s.p)], s))
  {
    SplitSiteFacts(m, root, n, s);
    if m[n].leaf {
      SplitIsCutLeaf(m, root, n, s);
    } else {
      SplitMovable(m, root, n, s);
      SplitIsCutInner(m, root, n, s);
    }
  }

  // The values recorded for the two halves are the maxima that were taken after the contents were divided.
  lemma SplitHalves(m: Mem, n: Bpn, s: Site)
    requires n in m && s.p in m && n != s.p && s.r !in m && Cuttable(m[n := m[n].(parent := s.p)], s)
    requires s.i < |m[s.p].subl| && m[s.p].subl[s.i] == n && Entries(m[n]) == MAX_ENTRIES && s.k == MAX_ENTRIES - Split(MAX_ENTRIES)
    requires (!m[n].leaf ==> InnerOk(m[n]) && n !in m[n].subl) && (m[n].leaf ==> m[n].next != n)
    requires s.al == MaxAvail(DividedM(m, n, s.r)[n]) && s.ar == MaxAvail(DividedM(m, n, s.r)[s.r])
    ensures HalvesAvail(m[n := m[n].(parent := s.p)], s)
  {}

  lemma SplitDone(m: Mem, m1: Mem, root: Bpn, n: Bpn, s: Site)
    requires SplitSite(m, root, n, s) && InnerOk(m[s.p]) && (!m[n].leaf ==> InnerOk(m[n]) && s.p !in m[n].subl && n !in m[n].subl)
    requires m[n].leaf ==> m[n].next != n
    requires m1 == SplitM(m, n, s.p, s.i, s.r, s.al, s.ar)
    requires s.al == MaxAvail(DividedM(m, n, s.r)[n]) && s.ar == MaxAvail(DividedM(m, n, s.r)[s.r])
    ensures var m0 := m[n := m[n].(parent := s.p)]; Cuttable(m0, s) && HalvesAvail(m0, s) && SameStores(m1, Cut(m0, s))
  {
    SplitIsCut(m, root, n, s);
    SplitHalves(m, n, s);
  }

  // Allocate the right node and divide the contents; the separator for the parent is returned.
  method SplitContents(t: BptRoot, n: Bpn) returns (right: Bpn, splitKey: int)
    requires Linked(t) && n in t.m && Entries(t.m[n]) == MAX_ENTRIES
    requires !t.m[n].leaf ==> InnerOk(t.m[n]) && forall x :: x in t.m[n].subl ==> x in t.m && x != n
    requires t.m[n].leaf ==> t.m[n].next != n && if t.m[n].next == null then n == t.last else t.m[n].next in t.m && t.m[t.m[n].next].prev == n
    modifies t`m, t`last, t.m.Keys
    ensures fresh(right) && right !in old(t.m) && Linked(t)
    ensures !old(t.m[n]).leaf ==> InnerOk(old(t.m[n]))
    ensures t.m == DividedM(old(t.m), n, right) && splitKey == CutKey(old(t.m[n]), MAX_ENTRIES - Split(MAX_ENTRIES))
  {
    assert See(n);
    right := CallocInit(t, n.leaf);
    if !n.leaf {
      splitKey := n.slot[MAX_ENTRIES - Split(MAX_ENTRIES)];
      BpnSplitInternal(t, n, right);
    } else {
      splitKey := n.vas[MAX_ENTRIES - Split(MAX_ENTRIES)].start;
      BpnSplitExternal(t, n, right);
    }
  }

  // Tell the parent about the two halves, and the halves about their parent.
  method SplitUpwards(t: BptRoot, n: Bpn, right: Bpn, parent: Bpn, pindex: nat, splitKey: int) returns (ghost al: int, ghost ar: int)
    requires Linked(t) && n in t.m && right in t.m && parent in t.m && n != parent && right != parent && n != right
    requires pindex < |t.m[parent].subl| == |t.m[parent].slot| + 1 == |t.m[parent].suba|
    modifies t`m, t.m.Keys
    ensures Linked(t) && al == MaxAvail(old(t.m[n])) && ar == MaxAvail(old(t.m[right]))
    ensures t.m == RaisedM(old(t.m), n, right, parent, pindex, splitKey, al, ar)
  {
    assert See(n) && See(right) && See(parent);
    var l := BpnMaxAvail(n, t.m[n]);
    var r := BpnMaxAvail(right, t.m[right]);
    StoreInner(t, parent, Ins(parent.slot, pindex, splitKey), Ins(parent.subl, pindex + 1, right),
               parent.suba[..pindex] + [l, r] + parent.suba[pindex + 1..]);
    StoreParent(t, right, parent);
    StoreParent(t, n, parent);
    al, ar := l, r;
  }

  // All stores of a split.
  method SplitStores(t: BptRoot, n: Bpn, parent: Bpn, pindex: nat) returns (right: Bpn, ghost al: int, ghost ar: int)
    requires Linked(t) && n in t.m && parent in t.m && n != parent && Entries(t.m[n]) == MAX_ENTRIES && InnerOk(t.m[parent])
    requires pindex < |t.m[parent].subl|
    requires !t.m[n].leaf ==> InnerOk(t.m[n]) && (forall x :: x in t.m[n].subl ==> x in t.m && x != n) && parent !in t.m[n].subl
    requires t.m[n].leaf ==> t.m[n].next != n && if t.m[n].next == null then n == t.last else t.m[n].next in t.m && t.m[t.m[n].next].prev == n
    modifies t`m, t`last, t.m.Keys
    ensures fresh(right) && right !in old(t.m) && Linked(t)
    ensures !old(t.m[n]).leaf ==> InnerOk(old(t.m[n]))
    ensures t.m == SplitM(old(t.m), n, parent, pindex, right, al, ar)
    ensures al == MaxAvail(DividedM(old(t.m), n, right)[n]) && ar == MaxAvail(DividedM(old(t.m), n, right)[right])
  {
    var splitKey;
    right, splitKey := SplitContents(t, n);
    al, ar := SplitUpwards(t, n, right, parent, pindex, splitKey);
  }

  // `n` is full and child `pindex` of `parent`; the parent pointer of an old root is not set yet.
  method BpnSplit(t: BptRoot, n: Bpn, parent: Bpn, pindex: nat, ghost root: Bpn) returns (right: Bpn, ghost s: Site)
    requires Linked(t) && n in t.m && parent in t.m && n != parent && Entries(t.m[n]) == MAX_ENTRIES
    requires pindex < |t.m[parent].subl| && t.m[parent].subl[pindex] == n && !t.m[parent].leaf
    requires Struct(t.m[n := t.m[n].(parent := parent)], root, -1)
    modifies t`m, t`last, t.m.Keys
    ensures fresh(right) && Linked(t)
    ensures s.p == parent && s.i == pindex && s.r == right && s.k == MAX_ENTRIES - Split(MAX_ENTRIES)
    ensures var m0 := old(t.m)[n := old(t.m[n]).(parent := parent)];
      Cuttable(m0, s) && HalvesAvail(m0, s) && t.m == Cut(m0, s)
  {
    ghost var m := t.m;
    SplitReady(m, root, n, parent, pindex, t.last);
    ghost var al, ar;
    right, al, ar := SplitStores(t, n, parent, pindex);
    s := Site(parent, pindex, right, MAX_ENTRIES - Split(MAX_ENTRIES), al, ar, 0);
    SplitDone(m, t.m, root, n, s);
    Remeasure(t, Cut(m[n := m[n].(parent := parent)], s));
  }
}
