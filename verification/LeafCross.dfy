/** Joining a freed area with the free range in the leaf before or after: the record changes in the
    other leaf and the separator between the two leaves moves in a common ancestor. */
module LeafCross {
  import opened Words
  import opened Node
  import opened Shape
  import opened Avail
  import opened LeafOps
  import opened Store
  import opened Tree
  import opened Keeps
  import opened Rebalance
  import opened LeafChange
  import opened Subavail
  import opened Space
  import opened Neighbours
  import opened LeafMerge

  // Every separator occurs once in the tree.
  lemma SeparatorUnique(m: Mem, root: Bpn, d: int, p: Bpn, i: nat, q: Bpn, j: nat)
    requires Struct(m, root, d) && p in m && q in m && !m[p].leaf && !m[q].leaf
    requires i < |m[p].slot| && j < |m[q].slot| && m[p].slot[i] == m[q].slot[j] && m[q].h <= m[p].h
    ensures p == q && i == j
  {
    var s := m[p].slot[i];
    assert NodeOk(m, root, d, p) && NodeOk(m, root, d, q);
    if m[q].h < m[p].h {
      assert KidOk(m, p, i + 1);
      assert NodeOk(m, root, d, m[p].subl[i + 1]);
      Nest(m, root, d, q, m[p].subl[i + 1], s);
      assert false;
    } else {
      Nest(m, root, d, q, p, s);
    }
  }

  // `r` is the leaf after `l`: no boundary but theirs lies inside the two.
  lemma BoundaryAlone(m: Mem, root: Bpn, l: Bpn, r: Bpn)
    requires Struct(m, root, -1) && l in m && r in m && m[l].leaf && m[r].leaf && m[l].hi == m[r].lo
    ensures Alone(m, m[r].lo, m[l].lo, m[r].hi)
  {
    assert NodeOk(m, root, -1, l) && NodeOk(m, root, -1, r);
    forall n | n in m
      ensures !(m[l].lo < m[n].lo < m[r].hi) || m[n].lo == m[r].lo
      ensures !(m[l].lo < m[n].hi < m[r].hi) || m[n].hi == m[r].lo
    {
      NoCutInside(m, root, -1, l, n);
      NoCutInside(m, root, -1, r, n);
    }
    forall n, i | n in m && !m[n].leaf && 0 <= i < |m[n].slot|
      ensures !(m[l].lo < m[n].slot[i] < m[r].hi) || m[n].slot[i] == m[r].lo
    {
      assert NodeOk(m, root, -1, n) && KidOk(m, n, i + 1);
      NoCutInside(m, root, -1, l, m[n].subl[i + 1]);
      NoCutInside(m, root, -1, r, m[n].subl[i + 1]);
    }
  }

  // The boundary between the adjacent leaves l and r can be moved to s2.
  ghost predicate Movable(m: Mem, root: Bpn, l: Bpn, r: Bpn, s2: int) {
    && Sound(m, root, -1) && l in m && r in m && m[l].leaf && m[r].leaf && m[l].hi == m[r].lo
    && m[l].lo < s2 < m[r].hi
    && (forall i :: 0 <= i < |m[l].vas| ==> m[l].vas[i].end <= s2)
    && (forall i :: 0 <= i < |m[r].vas| ==> s2 <= m[r].vas[i].start)
  }

  lemma MovedLeaf(m: Mem, root: Bpn, l: Bpn, r: Bpn, s2: int, n: Bpn)
    requires Movable(m, root, l, r, s2) && n in m && m[n].leaf
    ensures var m' := MoveCut(m, m[r].lo, s2);
      m'[n] == if n == l then m[l].(hi := s2) else if n == r then m[r].(lo := s2) else m[n]
  {
    assert NodeOk(m, root, -1, l) && NodeOk(m, root, -1, r) && NodeOk(m, root, -1, n);
    if m[n].lo == m[r].lo { Nest(m, root, -1, n, r, m[r].lo); }
    if m[n].hi == m[r].lo { Nest(m, root, -1, n, l, m[r].lo - 1); }
  }

  lemma MovedStruct(m: Mem, root: Bpn, l: Bpn, r: Bpn, s2: int)
    requires Movable(m, root, l, r, s2)
    ensures Struct(MoveCut(m, m[r].lo, s2), root, -1)
  {
    BoundaryAlone(m, root, l, r);
    var s := m[r].lo;
    assert NodeOk(m, root, -1, l) && NodeOk(m, root, -1, r);
    forall n | n in m && m[n].leaf
      ensures RecordsOk(m[n].vas, Shifted(m[n].lo, s, s2), Shifted(m[n].hi, s, s2), -1)
    {
      MovedLeaf(m, root, l, r, s2, n);
      assert NodeOk(m, root, -1, n);
      var m' := MoveCut(m, s, s2);
      assert m'[n].lo == Shifted(m[n].lo, s, s2) && m'[n].hi == Shifted(m[n].hi, s, s2);
    }
    MoveCutStruct(m, root, s, s2, m[l].lo, m[r].hi);
  }

  lemma MoveCutRest(m: Mem, root: Bpn, s: int, s2: int)
    requires AvailOk(m, null) && SizeOk(m, root)
    ensures var m' := MoveCut(m, s, s2);
      AvailOk(m', null) && SizeOk(m', root) && Recs(m') == Recs(m) && Los(m') <= Los(m) + {s2}
  {
    var m' := MoveCut(m, s, s2);
    forall n: Bpn, i | n in m' && 0 <= i < |m'[n].subl| == |m'[n].suba|
      ensures EdgeOk(m', n, i)
    {
      assert EdgeOk(m, n, i);
    }
    assert forall n :: n in m' ==> Entries(m'[n]) == Entries(m[n]);
    forall x | x in Recs(m)
      ensures x in Recs(m')
    {
      var n: Bpn :| n in m && x in m[n].vas;
      assert x in m'[n].vas;
    }
    forall x | x in Recs(m')
      ensures x in Recs(m)
    {
      var n: Bpn :| n in m' && x in m'[n].vas;
      assert x in m[n].vas;
    }
    forall x | x in Los(m')
      ensures x in Los(m) + {s2}
    {
      var n: Bpn :| n in m' && m'[n].lo == x;
      assert m[n].lo in Los(m);
    }
  }

  // The picture after the boundary has moved and leaf `q` has its new contents, before the climb.
  ghost function Crossed(m: Mem, s: int, s2: int, q: Bpn, vas: seq<Range>): Mem
    requires q in m
  {
    SetVas(MoveCut(m, s, s2), q, vas)
  }

  // One separator and the records of one leaf are all that is stored.
  lemma CrossedStores(m: Mem, root: Bpn, p: Bpn, i: nat, s2: int, q: Bpn, vas: seq<Range>)
    requires Struct(m, root, -1) && p in m && !m[p].leaf && i < |m[p].slot| && q in m && m[q].leaf
    ensures var m1 := m[q := m[q].(vas := vas)];
      SameStores(m1[p := m1[p].(slot := m1[p].slot[i := s2])], Crossed(m, m[p].slot[i], s2, q, vas))
  {
    var s := m[p].slot[i];
    var m1 := m[q := m[q].(vas := vas)];
    var m2 := m1[p := m1[p].(slot := m1[p].slot[i := s2])];
    var m' := Crossed(m, s, s2, q, vas);
    forall n | n in m
      ensures m'[n] == m2[n].(lo := m'[n].lo, hi := m'[n].hi, h := m'[n].h)
    {
      assert NodeOk(m, root, -1, n);
      forall j | 0 <= j < |m[n].slot|
        ensures m'[n].slot[j] == m2[n].slot[j]
      {
        if m[n].slot[j] == s {
          if m[n].h <= m[p].h {
            SeparatorUnique(m, root, -1, p, i, n, j);
          } else {
            SeparatorUnique(m, root, -1, n, j, p, i);
          }
        } else if n == p {
          assert j != i;
        }
      }
      assert m'[n].slot == m2[n].slot;
    }
  }

  lemma CrossedKeeps(m: Mem, root: Bpn, l: Bpn, r: Bpn, s2: int, q: Bpn, i: nat, x: Range)
    requires Movable(m, root, l, r, s2) && (q == l || q == r) && i < |m[q].vas|
    requires Between(MoveCut(m, m[r].lo, s2), q, i, x, -1)
    ensures var m' := Crossed(m, m[r].lo, s2, q, m[q].vas[i := x]);
      && Struct(m', root, -1) && SizeOk(m', root) && AvailOk(m', q)
      && Recs(m') == Recs(m) - {m[q].vas[i]} + {x} && Los(m') <= Los(m) + {s2}
      && q in m' && m'[q].lo == (if q == l then m[q].lo else s2) && m'[q].hi == (if q == l then s2 else m[q].hi)
  {
    var m2 := MoveCut(m, m[r].lo, s2);
    MovedStruct(m, root, l, r, s2);
    MoveCutRest(m, root, m[r].lo, s2);
    MovedLeaf(m, root, l, r, s2, q);
    AdjustFits(m2, root, q, i, x, -1);
    SetVasStruct(m2, root, -1, -1, q, m2[q].vas[i := x]);
    SetVasAvail(m2, root, -1, q, m2[q].vas[i := x]);
    LeafChangedSets(m2, root, -1, q, m2[q].vas[i := x]);
    LeafChangedSizes(m2, root, q, m2[q].vas[i := x]);
  }

  // ---------- Finding the common ancestor ----------

  // One round of the climb to the separator left of `n`: at a leftmost child the climb goes on.
  lemma LeftRound(m: Mem, root: Bpn, path: seq<Bpn>, k: nat, key: int)
    requires Sound(m, root, -1) && PathOk(m, root, path) && k < |path| && m[path[k]].lo > 0
    requires m[path[k]].lo <= key < m[path[k]].hi
    ensures k > 0 && m[path[k]].parent == path[k - 1] && !m[path[k - 1]].leaf
    ensures var p := m[path[k - 1]];
      && |p.slot| > 0 && p.ppos <= |p.slot|
      && (if p.ppos > 0 then p.slot[p.ppos - 1] == m[path[k]].lo
          else p.slot[0] > key && p.lo == m[path[k]].lo && key < p.hi)
  {
    Climb(m, root, -1, path, k);
    assert NodeOk(m, root, -1, root);
    assert Entries(m[path[k - 1]]) <= MAX_ENTRIES;
    assert NodeOk(m, root, -1, path[k - 1]);
  }

  // The separator between `n` and the leaf before it, found by climbing along the position marks.
  method FindLeftSplit(t: BptRoot, n: Bpn, key: int, ghost path: seq<Bpn>) returns (p: Bpn?, i: nat)
    requires Linked(t) && Sound(t.m, t.node, -1) && PathOk(t.m, t.node, path) && path[|path| - 1] == n
    requires t.m[n].lo > 0 && Holds(t.m[n], key)
    ensures p != null && p in t.m && !t.m[p].leaf && i < |t.m[p].slot| && t.m[p].slot[i] == t.m[n].lo
  {
    ghost var k := |path| - 1;
    LeftRound(t.m, t.node, path, k, key);
    assert See(n);
    p, i := n.parent, 0;
    while p != null
      invariant 0 < k < |path| && p == path[k - 1] && t.m[path[k]].lo == t.m[n].lo && key < t.m[path[k]].hi
      decreases k
    {
      LeftRound(t.m, t.node, path, k, key);
      assert See(p);
      i := p.ppos;
      if p.ppos > 0 {
        i := p.ppos - 1;
      }
      if p.slot[i] <= key {
        break;
      }
      k := k - 1;
      LeftRound(t.m, t.node, path, k, key);
      p := p.parent;
    }
  }

  // One round of the climb to the separator right of `n`: at a rightmost child the climb goes on.
  lemma RightRound(m: Mem, root: Bpn, path: seq<Bpn>, k: nat)
    requires Sound(m, root, -1) && PathOk(m, root, path) && k < |path| && m[path[k]].hi < W
    ensures k > 0 && m[path[k]].parent == path[k - 1] && !m[path[k - 1]].leaf
    ensures var p := m[path[k - 1]];
      && |p.slot| > 0 && p.ppos <= |p.slot|
      && (if p.ppos < |p.slot| then p.slot[p.ppos] == m[path[k]].hi
          else p.slot[p.ppos - 1] < m[path[k]].hi && p.hi == m[path[k]].hi)
  {
    Climb(m, root, -1, path, k);
    assert NodeOk(m, root, -1, root);
    assert Entries(m[path[k - 1]]) <= MAX_ENTRIES;
    assert NodeOk(m, root, -1, path[k - 1]);
  }

  // The separator between `n` and the leaf after it.
  method FindRightSplit(t: BptRoot, n: Bpn, key: int, ghost path: seq<Bpn>) returns (p: Bpn?, i: nat)
    requires Linked(t) && Sound(t.m, t.node, -1) && PathOk(t.m, t.node, path) && path[|path| - 1] == n
    requires t.m[n].hi == key < W
    ensures p != null && p in t.m && !t.m[p].leaf && i < |t.m[p].slot| && t.m[p].slot[i] == key
  {
    ghost var k := |path| - 1;
    RightRound(t.m, t.node, path, k);
    assert See(n);
    p, i := n.parent, 0;
    while p != null
      invariant 0 < k < |path| && p == path[k - 1] && t.m[path[k]].hi == key
      decreases k
    {
      RightRound(t.m, t.node, path, k);
      assert See(p);
      i := p.ppos;
      if p.ppos == |p.slot| {
        i := p.ppos - 1;
      }
      if p.slot[i] >= key {
        break;
      }
      k := k - 1;
      RightRound(t.m, t.node, path, k);
      p := p.parent;
    }
  }

  // Change record `i` of leaf `q` to `x` and move separator `j` of `p` to `s2`.
  method StoreCross(t: BptRoot, q: Bpn, i: nat, x: Range, p: Bpn, j: nat, s2: int)
    requires Linked(t) && Struct(t.m, t.node, -1) && q in t.m && t.m[q].leaf && i < |t.m[q].vas|
    requires p in t.m && !t.m[p].leaf && j < |t.m[p].slot|
    modifies t`m, t.m.Keys
    ensures Linked(t) && t.m == Crossed(old(t.m), old(t.m)[p].slot[j], s2, q, old(t.m)[q].vas[i := x])
  {
    assert See(q);
    ghost var m' := Crossed(t.m, t.m[p].slot[j], s2, q, t.m[q].vas[i := x]);
    CrossedStores(t.m, t.node, p, j, s2, q, t.m[q].vas[i := x]);
    StoreVas(t, q, q.vas[i := x]);
    StoreSlot(t, p, j, s2);
    Remeasure(t, m');
  }

  lemma CrossedSettled(m1: Mem, root: Bpn, q: Bpn)
    requires Struct(m1, root, -1) && SizeOk(m1, root) && q in m1 && AvailOk(m1, q)
    ensures var m2 := Fixup(m1, root, -1, q);
      Sound(m2, root, -1) && m2.Keys == m1.Keys && Recs(m2) == Recs(m1) && Los(m2) == Los(m1)
  {
    FixupSound(m1, root, -1, q);
    SubaKeepsRest(m1, Fixup(m1, root, -1, q), root);
  }

  // The same, with the maxima above `q` repaired.
  method CrossOver(t: BptRoot, q: Bpn, i: nat, x: Range, p: Bpn, j: nat, s2: int, ghost l: Bpn, ghost r: Bpn)
    requires Linked(t) && Movable(t.m, t.node, l, r, s2) && (q == l || q == r) && i < |t.m[q].vas|
    requires Between(MoveCut(t.m, t.m[r].lo, s2), q, i, x, -1)
    requires p in t.m && !t.m[p].leaf && j < |t.m[p].slot| && t.m[p].slot[j] == t.m[r].lo
    modifies t`m, t.m.Keys
    ensures Linked(t) && Sound(t.m, t.node, -1) && t.m.Keys <= old(t.m.Keys)
    ensures Recs(t.m) == Recs(old(t.m)) - {old(t.m)[q].vas[i]} + {x} && Los(t.m) <= Los(old(t.m)) + {s2}
  {
    CrossedKeeps(t.m, t.node, l, r, s2, q, i, x);
    MovedLeaf(t.m, t.node, l, r, s2, q);
    StoreCross(t, q, i, x, p, j, s2);
    CrossedSettled(t.m, t.node, q);
    FixupSubavail(t, q, x.start, -1);
  }

  // ---------- The two leaf-crossing cases ----------

  lemma LeftLeafMovable(m: Mem, root: Bpn, n: Bpn, va: Range, pos: nat)
    requires Placed(m, root, n, va, pos) && LeftLeafAbuts(m, n, va, pos) && Starting(Recs(m), va.end) == {}
    ensures |m[n].vas| > 0 && m[n].lo == va.start > 0 && Holds(m[n], m[n].vas[0].start)
    ensures var ll, s2 := m[n].prev, m[n].vas[0].start;
      var k := |m[ll].vas| - 1;
      var j := Range(m[ll].vas[k].start, va.end);
      && Movable(m, root, ll, n, s2) && Between(MoveCut(m, m[n].lo, s2), ll, k, j, -1)
      && Recs(m) - {m[ll].vas[k]} + {j} == Coalesce(Recs(m), va) && m[n].vas[0] in Recs(m)
  {
    AdjacentLeaves(m, root, -1, n);
    var ll, s2 := m[n].prev, m[n].vas[0].start;
    var k := |m[ll].vas| - 1;
    InRecs(m, n, 0);
    InRecs(m, ll, k);
    forall i | 0 <= i < |m[ll].vas|
      ensures m[ll].vas[i].end <= s2
    {
      InOrder(m[ll], -1, i, k);
    }
    forall i | 0 <= i < |m[n].vas|
      ensures s2 <= m[n].vas[i].start
    {
      InOrder(m[n], -1, 0, i);
    }
    MovedLeaf(m, root, ll, n, s2, ll);
    if k > 0 { InOrder(m[ll], -1, k - 1, k); }
    CoalesceIs(Recs(m), va, Some(m[ll].vas[k]), None);
  }

  method MergeLeftLeaf(t: BptRoot, n: Bpn, va: Range, ghost pos: nat, ghost path: seq<Bpn>)
    requires Linked(t) && Placed(t.m, t.node, n, va, pos) && PathOk(t.m, t.node, path) && path[|path| - 1] == n
    requires LeftLeafAbuts(t.m, n, va, pos) && Starting(Recs(t.m), va.end) == {}
    modifies t`m, t.m.Keys
    ensures Linked(t) && Freed(old(t.m), t.m, t.node, va) && t.m.Keys <= old(t.m.Keys)
  {
    LeftLeafMovable(t.m, t.node, n, va, pos);
    assert See(n);
    var ll := n.prev;
    assert See(ll);
    var left, right := ll.vas[|ll.vas| - 1], n.vas[0];
    var p, i := FindLeftSplit(t, n, right.start, path);
    CrossOver(t, ll, |ll.vas| - 1, Range(left.start, va.end), p, i, right.start, ll, n);
  }

  lemma RightLeafMovable(m: Mem, root: Bpn, n: Bpn, va: Range, pos: nat)
    requires Placed(m, root, n, va, pos) && RightLeafAbuts(m, n, va, pos) && Ending(Recs(m), va.start) == {}
    ensures m[n].hi == va.end == m[m[n].next].vas[0].start
    ensures var rl := m[n].next;
      var j := Range(va.start, m[rl].vas[0].end);
      && Movable(m, root, n, rl, va.start) && Between(MoveCut(m, m[rl].lo, va.start), rl, 0, j, -1)
      && Recs(m) - {m[rl].vas[0]} + {j} == Coalesce(Recs(m), va) && j in Coalesce(Recs(m), va)
  {
    AdjacentLeaves(m, root, -1, n);
    var rl := m[n].next;
    InRecs(m, rl, 0);
    assert m[n].vas[0].start < m[n].vas[0].end <= va.start;
    forall i | 0 <= i < |m[rl].vas|
      ensures va.start <= m[rl].vas[i].start && (0 < i ==> m[rl].vas[0].end <= m[rl].vas[i].start)
    {
      InOrder(m[rl], -1, 0, i);
    }
    MovedLeaf(m, root, n, rl, va.start, rl);
    CoalesceIs(Recs(m), va, None, Some(m[rl].vas[0]));
  }

  method MergeRightLeaf(t: BptRoot, n: Bpn, va: Range, ghost pos: nat, ghost path: seq<Bpn>)
    requires Linked(t) && Placed(t.m, t.node, n, va, pos) && PathOk(t.m, t.node, path) && path[|path| - 1] == n
    requires RightLeafAbuts(t.m, n, va, pos) && Ending(Recs(t.m), va.start) == {}
    modifies t`m, t.m.Keys
    ensures Linked(t) && Freed(old(t.m), t.m, t.node, va) && t.m.Keys <= old(t.m.Keys)
  {
    RightLeafMovable(t.m, t.node, n, va, pos);
    AdjacentLeaves(t.m, t.node, -1, n);
    assert See(n);
    var rl := n.next;
    assert See(rl);
    var right := rl.vas[0];
    var p, i := FindRightSplit(t, n, right.start, path);
    CrossOver(t, rl, 0, Range(va.start, right.end), p, i, va.start, n, rl);
  }
}
