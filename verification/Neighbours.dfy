/** Where the ranges that abut on a freed area are found: in the leaf that covers its start, or at the
    near end of the leaf before or after. */
module Neighbours {
  import opened Words
  import opened Node
  import opened Shape
  import opened Avail
  import opened Store
  import opened Tree
  import opened NodeSearch
  import opened Keeps
  import opened Rebalance
  import opened Space

  // No boundary of the tree lies strictly inside `va`.
  ghost predicate Confined(los: set<int>, va: Range) {
    forall b :: b in los ==> !(va.start < b < va.end)
  }

  // No boundary lies strictly inside the interval of a leaf.
  lemma NoCutInside(m: Mem, root: Bpn, d: int, n: Bpn, x: Bpn)
    requires Struct(m, root, d) && n in m && m[n].leaf && x in m
    ensures !(m[n].lo < m[x].lo < m[n].hi) && !(m[n].lo < m[x].hi < m[n].hi)
  {
    assert NodeOk(m, root, d, n) && NodeOk(m, root, d, x);
    if m[n].lo < m[x].lo < m[n].hi {
      Nest(m, root, d, n, x, m[x].lo);
    }
    if m[n].lo < m[x].hi < m[n].hi {
      Nest(m, root, d, n, x, m[x].hi - 1);
    }
  }

  lemma InRecs(m: Mem, n: Bpn, i: nat)
    requires n in m && i < |m[n].vas|
    ensures m[n].vas[i] in Recs(m)
  {
    assert m[n].vas[i] in m[n].vas;
  }

  lemma InOrder(v: Nd, d: int, i: nat, j: nat)
    requires LeafOk(v, d) && i < |v.vas| && j < |v.vas|
    ensures i < j && v.vas[j].start != d ==> v.vas[i].end <= v.vas[j].start
    ensures v.vas[j].start < v.vas[j].end
  {}

  // A record belongs to the leaf that covers its start.
  lemma HomeLeaf(m: Mem, root: Bpn, d: int, n: Bpn, r: Range)
    requires Struct(m, root, d) && n in m && m[n].leaf && r in Recs(m)
    ensures LeafOk(m[n], d)
    ensures Holds(m[n], r.start) ==> r in m[n].vas
    ensures Holds(m[n], r.end - 1) ==> r in m[n].vas
  {
    var q: Bpn :| q in m && r in m[q].vas;
    assert NodeOk(m, root, d, q) && NodeOk(m, root, d, n);
    if Holds(m[n], r.start) { Nest(m, root, d, q, n, r.start); }
    if Holds(m[n], r.end - 1) { Nest(m, root, d, q, n, r.end - 1); }
  }

  // Free ranges are confined in every sound tree.
  lemma RecordsConfined(m: Mem, root: Bpn, d: int, r: Range)
    requires Struct(m, root, d) && r in Recs(m)
    ensures Confined(Los(m), r)
  {
    var n: Bpn :| n in m && r in m[n].vas;
    assert NodeOk(m, root, d, n);
    forall b | b in Los(m)
      ensures !(r.start < b < r.end)
    {
      var x: Bpn :| x in m && m[x].lo == b;
      NoCutInside(m, root, d, n, x);
    }
  }

  lemma ConfinedEnd(m: Mem, root: Bpn, d: int, n: Bpn, va: Range)
    requires Struct(m, root, d) && n in m && m[n].leaf && Holds(m[n], va.start) && Confined(Los(m), va) && va.end <= W
    ensures va.end <= m[n].hi
  {
    assert NodeOk(m, root, d, n);
    if m[n].next != null {
      assert m[m[n].next].lo in Los(m);
    }
  }

  // The leaves before and after `n`.
  lemma AdjacentLeaves(m: Mem, root: Bpn, d: int, n: Bpn)
    requires Struct(m, root, d) && SizeOk(m, root) && n in m && m[n].leaf
    ensures LeafOk(m[n], d) && (m[n].prev == null <==> m[n].lo == 0) && (m[n].next == null <==> m[n].hi == W)
    ensures m[n].prev != null ==> var p := m[n].prev;
      p in m && p != n && LeafOk(m[p], d) && m[p].hi == m[n].lo && |m[p].vas| > 0 && |m[n].vas| > 0 && n != root
    ensures m[n].next != null ==> var q := m[n].next;
      q in m && q != n && LeafOk(m[q], d) && m[q].lo == m[n].hi && |m[q].vas| > 0 && |m[n].vas| > 0 && n != root
  {
    assert NodeOk(m, root, d, n);
    assert Entries(m[n]) <= MAX_ENTRIES;
    if m[n].prev != null {
      var p := m[n].prev;
      assert NodeOk(m, root, d, p) && Entries(m[p]) <= MAX_ENTRIES;
    }
    if m[n].next != null {
      var q := m[n].next;
      assert NodeOk(m, root, d, q) && Entries(m[q]) <= MAX_ENTRIES;
    }
  }

  /** `va` is about to join the free ranges at position `pos` of leaf `n`. */
  ghost predicate Placed(m: Mem, root: Bpn, n: Bpn, va: Range, pos: nat) {
    && Sound(m, root, -1) && n in m && m[n].leaf && Holds(m[n], va.start) && va.end <= m[n].hi
    && 0 <= va.start < va.end < W && Gapped(Recs(m)) && Clear(Recs(m), va) && Confined(Los(m), va)
    && pos <= |m[n].vas|
    && (forall i :: 0 <= i < pos ==> m[n].vas[i].end <= va.start)
    && (forall i :: pos <= i < |m[n].vas| ==> va.end <= m[n].vas[i].start)
  }

  lemma PlacedBySearch(m: Mem, root: Bpn, n: Bpn, va: Range, cc: PosCC, pos: nat)
    requires Sound(m, root, -1) && n in m && m[n].leaf && Holds(m[n], va.start) && 0 <= va.start < va.end < W
    requires Gapped(Recs(m)) && Clear(Recs(m), va) && Confined(Los(m), va)
    requires Found(Keys(m[n]), va.start, cc, pos)
    ensures Placed(m, root, n, va, pos) && cc != EQ
  {
    ConfinedEnd(m, root, -1, n, va);
    assert NodeOk(m, root, -1, n);
    forall i | 0 <= i < |m[n].vas|
      ensures if i < pos then m[n].vas[i].end <= va.start else va.end <= m[n].vas[i].start
    {
      assert m[n].vas[i] in m[n].vas;
      assert m[n].vas[i] in Recs(m);
      assert Keys(m[n])[i] == m[n].vas[i].start;
    }
  }

  /** The four bits of merge_state. */
  datatype MergeState = MergeState(left: bool, right: bool, leftLeaf: bool, rightLeaf: bool)

  ghost predicate LeftAbuts(v: Nd, va: Range, pos: nat) {
    0 < pos <= |v.vas| && v.vas[pos - 1].end == va.start
  }

  ghost predicate RightAbuts(v: Nd, va: Range, pos: nat) {
    pos < |v.vas| && v.vas[pos].start == va.end
  }

  ghost predicate LeftLeafAbuts(m: Mem, n: Bpn, va: Range, pos: nat)
    requires n in m
  {
    pos == 0 && m[n].prev != null && m[n].prev in m
    && var w := m[m[n].prev].vas; |w| > 0 && w[|w| - 1].end == va.start
  }

  ghost predicate RightLeafAbuts(m: Mem, n: Bpn, va: Range, pos: nat)
    requires n in m
  {
    pos == |m[n].vas| && m[n].next != null && m[n].next in m
    && var w := m[m[n].next].vas; |w| > 0 && w[0].start == va.end
  }

  ghost function StateOf(m: Mem, n: Bpn, va: Range, pos: nat): MergeState
    requires n in m
  {
    var l, r := LeftAbuts(m[n], va, pos), RightAbuts(m[n], va, pos);
    MergeState(l, r, !(l && r) && LeftLeafAbuts(m, n, va, pos), !(l && r) && RightLeafAbuts(m, n, va, pos))
  }

  // A range that ends where `va` starts is the one before `pos`, or the last of the leaf before.
  lemma LeftNeighbour(m: Mem, root: Bpn, n: Bpn, va: Range, pos: nat, r: Range)
    requires Placed(m, root, n, va, pos) && r in Recs(m) && r.end == va.start
    ensures if pos > 0 then m[n].vas[pos - 1] == r
            else LeftLeafAbuts(m, n, va, pos) && m[m[n].prev].vas[|m[m[n].prev].vas| - 1] == r
  {
    AdjacentLeaves(m, root, -1, n);
    HomeLeaf(m, root, -1, n, r);
    if va.start == m[n].lo {
      var p := m[n].prev;
      HomeLeaf(m, root, -1, p, r);
      var i :| 0 <= i < |m[p].vas| && m[p].vas[i] == r;
      InOrder(m[p], -1, i, |m[p].vas| - 1);
    } else {
      var i :| 0 <= i < |m[n].vas| && m[n].vas[i] == r;
      assert pos > 0;
      InOrder(m[n], -1, i, pos - 1);
    }
  }

  // A range that starts where `va` ends is the one at `pos`, or the first of the leaf after.
  lemma RightNeighbour(m: Mem, root: Bpn, n: Bpn, va: Range, pos: nat, r: Range)
    requires Placed(m, root, n, va, pos) && r in Recs(m) && r.start == va.end
    ensures if pos < |m[n].vas| then m[n].vas[pos] == r
            else RightLeafAbuts(m, n, va, pos) && m[m[n].next].vas[0] == r
  {
    AdjacentLeaves(m, root, -1, n);
    HomeLeaf(m, root, -1, n, r);
    if va.end == m[n].hi {
      var q := m[n].next;
      HomeLeaf(m, root, -1, q, r);
      var i :| 0 <= i < |m[q].vas| && m[q].vas[i] == r;
      InOrder(m[q], -1, 0, i);
    } else {
      var i :| 0 <= i < |m[n].vas| && m[n].vas[i] == r;
      assert pos < |m[n].vas|;
      InOrder(m[n], -1, pos, i);
    }
  }

  lemma LeftMeaning(m: Mem, root: Bpn, n: Bpn, va: Range, pos: nat)
    requires Placed(m, root, n, va, pos)
    ensures LeftAbuts(m[n], va, pos) || LeftLeafAbuts(m, n, va, pos) <==> Ending(Recs(m), va.start) != {}
  {
    if r :| r in Recs(m) && r.end == va.start { LeftNeighbour(m, root, n, va, pos, r); }
    if LeftAbuts(m[n], va, pos) {
      InRecs(m, n, pos - 1);
      assert m[n].vas[pos - 1] in Ending(Recs(m), va.start);
    }
    if LeftLeafAbuts(m, n, va, pos) {
      var w := m[m[n].prev].vas;
      InRecs(m, m[n].prev, |w| - 1);
      assert w[|w| - 1] in Ending(Recs(m), va.start);
    }
  }

  lemma RightMeaning(m: Mem, root: Bpn, n: Bpn, va: Range, pos: nat)
    requires Placed(m, root, n, va, pos)
    ensures RightAbuts(m[n], va, pos) || RightLeafAbuts(m, n, va, pos) <==> Starting(Recs(m), va.end) != {}
  {
    if r :| r in Recs(m) && r.start == va.end { RightNeighbour(m, root, n, va, pos, r); }
    if RightAbuts(m[n], va, pos) {
      InRecs(m, n, pos);
      assert m[n].vas[pos] in Starting(Recs(m), va.end);
    }
    if RightLeafAbuts(m, n, va, pos) {
      var w := m[m[n].next].vas;
      InRecs(m, m[n].next, 0);
      assert w[0] in Starting(Recs(m), va.end);
    }
  }

  // The merge state misses no neighbour and invents none.
  lemma StateMeaning(m: Mem, root: Bpn, n: Bpn, va: Range, pos: nat)
    requires Placed(m, root, n, va, pos)
    ensures var s := StateOf(m, n, va, pos);
      && (s.left || s.leftLeaf <==> Ending(Recs(m), va.start) != {})
      && (s.right || s.rightLeaf <==> Starting(Recs(m), va.end) != {})
      && !(s.left && s.leftLeaf) && !(s.right && s.rightLeaf) && !(s.leftLeaf && s.rightLeaf)
  {
    AdjacentLeaves(m, root, -1, n);
    LeftMeaning(m, root, n, va, pos);
    RightMeaning(m, root, n, va, pos);
  }
}
