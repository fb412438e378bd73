/** Joining a freed area with the free ranges next to it inside one leaf, and inserting it when there
    are none: the cases of do_merge_va that touch no separator, and bpn_insert_to_leaf. */
module LeafMerge {
  import opened Words
  import opened Node
  import opened Shape
  import opened Avail
  import opened Cutting
  import opened Store
  import opened Tree
  import opened NodeSearch
  import opened Keeps
  import opened Rebalance
  import opened LeafChange
  import opened Space
  import opened Neighbours

  lemma UpdElements<T>(s: seq<T>, i: nat, x: T)
    requires i < |s| && forall j :: 0 <= j < |s| && j != i ==> s[j] != s[i]
    ensures var u := s[i := x]; (set y | y in u) == (set y | y in s) - {s[i]} + {x}
  {
    var u := s[i := x];
    forall y | y in s && y != s[i]
      ensures y in u
    {
      var j :| 0 <= j < |s| && s[j] == y;
      assert u[j] == y;
    }
    assert u[i] == x;
  }

  lemma InsElements<T>(s: seq<T>, i: nat, x: T)
    requires i <= |s|
    ensures (set y | y in Ins(s, i, x)) == (set y | y in s) + {x}
  {
    assert s == s[..i] + s[i..];
  }

  // Record `i` of leaf `n` is replaced by `x`, which stays between its neighbours.
  ghost predicate Between(m: Mem, n: Bpn, i: nat, x: Range, dying: int) {
    && n in m && m[n].leaf && i < |m[n].vas|
    && m[n].lo <= x.start < x.end <= m[n].hi && (i > 0 ==> m[n].vas[i - 1].end <= x.start)
    && (forall j :: i < j < |m[n].vas| ==>
          x.start < m[n].vas[j].start && (m[n].vas[j].start != dying ==> x.end <= m[n].vas[j].start))
  }

  lemma UpdRecordsOk(m: Mem, root: Bpn, n: Bpn, i: nat, x: Range, dying: int)
    requires Struct(m, root, -1) && Between(m, n, i, x, dying)
    ensures RecordsOk(m[n].vas[i := x], m[n].lo, m[n].hi, dying)
  {
    assert NodeOk(m, root, -1, n);
    var s, u := m[n].vas, m[n].vas[i := x];
    forall j, k | 0 <= j < k < |u|
      ensures u[j].start < u[k].start && (u[k].start != dying ==> u[j].end <= u[k].start)
    {
      InOrder(m[n], -1, j, k);
      if k == i {
        InOrder(m[n], -1, j, i - 1);
      }
    }
  }

  lemma AdjustFits(m: Mem, root: Bpn, n: Bpn, i: nat, x: Range, dying: int)
    requires Sound(m, root, -1) && Between(m, n, i, x, dying)
    ensures Fits(m, root, -1, n, m[n].vas[i := x], dying)
    ensures Swapped(m, n, m[n].vas[i := x]) == Recs(m) - {m[n].vas[i]} + {x}
  {
    assert NodeOk(m, root, -1, n);
    assert Entries(m[n]) <= MAX_ENTRIES;
    UpdRecordsOk(m, root, n, i, x, dying);
    UpdElements(m[n].vas, i, x);
    assert forall y :: y in m[n].vas ==> y in Recs(m);
  }

  // The freed area has become free, joined with its neighbours.
  ghost predicate Freed(m: Mem, m': Mem, root: Bpn, va: Range) {
    && Sound(m', root, -1) && Recs(m') == Coalesce(Recs(m), va)
    && Los(m') <= Los(m) + Starts(Recs(m)) + Starts(Recs(m'))
  }

  // get_va_merge_state
  method GetVaMergeState(t: BptRoot, n: Bpn, va: Range, pos: nat) returns (ms: MergeState)
    requires Linked(t) && Placed(t.m, t.node, n, va, pos)
    ensures ms == StateOf(t.m, n, va, pos)
  {
    AdjacentLeaves(t.m, t.node, -1, n);
    assert See(n);
    var left := 0 < pos && pos - 1 < |n.vas| && n.vas[pos - 1].end == va.start;
    var right := pos < |n.vas| && n.vas[pos].start == va.end;
    ms := MergeState(left, right, false, false);
    if !left || !right {
      if pos == 0 && n.prev != null {
        assert See(n.prev);
        var w := n.prev.vas;
        ms := ms.(leftLeaf := w[|w| - 1].end == va.start);
      }
      if pos == |n.vas| && n.next != null {
        assert See(n.next);
        var w := n.next.vas;
        ms := ms.(rightLeaf := va.end == w[0].start);
      }
    }
  }

  lemma BothAbut(m: Mem, root: Bpn, n: Bpn, va: Range, pos: nat)
    requires Placed(m, root, n, va, pos) && LeftAbuts(m[n], va, pos) && RightAbuts(m[n], va, pos)
    ensures var l, r := m[n].vas[pos - 1], m[n].vas[pos];
      && l in Recs(m) && r in Recs(m) && l.start < l.end == va.start && va.end == r.start < r.end
      && Between(m, n, pos - 1, Range(l.start, r.end), r.start)
  {
    assert NodeOk(m, root, -1, n);
    InRecs(m, n, pos - 1);
    InRecs(m, n, pos);
  }

  lemma BothFits(m: Mem, root: Bpn, n: Bpn, va: Range, pos: nat)
    requires Placed(m, root, n, va, pos) && LeftAbuts(m[n], va, pos) && RightAbuts(m[n], va, pos)
    ensures var l, r := m[n].vas[pos - 1], m[n].vas[pos];
      var j := Range(l.start, r.end);
      && Fits(m, root, -1, n, m[n].vas[pos - 1 := j], r.start)
      && Swapped(m, n, m[n].vas[pos - 1 := j]) == Recs(m) - {l} + {j}
      && r in Recs(m) && r != l && Recs(m) - {l} + {j} - {r} == Coalesce(Recs(m), va)
  {
    var l, r := m[n].vas[pos - 1], m[n].vas[pos];
    BothAbut(m, root, n, va, pos);
    CoalesceIs(Recs(m), va, Some(l), Some(r));
    AdjustFits(m, root, n, pos - 1, Range(l.start, r.end), r.start);
  }

  // Both neighbours are in the leaf: the left one grows over the area and the right one, which is
  // left to be deleted.
  method MergeBoth(t: BptRoot, n: Bpn, ghost va: Range, pos: nat, ghost path: seq<Bpn>) returns (out: Range)
    requires Linked(t) && Placed(t.m, t.node, n, va, pos) && PathOk(t.m, t.node, path) && path[|path| - 1] == n
    requires LeftAbuts(t.m[n], va, pos) && RightAbuts(t.m[n], va, pos)
    modifies t`m, t.m.Keys
    ensures Linked(t) && Sound(t.m, t.node, out.start) && Los(t.m) == Los(old(t.m)) && t.m.Keys <= old(t.m.Keys)
    ensures out in Recs(t.m) && out in Recs(old(t.m)) && Recs(t.m) - {out} == Coalesce(Recs(old(t.m)), va)
  {
    BothFits(t.m, t.node, n, va, pos);
    assert See(n);
    var left, right := n.vas[pos - 1], n.vas[pos];
    out := right;
    StoreAndFixup(t, n, n.vas[pos - 1 := Range(left.start, right.end)], -1, right.start, path);
  }

  lemma LeftFits(m: Mem, root: Bpn, n: Bpn, va: Range, pos: nat)
    requires Placed(m, root, n, va, pos) && LeftAbuts(m[n], va, pos) && Starting(Recs(m), va.end) == {}
    ensures var l := m[n].vas[pos - 1];
      var j := Range(l.start, va.end);
      && Fits(m, root, -1, n, m[n].vas[pos - 1 := j], -1)
      && Swapped(m, n, m[n].vas[pos - 1 := j]) == Coalesce(Recs(m), va)
  {
    var l := m[n].vas[pos - 1];
    assert NodeOk(m, root, -1, n);
    InRecs(m, n, pos - 1);
    CoalesceIs(Recs(m), va, Some(l), None);
    AdjustFits(m, root, n, pos - 1, Range(l.start, va.end), -1);
  }

  // left->va_end = va->va_end
  method ExtendLeft(t: BptRoot, n: Bpn, va: Range, pos: nat, ghost path: seq<Bpn>)
    requires Linked(t) && Placed(t.m, t.node, n, va, pos) && PathOk(t.m, t.node, path) && path[|path| - 1] == n
    requires LeftAbuts(t.m[n], va, pos) && Starting(Recs(t.m), va.end) == {}
    modifies t`m, t.m.Keys
    ensures Linked(t) && Freed(old(t.m), t.m, t.node, va) && t.m.Keys <= old(t.m.Keys)
  {
    LeftFits(t.m, t.node, n, va, pos);
    assert See(n);
    var left := n.vas[pos - 1];
    StoreAndFixup(t, n, n.vas[pos - 1 := Range(left.start, va.end)], -1, -1, path);
  }

  lemma RightFits(m: Mem, root: Bpn, n: Bpn, va: Range, pos: nat)
    requires Placed(m, root, n, va, pos) && RightAbuts(m[n], va, pos) && Ending(Recs(m), va.start) == {}
    ensures var r := m[n].vas[pos];
      var j := Range(va.start, r.end);
      && Fits(m, root, -1, n, m[n].vas[pos := j], -1)
      && Swapped(m, n, m[n].vas[pos := j]) == Coalesce(Recs(m), va)
  {
    var r := m[n].vas[pos];
    assert NodeOk(m, root, -1, n);
    InRecs(m, n, pos);
    CoalesceIs(Recs(m), va, None, Some(r));
    AdjustFits(m, root, n, pos, Range(va.start, r.end), -1);
  }

  // right->va_start = va->va_start
  method ExtendRight(t: BptRoot, n: Bpn, va: Range, pos: nat, ghost path: seq<Bpn>)
    requires Linked(t) && Placed(t.m, t.node, n, va, pos) && PathOk(t.m, t.node, path) && path[|path| - 1] == n
    requires RightAbuts(t.m[n], va, pos) && Ending(Recs(t.m), va.start) == {}
    modifies t`m, t.m.Keys
    ensures Linked(t) && Freed(old(t.m), t.m, t.node, va) && t.m.Keys <= old(t.m.Keys)
  {
    RightFits(t.m, t.node, n, va, pos);
    assert See(n);
    var right := n.vas[pos];
    StoreAndFixup(t, n, n.vas[pos := Range(va.start, right.end)], -1, -1, path);
  }

  lemma InsRecordsOk(v: Nd, va: Range, pos: nat)
    requires LeafOk(v, -1) && pos <= |v.vas| && 0 <= v.lo <= va.start < va.end <= v.hi
    requires forall i :: 0 <= i < pos ==> v.vas[i].end <= va.start
    requires forall i :: pos <= i < |v.vas| ==> va.end <= v.vas[i].start
    ensures RecordsOk(Ins(v.vas, pos, va), v.lo, v.hi, -1)
  {
    var u := Ins(v.vas, pos, va);
    forall j, k | 0 <= j < k < |u|
      ensures u[j].start < u[k].start && u[j].end <= u[k].start
    {
      InsOrder(v, va, pos, j, k);
    }
  }

  lemma InsFits(m: Mem, root: Bpn, n: Bpn, va: Range, pos: nat)
    requires Placed(m, root, n, va, pos) && Entries(m[n]) < MAX_ENTRIES
    requires Ending(Recs(m), va.start) == {} && Starting(Recs(m), va.end) == {}
    ensures Fits(m, root, -1, n, Ins(m[n].vas, pos, va), -1)
    ensures Swapped(m, n, Ins(m[n].vas, pos, va)) == Coalesce(Recs(m), va)
  {
    assert NodeOk(m, root, -1, n);
    assert Entries(m[n]) < MAX_ENTRIES;
    InsRecordsOk(m[n], va, pos);
    CoalesceIs(Recs(m), va, None, None);
    InsElements(m[n].vas, pos, va);
    assert forall y :: y in m[n].vas ==> y in Recs(m);
  }

  lemma InsOrder(v: Nd, va: Range, pos: nat, j: nat, k: nat)
    requires LeafOk(v, -1) && pos <= |v.vas| && 0 <= v.lo && va.start < va.end
    requires forall i :: 0 <= i < pos ==> v.vas[i].end <= va.start
    requires forall i :: pos <= i < |v.vas| ==> va.end <= v.vas[i].start
    requires j < k <= |v.vas|
    ensures var u := Ins(v.vas, pos, va); u[j].start < u[k].start && u[j].end <= u[k].start
  {
    var u := Ins(v.vas, pos, va);
    if j != pos && k != pos {
      var j', k' := if j < pos then j else j - 1, if k < pos then k else k - 1;
      assert u[j] == v.vas[j'] && u[k] == v.vas[k'];
      InOrder(v, -1, j', k');
    }
  }
}
