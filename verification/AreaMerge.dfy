/** do_merge_va, try_merge_va and bpt_po_insert: a freed area becomes free again. */
module AreaMerge {
  import opened Words
  import opened Node
  import opened Shape
  import opened Avail
  import opened Cutting
  import opened Store
  import opened Tree
  import opened NodeSearch
  import opened Keeps
  import opened Rebalance
  import opened LeafChange
  import opened Descend
  import opened Delete
  import opened Insert
  import opened Space
  import opened Neighbours
  import opened LeafMerge
  import opened LeafCross

  // The area has absorbed the neighbour `out`, which is left to be deleted before another try.
  ghost predicate Absorbed(m: Mem, va: Range, out: Option<Range>, x: Range) {
    && out.Some? && out.value in Recs(m) && Confined(Los(m), x)
    && (|| (out.value.end == va.start && x == Range(out.value.start, va.end))
        || (out.value.start == va.end && x == Range(va.start, out.value.end)))
  }

  // The joined range is in place but still overlaps `out`, which is left to be deleted.
  ghost predicate Overlapped(m: Mem, m': Mem, root: Bpn, va: Range, out: Range) {
    && Sound(m', root, out.start) && Los(m') == Los(m)
    && out in Recs(m') && out in Recs(m) && Recs(m') - {out} == Coalesce(Recs(m), va)
  }

  // Absorbing a neighbour in the same leaf keeps the area within two boundaries.
  lemma AbsorbedConfined(m: Mem, root: Bpn, n: Bpn, va: Range, pos: nat, i: nat, x: Range)
    requires Placed(m, root, n, va, pos) && i < |m[n].vas|
    requires || (m[n].vas[i].end == va.start && x == Range(m[n].vas[i].start, va.end))
             || (m[n].vas[i].start == va.end && x == Range(va.start, m[n].vas[i].end))
    ensures m[n].vas[i] in Recs(m) && Confined(Los(m), x)
  {
    assert NodeOk(m, root, -1, n);
    InRecs(m, n, i);
    RecordsConfined(m, root, -1, m[n].vas[i]);
    forall b | b in Los(m)
      ensures !(x.start < b < x.end)
    {
      var q: Bpn :| q in m && m[q].lo == b;
      NoCutInside(m, root, -1, n, q);
    }
  }

  method DoMergeVa(t: BptRoot, n: Bpn, va: Range, pos: nat, ms: MergeState, ghost path: seq<Bpn>)
      returns (again: bool, out: Option<Range>, x: Range)
    requires Linked(t) && Placed(t.m, t.node, n, va, pos) && PathOk(t.m, t.node, path) && path[|path| - 1] == n
    requires ms == StateOf(t.m, n, va, pos) && ms != MergeState(false, false, false, false)
    modifies t`m, t.m.Keys
    ensures Linked(t) && t.m.Keys <= old(t.m.Keys)
    ensures again || out.Some? ==> Ending(Recs(old(t.m)), va.start) != {} && Starting(Recs(old(t.m)), va.end) != {}
    ensures again ==> t.m == old(t.m) && Absorbed(t.m, va, out, x)
    ensures !again ==> x == va && if out.Some? then Overlapped(old(t.m), t.m, t.node, va, out.value)
                                  else Freed(old(t.m), t.m, t.node, va)
  {
    StateMeaning(t.m, t.node, n, va, pos);
    assert See(n);
    again, out, x := false, None, va;
    if ms.left && ms.right {
      var right := MergeBoth(t, n, va, pos, path);
      out := Some(right);
    } else if ms.left {
      if ms.rightLeaf {
        AbsorbedConfined(t.m, t.node, n, va, pos, pos - 1, Range(n.vas[pos - 1].start, va.end));
        again, out, x := true, Some(n.vas[pos - 1]), Range(n.vas[pos - 1].start, va.end);
      } else {
        ExtendLeft(t, n, va, pos, path);
      }
    } else if ms.right {
      if ms.leftLeaf {
        AbsorbedConfined(t.m, t.node, n, va, pos, pos, Range(va.start, n.vas[pos].end));
        again, out, x := true, Some(n.vas[pos]), Range(va.start, n.vas[pos].end);
      } else {
        ExtendRight(t, n, va, pos, path);
      }
    } else if ms.leftLeaf {
      MergeLeftLeaf(t, n, va, pos, path);
    } else {
      MergeRightLeaf(t, n, va, pos, path);
    }
  }

  // The search for `key` has reached `n` without changing more than position marks.
  ghost predicate Searching(m0: Mem, m: Mem, root: Bpn, path: seq<Bpn>, n: Bpn, key: int) {
    && Sound(m, root, -1) && SameRecords(m0, m, -1) && n in m && Holds(m[n], key)
    && PathOk(m, root, path) && path[|path| - 1] == n
  }

  lemma SearchStep(m0: Mem, m: Mem, root: Bpn, path: seq<Bpn>, n: Bpn, key: int, cc: PosCC, pos: nat)
    requires Searching(m0, m, root, path, n, key) && !m[n].leaf && Found(Keys(m[n]), key, cc, pos)
    ensures var j := NextKid(cc, pos);
      && j < |m[n].subl|
      && var c, m' := m[n].subl[j], m[n := m[n].(ppos := j)];
      && Searching(m0, m', root, path + [c], c, key) && m'[c].h < m[n].h
  {
    SearchReady(m, root, -1, n);
    NextKidHolds(m[n], key, cc, pos);
    var j := NextKid(cc, pos);
    EnterChild(m, root, -1, path, n, j, key);
    SameRecordsTrans(m0, m, m[n := m[n].(ppos := j)], -1);
  }

  // The search that repeats after a deletion; it sets the position marks.
  method DescendMarking(t: BptRoot, key: int) returns (n: Bpn, ghost path: seq<Bpn>)
    requires Linked(t) && Sound(t.m, t.node, -1) && 0 <= key < W
    modifies t`m, t.m.Keys
    ensures Linked(t) && t.m.Keys <= old(t.m.Keys)
    ensures Searching(old(t.m), t.m, t.node, path, n, key) && t.m[n].leaf
  {
    n := t.node;
    path := [n];
    assert NodeOk(t.m, t.node, -1, n) && See(n);
    while !n.leaf
      invariant Linked(t) && t.m.Keys <= old(t.m.Keys) && Searching(old(t.m), t.m, t.node, path, n, key) && See(n)
      decreases t.m[n].h
    {
      SearchReady(t.m, t.node, -1, n);
      var cc, pos := BinSearch(n, key, t.m[n]);
      SearchStep(old(t.m), t.m, t.node, path, n, key, cc, pos);
      var j := NextKid(cc, pos);
      var c := n.subl[j];
      StorePpos(t, n, j);
      n := c;
      path := path + [c];
    }
  }

  // The boundaries a deletion adds do not fall into an area that is clear of the other records.
  lemma StillConfined(f: set<Range>, los: set<int>, los': set<int>, out: Range, x: Range)
    requires Gapped(f) && Confined(los, x) && Clear(f - {out}, x) && out in f
    requires los' <= los + (Starts(f) - {out.start})
    ensures Confined(los', x)
  {
    forall b | b in los'
      ensures !(x.start < b < x.end)
    {
      if b !in los {
        var y :| y in f && y.start == b;
        assert y in f - {out};
      }
    }
  }

  // What the second try finds after the absorbed neighbour `out` has been deleted: free space on one
  // side only, so that it neither repeats nor deletes again.
  lemma SecondTry(f: set<Range>, va: Range, out: Range, x: Range)
    requires Gapped(f) && Clear(f, va) && 0 <= va.start < va.end < W && out in f
    requires || (out.end == va.start && x == Range(out.start, va.end))
             || (out.start == va.end && x == Range(va.start, out.end))
    requires Ending(f, va.start) != {} && Starting(f, va.end) != {}
    ensures var g := f - {out};
      && Gapped(g) && Clear(g, x) && 0 <= x.start < x.end < W && Coalesce(g, x) == Coalesce(f, va)
      && (Ending(g, x.start) != {} <==> Starting(g, x.end) == {})
  {
    var g := f - {out};
    if out.end == va.start {
      AbsorbLeft(f, va, out);
      var r :| r in Starting(f, va.end);
      assert r in Starting(g, x.end);
    } else {
      AbsorbRight(f, va, out);
      var l :| l in Ending(f, va.start);
      assert l in Ending(g, x.start);
    }
  }

  lemma KeyUnique(m: Mem, root: Bpn, d: int, x: Range, y: Range)
    requires Struct(m, root, d) && x in Recs(m) && y in Recs(m) && x.start == y.start
    ensures x == y && 0 <= x.start < W
  {
    var n: Bpn :| n in m && y in m[n].vas;
    assert NodeOk(m, root, d, n);
    HomeLeaf(m, root, d, n, x);
  }

  // bpt_po_delete(root, out->va_start), which finds `out`.
  method DeleteRecord(t: BptRoot, out: Range, ghost d: int)
    requires Linked(t) && Sound(t.m, t.node, d) && out in Recs(t.m) && (d == -1 || d == out.start)
    modifies t`m, t`last, t`node, t.m.Keys
    ensures Linked(t) && Sound(t.m, t.node, -1) && t.m.Keys <= old(t.m.Keys)
    ensures Recs(t.m) == Recs(old(t.m)) - {out} && Los(t.m) <= Los(old(t.m)) + (Starts(Recs(old(t.m))) - {out.start})
  {
    ghost var m, root := t.m, t.node;
    KeyUnique(m, root, d, out, out);
    var x := BptPoDelete(t, out.start, d);
    assert x.Some?;
    KeyUnique(m, root, d, out, x.value);
  }

  lemma FreedVia(m0: Mem, m: Mem, m': Mem, root: Bpn, va: Range)
    requires SameRecords(m0, m, -1) && Freed(m, m', root, va)
    ensures Freed(m0, m', root, va)
  {}

  // The second try: `va` has absorbed one neighbour, so that free space abuts on one side only.
  method MergeAgain(t: BptRoot, va: Range)
    requires Linked(t) && Sound(t.m, t.node, -1) && Gapped(Recs(t.m)) && Clear(Recs(t.m), va) && Confined(Los(t.m), va)
    requires 0 <= va.start < va.end < W && (Ending(Recs(t.m), va.start) != {} <==> Starting(Recs(t.m), va.end) == {})
    modifies t`m, t.m.Keys
    ensures Linked(t) && t.m.Keys <= old(t.m.Keys) && Freed(old(t.m), t.m, t.node, va)
  {
    ghost var m0 := t.m;
    var n, pos;
    var cc: PosCC;
    ghost var path;
    n, path := DescendMarking(t, va.start);
    assert Confined(Los(t.m), va);
    SearchReady(t.m, t.node, -1, n);
    assert See(n);
    cc, pos := BinSearch(n, va.start, t.m[n]);
    PlacedBySearch(t.m, t.node, n, va, cc, pos);
    StateMeaning(t.m, t.node, n, va, pos);
    ghost var m := t.m;
    var ms := GetVaMergeState(t, n, va, pos);
    var again, out, x := DoMergeVa(t, n, va, pos, ms, path);
    assert !again && out.None?;
    FreedVia(m0, m, t.m, t.node, va);
  }

  lemma OverlappedFreed(m: Mem, m1: Mem, m2: Mem, root1: Bpn, root2: Bpn, va: Range, out: Range)
    requires Overlapped(m, m1, root1, va, out) && Sound(m2, root2, -1)
    requires Recs(m2) == Recs(m1) - {out} && Los(m2) <= Los(m1) + (Starts(Recs(m1)) - {out.start})
    ensures Freed(m, m2, root2, va)
  {
    forall b | b in Los(m2)
      ensures b in Los(m) + Starts(Recs(m)) + Starts(Recs(m2))
    {
      if b !in Los(m) {
        var y :| y in Recs(m1) && y.start == b;
        assert y in Recs(m2);
      }
    }
  }

  lemma AbsorbedFreed(m: Mem, m1: Mem, m2: Mem, root: Bpn, va: Range, out: Range, x: Range)
    requires Recs(m1) == Recs(m) - {out} && Los(m1) <= Los(m) + (Starts(Recs(m)) - {out.start})
    requires Coalesce(Recs(m1), x) == Coalesce(Recs(m), va) && Freed(m1, m2, root, x)
    ensures Freed(m, m2, root, va)
  {}

  // The deletion and the second try that an absorbed neighbour calls for.
  method DeleteAndMerge(t: BptRoot, ghost va: Range, out: Range, x: Range)
    requires Linked(t) && Sound(t.m, t.node, -1) && Gapped(Recs(t.m)) && Clear(Recs(t.m), va) && 0 <= va.start < va.end < W
    requires Absorbed(t.m, va, Some(out), x) && Ending(Recs(t.m), va.start) != {} && Starting(Recs(t.m), va.end) != {}
    modifies t`m, t`last, t`node, t.m.Keys
    ensures Linked(t) && t.m.Keys <= old(t.m.Keys) && Freed(old(t.m), t.m, t.node, va)
  {
    ghost var m := t.m;
    SecondTry(Recs(m), va, out, x);
    DeleteRecord(t, out, -1);
    ghost var m1 := t.m;
    StillConfined(Recs(m), Los(m), Los(m1), out, x);
    MergeAgain(t, x);
    AbsorbedFreed(m, m1, t.m, t.node, va, out, x);
  }

  method TryMergeVa(t: BptRoot, n: Bpn, va: Range, pos: nat, ghost cc: PosCC, ghost path: seq<Bpn>) returns (merged: bool)
    requires Linked(t) && Sound(t.m, t.node, -1) && PathOk(t.m, t.node, path) && path[|path| - 1] == n
    requires t.m[n].leaf && Found(Keys(t.m[n]), va.start, cc, pos) && (cc != EQ ==> Placed(t.m, t.node, n, va, pos))
    modifies t`m, t`last, t`node, t.m.Keys
    ensures Linked(t) && t.m.Keys <= old(t.m.Keys)
    ensures merged ==> cc != EQ && Freed(old(t.m), t.m, t.node, va)
    ensures !merged ==> t.m == old(t.m) && t.node == old(t.node)
    ensures !merged && cc != EQ ==> Ending(Recs(t.m), va.start) == {} && Starting(Recs(t.m), va.end) == {}
  {
    assert See(n);
    if pos < |n.vas| && n.vas[pos].start == va.start {
      assert Keys(t.m[n])[pos] == va.start;
      return false;
    }
    assert cc != EQ;
    StateMeaning(t.m, t.node, n, va, pos);
    var ms := GetVaMergeState(t, n, va, pos);
    if ms == MergeState(false, false, false, false) {
      return false;
    }
    ghost var m := t.m;
    var again, out, x := DoMergeVa(t, n, va, pos, ms, path);
    if again {
      DeleteAndMerge(t, va, out.value, x);
    } else if out.Some? {
      ghost var m1, root1 := t.m, t.node;
      DeleteRecord(t, out.value, out.value.start);
      OverlappedFreed(m, m1, t.m, root1, t.node, va, out.value);
    }
    merged := true;
  }

  // bpn_insert_to_leaf followed by fixup_metadata, when nothing was merged.
  method BpnInsertToLeaf(t: BptRoot, n: Bpn, va: Range, pos: nat, ghost cc: PosCC, ghost path: seq<Bpn>) returns (rv: int)
    requires Linked(t) && Sound(t.m, t.node, -1) && PathOk(t.m, t.node, path) && path[|path| - 1] == n
    requires t.m[n].leaf && Found(Keys(t.m[n]), va.start, cc, pos) && Entries(t.m[n]) < MAX_ENTRIES && va.start < va.end
    requires cc != EQ ==> Placed(t.m, t.node, n, va, pos) && Ending(Recs(t.m), va.start) == {} && Starting(Recs(t.m), va.end) == {}
    modifies t`m, t.m.Keys
    ensures Linked(t) && t.m.Keys <= old(t.m.Keys) && rv == if cc == EQ then -1 else 0
    ensures if cc == EQ then t.m == old(t.m) else Freed(old(t.m), t.m, t.node, va)
  {
    assert See(n);
    rv := -1;
    if pos < |n.vas| {
      assert Keys(t.m[n])[pos] == n.vas[pos].start;
      if va.end > n.vas[pos].start {
        return;
      }
    }
    if pos > 0 && va.start < n.vas[pos - 1].end {
      return;
    }
    InsFits(t.m, t.node, n, va, pos);
    StoreAndFixup(t, n, Ins(n.vas, pos, va), -1, -1, path);
    rv := 0;
  }

  // What the caller of bpt_po_insert must provide: the area overlaps no free range and reaches over no
  // boundary, or its start is taken and the call will fail.
  ghost predicate Returnable(m: Mem, va: Range) {
    && 0 <= va.start < va.end < W && Gapped(Recs(m))
    && (HasKey(Recs(m), va.start) || (Clear(Recs(m), va) && Confined(Los(m), va)))
  }

  lemma StillReturnable(m0: Mem, m: Mem, va: Range)
    requires SameRecords(m0, m, -1) && Returnable(m0, va)
    ensures Returnable(m, va)
  {
    if !HasKey(Recs(m0), va.start) {
      forall b | b in Los(m)
        ensures !(va.start < b < va.end)
      {
        if b !in Los(m0) { var y :| y in Recs(m0) && y.start == b; }
      }
    }
  }

  // The leaf the insertion arrives at has a place for the area, or the key is taken.
  lemma ArrivedPlaced(m0: Mem, m: Mem, root: Bpn, path: seq<Bpn>, n: Bpn, va: Range, cc: PosCC, pos: nat)
    requires Arrived(m0, m, root, path, n, va.start) && m[n].leaf && Found(Keys(m[n]), va.start, cc, pos)
    requires Returnable(m0, va)
    ensures cc == EQ <==> HasKey(Recs(m0), va.start)
    ensures cc != EQ ==> Placed(m, root, n, va, pos)
  {
    FoundInLeaf(m, root, -1, n, va.start, cc, pos);
    StillReturnable(m0, m, va);
    if cc != EQ {
      PlacedBySearch(m, root, n, va, cc, pos);
    }
  }

  // What bpt_po_insert has done to the free ranges.
  ghost predicate Inserted(m: Mem, m': Mem, root: Bpn, va: Range, rv: int) {
    && Sound(m', root, -1)
    && rv == (if HasKey(Recs(m), va.start) then -1 else 0)
    && if rv == 0 then Freed(m, m', root, va) else SameRecords(m, m', -1)
  }

  lemma InsertedVia(m0: Mem, m: Mem, m': Mem, root: Bpn, va: Range, rv: int)
    requires SameRecords(m0, m, -1) && Inserted(m, m', root, va, rv)
    ensures Inserted(m0, m', root, va, rv)
  {}

  method BptInsertNonFull(t: BptRoot, va: Range) returns (rv: int)
    requires Linked(t) && Sound(t.m, t.node, -1) && Entries(t.m[t.node]) < MAX_ENTRIES && Returnable(t.m, va)
    modifies t`m, t`last, t`node, t.m.Keys
    ensures Linked(t) && fresh(t.m.Keys - old(t.m.Keys)) && Inserted(old(t.m), t.m, t.node, va, rv)
  {
    ghost var m0 := t.m;
    var n, pos;
    ghost var cc, path;
    n, pos, cc, path := InsertDescend(t, va.start);
    ghost var m, root := t.m, t.node;
    ArrivedPlaced(m0, m, root, path, n, va, cc, pos);
    var merged := TryMergeVa(t, n, va, pos, cc, path);
    rv := 0;
    if !merged {
      rv := BpnInsertToLeaf(t, n, va, pos, cc, path);
    }
    if rv == 0 { FreedVia(m0, m, t.m, t.node, va); }
  }

  // A full root is split before the descent.
  method MakeRoom(t: BptRoot)
    requires Linked(t) && Sound(t.m, t.node, -1)
    modifies t`m, t`last, t`node, t.m.Keys
    ensures Linked(t) && Sound(t.m, t.node, -1) && fresh(t.m.Keys - old(t.m.Keys)) && SameRecords(old(t.m), t.m, -1)
    ensures Entries(t.m[t.node]) < MAX_ENTRIES
  {
    assert See(t.node);
    assert Entries(t.m[t.node]) <= MAX_ENTRIES;
    if (if t.node.leaf then |t.node.vas| else |t.node.slot|) == MAX_ENTRIES {
      var n := BpnSplitRoot(t);
      t.node := n;
    }
  }

  // bpt_po_insert: returns `va` to the free ranges, unless a free range starts there already.
  method BptPoInsert(t: BptRoot, va: Range) returns (rv: int)
    requires Linked(t) && Sound(t.m, t.node, -1) && Returnable(t.m, va)
    modifies t`m, t`last, t`node, t.m.Keys
    ensures Linked(t) && fresh(t.m.Keys - old(t.m.Keys)) && Inserted(old(t.m), t.m, t.node, va, rv)
  {
    ghost var m0 := t.m;
    MakeRoom(t);
    ghost var m := t.m;
    StillReturnable(m0, m, va);
    rv := BptInsertNonFull(t, va);
    InsertedVia(m0, m, t.m, t.node, va, rv);
  }
}
