/** The allocator as its callers see it: vm_init_free_space, alloc_vmap_area and free_vmap_area, with the
    areas that are outstanding. */
module Allocator {
  import opened Words
  import opened Node
  import opened Shape
  import opened Avail
  import opened Store
  import opened Tree
  import opened Keeps
  import opened Rebalance
  import opened Descend
  import opened Space
  import opened Neighbours
  import opened LeafMerge
  import opened AreaMerge
  import opened Fit
  import opened Search
  import opened Lookup
  import opened Alloc

  /** The state between two calls: the free ranges in the leaves and the outstanding areas `busy` share
      out `space`, and no separator lies strictly inside any of them. */
  ghost predicate Consistent(t: BptRoot, busy: set<Range>, space: Range)
    reads t, t.m.Keys
  {
    && Linked(t) && Sound(t.m, t.node, -1) && 0 <= space.start < space.end < W
    && Conserved(Recs(t.m), busy, space) && AllConfined(Los(t.m), Recs(t.m) + busy)
  }

  ghost predicate AllConfined(los: set<int>, areas: set<Range>) {
    forall b :: b in areas ==> Confined(los, b)
  }

  lemma FreeConfined(m: Mem, root: Bpn)
    requires Sound(m, root, -1)
    ensures AllConfined(Los(m), Recs(m))
  {
    forall b | b in Recs(m)
      ensures Confined(Los(m), b)
    {
      RecordsConfined(m, root, -1, b);
    }
  }

  // The start of a range does not lie strictly inside an area it is clear of.
  lemma ClearConfined(f: set<Range>, b: Range)
    requires Clear(f, b) && b.start < b.end && forall x :: x in f ==> x.start < x.end
    ensures Confined(Starts(f), b)
  {}

  lemma BusyConfined(m: Mem, m': Mem, b: Range)
    requires Gapped(Recs(m)) && Gapped(Recs(m')) && Clear(Recs(m), b) && Clear(Recs(m'), b) && b.start < b.end
    requires Confined(Los(m), b) && Los(m') <= Los(m) + Starts(Recs(m)) + Starts(Recs(m'))
    ensures Confined(Los(m'), b)
  {
    ClearConfined(Recs(m), b);
    ClearConfined(Recs(m'), b);
  }

  lemma GrantedConfined(m: Mem, m': Mem, root: Bpn, root': Bpn, r: Range, a: Range)
    requires Sound(m, root, -1) && Gapped(Recs(m)) && r in Recs(m) && Inside(a, r) && Granted(m, m', root', r, a)
    ensures Confined(Los(m'), a)
  {
    RecordsConfined(m, root, -1, r);
    ClippedGapped(Recs(m), r, a);
    ClearConfined(Recs(m'), a);
    forall b | b in Starts(Recs(m))
      ensures !(a.start < b < a.end)
    {
      var x :| x in Recs(m) && x.start == b;
      assert x == r || x.end < r.start || r.end < x.start;
    }
  }

  // The areas that stay outstanding stay confined.
  lemma OthersConfined(m: Mem, m': Mem, root': Bpn, busy: set<Range>, busy': set<Range>, space: Range)
    requires Conserved(Recs(m), busy, space) && AllConfined(Los(m), busy)
    requires Conserved(Recs(m'), busy', space) && Sound(m', root', -1)
    requires Los(m') <= Los(m) + Starts(Recs(m)) + Starts(Recs(m'))
    requires forall b :: b in busy' ==> b in busy || Confined(Los(m'), b)
    ensures AllConfined(Los(m'), Recs(m') + busy')
  {
    FreeConfined(m', root');
    forall b | b in busy'
      ensures Confined(Los(m'), b)
    {
      if b in busy { BusyConfined(m, m', b); }
    }
  }

  lemma EmptySound(m: Mem, root: Bpn)
    requires m == map[root := EmptyLeaf()]
    ensures Sound(m, root, -1) && Recs(m) == {} && Los(m) == {0}
  {
    assert NodeOk(m, root, -1, root);
    assert forall n :: n in m ==> n == root;
    assert m[root].lo in Los(m);
  }

  // vm_init_free_space
  method VmInitFreeSpace(vstart: int, vend: int) returns (t: BptRoot, rv: int)
    requires 0 <= vstart < vend < W
    ensures fresh(t) && fresh(t.m.Keys) && rv == 0
    ensures Recs(t.m) == {Range(vstart, vend)} && Consistent(t, {}, Range(vstart, vend))
  {
    t := new BptRoot();
    EmptySound(t.m, t.node);
    var va := Range(vstart, vend);
    rv := BptPoInsert(t, va);
    assert Recs(t.m) == {va};
    StartConserved(va);
    FreeConfined(t.m, t.node);
    assert Recs(t.m) + {} == Recs(t.m);
  }

  lemma GrantConsistent(m: Mem, m': Mem, root: Bpn, root': Bpn, busy: set<Range>, space: Range, r: Range, a: Range)
    requires Sound(m, root, -1) && Conserved(Recs(m), busy, space) && AllConfined(Los(m), Recs(m) + busy)
    requires r in Recs(m) && Inside(a, r) && Granted(m, m', root', r, a)
    ensures Conserved(Recs(m'), busy + {a}, space) && AllConfined(Los(m'), Recs(m') + (busy + {a}))
  {
    GrantConserves(Recs(m), busy, space, r, a);
    GrantedConfined(m, m', root, root', r, a);
    OthersConfined(m, m', root', busy, busy + {a}, space);
  }

  /** alloc_vmap_area: grants an aligned area of the requested size inside the requested window, the
      lowest there is; or nothing, and then the space is left as it is. `found` is the range the search chose, and
      decides which of the two happens. */
  method AllocVmapArea(t: BptRoot, size: int, align: int, vstart: int, vend: int, ghost busy: set<Range>, ghost space: Range)
      returns (va: Option<Range>, ghost r: Range, ghost found: Option<Range>)
    requires Consistent(t, busy, space) && Request(size, align, vstart)
    modifies t`m, t`last, t`node, t.m.Keys
    ensures fresh(t.m.Keys - old(t.m.Keys))
    ensures va.Some? ==> var a := va.value;
      && Size(a) == size && a.start % align == 0 && vstart <= a.start && a.end <= vend
      && FirstFit(Recs(old(t.m)), size, align, vstart, a.start)
      && Legal(Recs(old(t.m)), busy, Grant(r, a), Recs(t.m), busy + {a}) && Consistent(t, busy + {a}, space)
    ensures va.None? ==>
      && Recs(t.m) == Recs(old(t.m)) && Consistent(t, busy, space)
      && Refused(Recs(t.m), size, align, vstart, vend)
    ensures Outcome(old(t.m), old(t.node), t.m, t.node, size, align, vstart, vend, found, if va.Some? then va.value.start else vend)
  {
    ghost var m, root := t.m, t.node;
    var addr;
    addr, r, found := VaAlloc(t, size, align, vstart, vend);
    va := None;
    if addr == vend {
      return;
    }
    var a := Range(addr, addr + size);
    GrantConsistent(m, t.m, root, t.node, busy, space, r, a);
    va := Some(a);
  }

  lemma ReturnConsistent(m: Mem, m': Mem, root': Bpn, busy: set<Range>, space: Range, a: Range)
    requires Conserved(Recs(m), busy, space) && AllConfined(Los(m), Recs(m) + busy) && 0 <= space.start && space.end < W
    requires a in busy && Freed(m, m', root', a)
    ensures Conserved(Recs(m'), busy - {a}, space) && AllConfined(Los(m'), Recs(m') + (busy - {a}))
  {
    BusyWithin(Recs(m), busy, space, a);
    ReturnConserves(Recs(m), busy, space, a);
    OthersConfined(m, m', root', busy, busy - {a}, space);
  }

  lemma BusyReturnable(m: Mem, busy: set<Range>, space: Range, a: Range)
    requires Conserved(Recs(m), busy, space) && AllConfined(Los(m), Recs(m) + busy) && 0 <= space.start && space.end < W
    requires a in busy
    ensures Returnable(m, a) && !HasKey(Recs(m), a.start)
  {
    BusyWithin(Recs(m), busy, space, a);
  }

  /** free_vmap_area: an outstanding area becomes free again, joined with its free neighbours. */
  method FreeVmapArea(t: BptRoot, va: Option<Range>, ghost busy: set<Range>, ghost space: Range) returns (rv: int)
    requires Consistent(t, busy, space) && (va.Some? ==> va.value in busy)
    modifies t`m, t`last, t`node, t.m.Keys
    ensures fresh(t.m.Keys - old(t.m.Keys))
    ensures va.None? ==> rv == -1 && t.m == old(t.m) && t.node == old(t.node) && t.last == old(t.last)
    ensures va.Some? ==> rv == 0 && Legal(Recs(old(t.m)), busy, Return(va.value), Recs(t.m), busy - {va.value})
                         && Consistent(t, busy - {va.value}, space)
  {
    if va == None {
      return -1;
    }
    ghost var m := t.m;
    BusyReturnable(m, busy, space, va.value);
    rv := BptPoInsert(t, va.value);
    ReturnConsistent(m, t.m, t.node, busy, space, va.value);
  }
}
