/** Allocation: va_clip, va_alloc, alloc_vmap_area, and the way back, free_vmap_area. */
module Alloc {
  import opened Words
  import opened Node
  import opened Shape
  import opened Avail
  import opened Store
  import opened Tree
  import opened Keeps
  import opened Rebalance
  import opened LeafChange
  import opened Descend
  import opened Delete
  import opened Space
  import opened Neighbours
  import opened LeafMerge
  import opened AreaMerge
  import opened Fit
  import opened Search
  import opened Lookup
  import opened Decision

  datatype FitType = NothingFit | FlFit | LeFit | ReFit | NeFit

  // classify_va_fit_type
  function ClassifyVaFitType(va: Range, nva: int, size: int): FitType {
    if nva < va.start || nva + size > va.end then NothingFit
    else if va.start == nva then (if va.end == nva + size then FlFit else LeFit)
    else if va.end == nva + size then ReFit else NeFit
  }

  // `m'` comes from `m` by granting `a` out of the free range `r`.
  ghost predicate Granted(m: Mem, m': Mem, root: Bpn, r: Range, a: Range) {
    && Sound(m', root, -1) && Recs(m') == Clipped(Recs(m), r, a)
    && Los(m') <= Los(m) + Starts(Recs(m)) + Starts(Recs(m'))
  }

  // The record shrinks to `x`, one of the two ends that stay free.
  lemma ShrunkFits(m: Mem, root: Bpn, n: Bpn, k: nat, path: seq<Bpn>, va: Range, x: Range)
    requires Sound(m, root, -1) && Handle(m, root, va, n, k, path) && Inside(x, va)
    ensures Fits(m, root, -1, n, m[n].vas[k := x], -1) && Swapped(m, n, m[n].vas[k := x]) == Recs(m) - {va} + {x}
  {
    assert NodeOk(m, root, -1, n);
    if k > 0 { InOrder(m[n], -1, k - 1, k); }
    forall j | k < j < |m[n].vas|
      ensures x.start < m[n].vas[j].start && x.end <= m[n].vas[j].start
    {
      InOrder(m[n], -1, k, j);
    }
    AdjustFits(m, root, n, k, x, -1);
  }

  method Shrink(t: BptRoot, n: Bpn, k: nat, x: Range, ghost va: Range, ghost path: seq<Bpn>)
    requires Linked(t) && Sound(t.m, t.node, -1) && Handle(t.m, t.node, va, n, k, path) && Inside(x, va)
    modifies t`m, t.m.Keys
    ensures Linked(t) && t.m.Keys <= old(t.m.Keys) && Sound(t.m, t.node, -1)
    ensures Recs(t.m) == Recs(old(t.m)) - {va} + {x} && Los(t.m) == Los(old(t.m))
  {
    ShrunkFits(t.m, t.node, n, k, path, va, x);
    assert See(n);
    StoreAndFixup(t, n, n.vas[k := x], -1, -1, path);
  }

  // After the record has shrunk to the right end, the left end can be inserted.
  lemma RemainderFree(m: Mem, m1: Mem, root: Bpn, va: Range, lva: Range, rest: Range)
    requires Sound(m, root, -1) && Gapped(Recs(m)) && va in Recs(m)
    requires Recs(m1) == Recs(m) - {va} + {rest} && Los(m1) == Los(m)
    requires va.start == lva.start < lva.end < rest.start < rest.end == va.end
    ensures Returnable(m1, lva) && !HasKey(Recs(m1), lva.start) && Coalesce(Recs(m1), lva) == Recs(m) - {va} + {rest} + {lva}
  {
    RecordsConfined(m, root, -1, va);
    CoalesceIs(Recs(m1), lva, None, None);
  }

  lemma RemainderGranted(m: Mem, m1: Mem, m2: Mem, root: Bpn, va: Range, a: Range)
    requires va in Recs(m) && va.start < a.start < a.end < va.end
    requires Recs(m1) == Recs(m) - {va} + {Range(a.end, va.end)} && Los(m1) == Los(m)
    requires Coalesce(Recs(m1), Range(va.start, a.start)) == Recs(m) - {va} + {Range(a.end, va.end)} + {Range(va.start, a.start)}
    requires Freed(m1, m2, root, Range(va.start, a.start))
    ensures Granted(m, m2, root, va, a)
  {}

  // The granted area touches neither end of the range: the left remainder is a new record.
  method SplitVa(t: BptRoot, n: Bpn, k: nat, va: Range, a: Range, ghost path: seq<Bpn>)
    requires Linked(t) && Sound(t.m, t.node, -1) && Gapped(Recs(t.m)) && Handle(t.m, t.node, va, n, k, path)
    requires va in Recs(t.m) && va.start < a.start < a.end < va.end
    modifies t`m, t`last, t`node, t.m.Keys
    ensures Linked(t) && fresh(t.m.Keys - old(t.m.Keys)) && Granted(old(t.m), t.m, t.node, va, a)
  {
    ghost var m, root := t.m, t.node;
    var lva := Range(va.start, a.start);
    Shrink(t, n, k, Range(a.end, va.end), va, path);
    ghost var m1 := t.m;
    RemainderFree(m, m1, root, va, lva, Range(a.end, va.end));
    var rv := BptPoInsert(t, lva);
    RemainderGranted(m, m1, t.m, t.node, va, a);
  }

  // va_clip: takes [nva, nva + size) out of the free range `va`.
  method VaClip(t: BptRoot, n: Bpn, k: nat, va: Range, nva: int, size: int, ghost path: seq<Bpn>) returns (ret: int)
    requires Linked(t) && Sound(t.m, t.node, -1) && Gapped(Recs(t.m)) && Handle(t.m, t.node, va, n, k, path)
    requires va in Recs(t.m) && size > 0
    modifies t`m, t`last, t`node, t.m.Keys
    ensures Linked(t) && fresh(t.m.Keys - old(t.m.Keys))
    ensures ret == if Inside(Range(nva, nva + size), va) then 0 else -1
    ensures ret == 0 ==> Granted(old(t.m), t.m, t.node, va, Range(nva, nva + size))
    ensures ret != 0 ==> t.m == old(t.m) && t.node == old(t.node)
  {
    var kind := ClassifyVaFitType(va, nva, size);
    ret := 0;
    match kind
    case FlFit =>
      DeleteRecord(t, va, -1);
    case LeFit =>
      Shrink(t, n, k, Range(va.start + size, va.end), va, path);
    case ReFit =>
      Shrink(t, n, k, Range(va.start, nva), va, path);
    case NeFit =>
      SplitVa(t, n, k, va, Range(nva, nva + size), path);
    case NothingFit =>
      ret := -1;
  }

  // ---------- Choosing the address ----------

  // No candidate has room for the request below `vend`.
  ghost predicate NoRoom(f: set<Range>, size: int, align: int, vstart: int, vend: int)
    requires align > 0
  {
    forall c, b {:trigger FitsAt(c, size, align, vstart, b)} ::
      c in f && Candidate(c, size, align, vstart) && FitsAt(c, size, align, vstart, b) ==> b + size > vend
  }

  // `addr` is the lowest address at which a candidate can serve the request.
  ghost predicate FirstFit(f: set<Range>, size: int, align: int, vstart: int, addr: int)
    requires align > 0
  {
    forall c, b {:trigger FitsAt(c, size, align, vstart, b)} ::
      c in f && Candidate(c, size, align, vstart) && FitsAt(c, size, align, vstart, b) ==> addr <= b
  }

  // A candidate's addresses are not below the one the lowest range yields.
  lemma LowestAddress(f: set<Range>, size: int, align: int, vstart: int, r: Range, c: Range, b: int)
    requires Request(size, align, vstart) && Gapped(f) && Lowest(f, size, align, vstart, r)
    requires c in f && Candidate(c, size, align, vstart) && FitsAt(c, size, align, vstart, b)
    ensures NvaStart(r, align, vstart) <= b && FitsAt(r, size, align, vstart, NvaStart(r, align, vstart))
  {
    NvaAccepted(r, size, align, vstart);
    if c == r { NvaServes(r, size, align, vstart, b); }
    if WrapsUnnoticed(r, size, align, vstart) { AlignLeast(r.start, align, b); }
  }

  // Where the lowest range yields its address: inside, or before its start when the rounding has wrapped.
  lemma AddressInside(f: set<Range>, size: int, align: int, vstart: int, r: Range)
    requires Request(size, align, vstart) && Gapped(f) && Lowest(f, size, align, vstart, r)
    ensures var nva := NvaStart(r, align, vstart);
      && 0 <= nva && nva + size < W && (nva + size) % W == nva + size
      && (FitsAt(r, size, align, vstart, nva) <==> Inside(Range(nva, nva + size), r))
  {
    NvaAccepted(r, size, align, vstart);
    if WrapsUnnoticed(r, size, align, vstart) { AlignMeaning(r.start, align); }
  }

  lemma RoomDecided(f: set<Range>, size: int, align: int, vstart: int, vend: int, r: Range)
    requires Request(size, align, vstart) && Gapped(f) && Lowest(f, size, align, vstart, r)
    ensures var nva := NvaStart(r, align, vstart);
      && FirstFit(f, size, align, vstart, nva)
      && (nva + size > vend || !Inside(Range(nva, nva + size), r) ==> NoRoom(f, size, align, vstart, vend))
  {
    AddressInside(f, size, align, vstart, r);
    forall c, b | c in f && Candidate(c, size, align, vstart) && FitsAt(c, size, align, vstart, b)
      ensures NvaStart(r, align, vstart) <= b && FitsAt(r, size, align, vstart, NvaStart(r, align, vstart))
    {
      LowestAddress(f, size, align, vstart, r, c, b);
    }
  }

  // The free ranges and the separators are what they were.
  ghost predicate Unmoved(m: Mem, m': Mem, root': Bpn) {
    Sound(m', root', -1) && Recs(m') == Recs(m) && Los(m') == Los(m)
  }

  /** What va_alloc does with the answer `va` of the search: its address is rounded up, and the block is granted
      if it ends by `vend` and lies inside; `vend` stands for failure. */
  ghost predicate Outcome(m: Mem, root: Bpn, m': Mem, root': Bpn, size: int, align: int, vstart: int, vend: int,
                          va: Option<Range>, addr: int)
    requires Sound(m, root, -1) && align > 0
  {
    && Exact(m, root, size, align, vstart, va)
    && match va
       case None => addr == vend && Unmoved(m, m', root')
       case Some(r) =>
         var nva := NvaStart(r, align, vstart);
         if nva + size <= vend && Inside(Range(nva, nva + size), r) then
           addr == nva && Granted(m, m', root', r, Range(nva, nva + size))
         else addr == vend && Unmoved(m, m', root')
  }

  // Either no candidate has room below `vend`, or the first range of the required length cannot serve the request.
  ghost predicate Refused(f: set<Range>, size: int, align: int, vstart: int, vend: int)
    requires align > 0
  {
    && (Decisive(f, size, align) ==> NoRoom(f, size, align, vstart, vend))
    && (|| NoRoom(f, size, align, vstart, vend)
        || forall r :: LowestLarge(f, Length(size, align), vstart, r) ==> !CanServe(r, size, align, vstart))
  }

  // What that means for the set of free ranges.
  ghost predicate Allocated(m: Mem, m': Mem, root: Bpn, size: int, align: int, vstart: int, vend: int, addr: int, r: Range)
    requires align > 0
  {
    if addr == vend then Unmoved(m, m', root) && Refused(Recs(m), size, align, vstart, vend)
    else
      && r in Recs(m) && FitsAt(r, size, align, vstart, addr) && addr + size <= vend
      && FirstFit(Recs(m), size, align, vstart, addr) && Granted(m, m', root, r, Range(addr, addr + size))
  }

  lemma RefusedNone(m: Mem, root: Bpn, size: int, align: int, vstart: int, vend: int)
    requires Sound(m, root, -1) && Gapped(Recs(m)) && Request(size, align, vstart) && Exact(m, root, size, align, vstart, None)
    requires Decisive(Recs(m), size, align) ==> forall c :: c in Recs(m) ==> !Candidate(c, size, align, vstart)
    ensures Refused(Recs(m), size, align, vstart, vend)
  {
    forall r | LowestLarge(Recs(m), Length(size, align), vstart, r)
      ensures !CanServe(r, size, align, vstart)
    {
      RefusalExamined(m, root, size, align, vstart, r);
    }
  }

  // An address inside the range has not wrapped.
  lemma InsideFits(r: Range, size: int, align: int, vstart: int)
    requires Request(size, align, vstart) && 0 <= r.start < r.end < W && IsWithin(r, size, align, vstart)
    requires Inside(Range(NvaStart(r, align, vstart), NvaStart(r, align, vstart) + size), r)
    ensures FitsAt(r, size, align, vstart, NvaStart(r, align, vstart))
  {
    NvaAccepted(r, size, align, vstart);
    if WrapsUnnoticed(r, size, align, vstart) { AlignMeaning(r.start, align); }
  }

  // The address that is granted, if one is.
  lemma OutcomeAddress(m: Mem, root: Bpn, m': Mem, root': Bpn, size: int, align: int, vstart: int, vend: int,
                       va: Option<Range>, addr: int)
    requires Sound(m, root, -1) && Request(size, align, vstart) && Outcome(m, root, m', root', size, align, vstart, vend, va, addr)
    ensures addr != vend <==>
      va.Some? && var nva := NvaStart(va.value, align, vstart); nva + size <= vend && Inside(Range(nva, nva + size), va.value)
    ensures addr != vend ==> addr == NvaStart(va.value, align, vstart)
  {}

  /** In a tree of one leaf a request is granted at the lowest range that is_within_this_va accepts, and refused only
      if none is accepted or its rounded address falls outside it or past `vend`. */
  lemma OneLeafOutcome(m: Mem, root: Bpn, m': Mem, root': Bpn, size: int, align: int, vstart: int, vend: int,
                       va: Option<Range>, addr: int)
    requires Sound(m, root, -1) && Gapped(Recs(m)) && Request(size, align, vstart) && m[root].leaf
    requires Outcome(m, root, m', root', size, align, vstart, vend, va, addr)
    ensures LowestAccepted(Recs(m), size, align, vstart, va)
    ensures addr != vend <==>
      va.Some? && var nva := NvaStart(va.value, align, vstart); nva + size <= vend && Inside(Range(nva, nva + size), va.value)
    ensures addr != vend ==> addr == NvaStart(va.value, align, vstart) && FitsAt(va.value, size, align, vstart, addr)
  {
    OneLeafDecides(m, root, size, align, vstart, va);
    OutcomeAddress(m, root, m', root', size, align, vstart, vend, va, addr);
    if addr != vend { InsideFits(va.value, size, align, vstart); }
  }

  /** If no range holds the required length the request still succeeds exactly if the lowest range accepted in the
      last leaf has room. */
  lemma LastLeafOutcome(m: Mem, root: Bpn, m': Mem, root': Bpn, size: int, align: int, vstart: int, vend: int,
                        va: Option<Range>, addr: int)
    requires Sound(m, root, -1) && Gapped(Recs(m)) && Request(size, align, vstart)
    requires forall r :: r in Recs(m) ==> Size(r) < Length(size, align)
    requires Outcome(m, root, m', root', size, align, vstart, vend, va, addr)
    ensures exists n :: n in m && m[n].leaf && m[n].hi == W && LowestWithin(m[n].vas, size, align, vstart, va)
    ensures addr != vend <==>
      va.Some? && var nva := NvaStart(va.value, align, vstart); nva + size <= vend && Inside(Range(nva, nva + size), va.value)
  {
    LastLeafDecides(m, root, size, align, vstart, va);
    OutcomeAddress(m, root, m', root', size, align, vstart, vend, va, addr);
  }

  lemma RefusedVia(m: Mem, m1: Mem, root: Bpn, size: int, align: int, vstart: int, vend: int, r: Range)
    requires Request(size, align, vstart) && Sound(m, root, -1) && SameButMarks(m, m1)
    requires Refused(Recs(m), size, align, vstart, vend)
    ensures Unmoved(m, m1, root) && Allocated(m, m1, root, size, align, vstart, vend, vend, r)
  {
    MarksKeep(m, m1, root);
  }

  lemma TakenVia(m: Mem, m1: Mem, m2: Mem, root1: Bpn, root2: Bpn, size: int, align: int, vstart: int, vend: int, r: Range, addr: int)
    requires Request(size, align, vstart) && Sound(m, root1, -1) && SameButMarks(m, m1) && Gapped(Recs(m))
    requires Lowest(Recs(m), size, align, vstart, r) && addr == NvaStart(r, align, vstart) && addr + size <= vend
    requires Inside(Range(addr, addr + size), r) && Granted(m1, m2, root2, r, Range(addr, addr + size))
    ensures Allocated(m, m2, root2, size, align, vstart, vend, addr, r) && Granted(m, m2, root2, r, Range(addr, addr + size))
  {
    MarksKeep(m, m1, root1);
    AddressInside(Recs(m), size, align, vstart, r);
    RoomDecided(Recs(m), size, align, vstart, vend, r);
  }

  lemma TakenOutcome(m: Mem, root: Bpn, m': Mem, root': Bpn, size: int, align: int, vstart: int, vend: int, r: Range)
    requires Sound(m, root, -1) && align > 0 && Exact(m, root, size, align, vstart, Some(r))
    requires var nva := NvaStart(r, align, vstart);
      nva + size <= vend && Inside(Range(nva, nva + size), r) && Granted(m, m', root', r, Range(nva, nva + size))
    ensures Outcome(m, root, m', root', size, align, vstart, vend, Some(r), NvaStart(r, align, vstart))
  {}

  lemma RefusedOutcome(m: Mem, root: Bpn, m': Mem, root': Bpn, size: int, align: int, vstart: int, vend: int, r: Range)
    requires Request(size, align, vstart) && Sound(m, root, -1) && Gapped(Recs(m)) && Exact(m, root, size, align, vstart, Some(r))
    requires Lowest(Recs(m), size, align, vstart, r) && SameButMarks(m, m')
    requires var nva := NvaStart(r, align, vstart); nva + size > vend || !Inside(Range(nva, nva + size), r)
    ensures Outcome(m, root, m', root, size, align, vstart, vend, Some(r), vend)
    ensures Allocated(m, m', root, size, align, vstart, vend, vend, r)
  {
    RoomDecided(Recs(m), size, align, vstart, vend, r);
    RefusedVia(m, m', root, size, align, vstart, vend, r);
  }

  // The search has found `va`: round its start up, check `vend`, and clip.
  method TakeFrom(t: BptRoot, size: int, align: int, vstart: int, vend: int, va: Range, n: Bpn, k: nat, ghost path: seq<Bpn>, ghost m: Mem)
      returns (addr: int)
    requires Linked(t) && Sound(m, t.node, -1) && SameButMarks(m, t.m) && Gapped(Recs(m)) && Request(size, align, vstart)
    requires Lowest(Recs(m), size, align, vstart, va) && Handle(t.m, t.node, va, n, k, path)
    requires Exact(m, t.node, size, align, vstart, Some(va))
    modifies t`m, t`last, t`node, t.m.Keys
    ensures Linked(t) && fresh(t.m.Keys - old(t.m.Keys))
    ensures Outcome(m, old(t.node), t.m, t.node, size, align, vstart, vend, Some(va), addr)
    ensures Allocated(m, t.m, t.node, size, align, vstart, vend, addr, va)
  {
    ghost var m1, root := t.m, t.node;
    MarksKeep(m, m1, root);
    AddressInside(Recs(m), size, align, vstart, va);
    var nva := if va.start > vstart then Align(va.start, align) else Align(vstart, align);
    addr := vend;
    if (nva + size) % W <= vend {
      var ret := VaClip(t, n, k, va, nva, size, path);
      if ret == 0 {
        TakenVia(m, m1, t.m, root, t.node, size, align, vstart, vend, va, nva);
        TakenOutcome(m, root, t.m, t.node, size, align, vstart, vend, va);
        return nva;
      }
    }
    RefusedOutcome(m, root, t.m, t.node, size, align, vstart, vend, va);
  }

  method VaAlloc(t: BptRoot, size: int, align: int, vstart: int, vend: int)
      returns (addr: int, ghost r: Range, ghost found: Option<Range>)
    requires Linked(t) && Sound(t.m, t.node, -1) && Gapped(Recs(t.m)) && Request(size, align, vstart)
    modifies t`m, t`last, t`node, t.m.Keys
    ensures Linked(t) && fresh(t.m.Keys - old(t.m.Keys))
    ensures Outcome(old(t.m), old(t.node), t.m, t.node, size, align, vstart, vend, found, addr)
    ensures Allocated(old(t.m), t.m, t.node, size, align, vstart, vend, addr, r)
  {
    ghost var m := t.m;
    var va, n, k;
    ghost var path;
    va, n, k, path := LookupSmallestVa(t, size, align, vstart);
    found := va;
    if va == None {
      RefusedNone(m, t.node, size, align, vstart, vend);
      RefusedVia(m, t.m, t.node, size, align, vstart, vend, Range(0, 0));
      addr, r := vend, Range(0, 0);
      return;
    }
    r := va.value;
    addr := TakeFrom(t, size, align, vstart, vend, va.value, n, k, path, m);
  }
}
