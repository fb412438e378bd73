/** lin_lookup_smallest_va, the simple scan along the leaf list that the indexed search refines. */
module LinearScan {
  import opened Words
  import opened Node
  import opened Shape
  import opened Avail
  import opened Store
  import opened Tree
  import opened Keeps
  import opened Rebalance
  import opened Space
  import opened Neighbours
  import opened Fit
  import opened Search
  import opened Lookup

  ghost predicate Accepted(r: Range, size: int, align: int, vstart: int)
    requires align > 0
  {
    Size(r) >= Length(size, align) && IsWithin(r, size, align, vstart)
  }

  // The scan returns the lowest accepted range.
  ghost predicate Scanned(f: set<Range>, size: int, align: int, vstart: int, va: Option<Range>)
    requires align > 0
  {
    && (va.Some? ==> va.value in f && Accepted(va.value, size, align, vstart)
                     && forall c :: c in f && Accepted(c, size, align, vstart) ==> va.value.start <= c.start)
    && (va.None? ==> forall c :: c in f ==> !Accepted(c, size, align, vstart))
  }

  // The scan has found nothing below `lo`.
  ghost predicate NoneBelow(f: set<Range>, size: int, align: int, vstart: int, lo: int)
    requires align > 0
  {
    forall c :: c in f && Accepted(c, size, align, vstart) ==> lo <= c.start
  }

  // The scan has come to position `i` of leaf `n`.
  lemma ScannedLeaf(m: Mem, root: Bpn, n: Bpn, size: int, align: int, vstart: int, i: nat)
    requires Sound(m, root, -1) && n in m && m[n].leaf && align > 0 && i <= |m[n].vas|
    requires NoneBelow(Recs(m), size, align, vstart, m[n].lo)
    requires forall j :: 0 <= j < i ==> !Accepted(m[n].vas[j], size, align, vstart)
    ensures i < |m[n].vas| && Accepted(m[n].vas[i], size, align, vstart) ==> Scanned(Recs(m), size, align, vstart, Some(m[n].vas[i]))
    ensures i == |m[n].vas| ==> NoneBelow(Recs(m), size, align, vstart, m[n].hi)
  {
    if i < |m[n].vas| { InRecs(m, n, i); }
    assert NodeOk(m, root, -1, n);
    forall c | c in Recs(m) && Accepted(c, size, align, vstart)
      ensures i < |m[n].vas| ==> m[n].vas[i].start <= c.start
      ensures i == |m[n].vas| ==> m[n].hi <= c.start
    {
      HomeLeaf(m, root, -1, n, c);
      if Holds(m[n], c.start) {
        var j :| 0 <= j < |m[n].vas| && m[n].vas[j] == c;
        if i < |m[n].vas| { InOrder(m[n], -1, i, j); }
      } else if i < |m[n].vas| {
        InOrder(m[n], -1, i, i);
      }
    }
  }

  lemma ScanNext(m: Mem, root: Bpn, n: Bpn)
    requires Sound(m, root, -1) && n in m && m[n].leaf
    ensures m[n].lo < m[n].hi <= W && (m[n].prev == null ==> m[n].lo == 0)
    ensures if m[n].next == null then m[n].hi == W
            else m[n].next in m && m[m[n].next].leaf && m[m[n].next].lo == m[n].hi
  {
    assert NodeOk(m, root, -1, n);
  }

  method LinLookupSmallestVa(t: BptRoot, size: int, align: int, vstart: int) returns (va: Option<Range>, out: Bpn?)
    requires Linked(t) && Sound(t.m, t.node, -1) && Request(size, align, vstart)
    ensures Scanned(Recs(t.m), size, align, vstart, va)
    ensures va.Some? ==> out != null && out in t.m && va.value in t.m[out].vas
  {
    var length := if align > PAGE_SIZE then (size + align - 1) % W else size;
    ghost var m := t.m;
    var n := t.first;
    ScanNext(m, t.node, n);
    forall c | c in Recs(m)
      ensures 0 <= c.start < W
    {
      RecordWithin(m, t.node, -1, c);
    }
    while n != null
      invariant n != null ==> n in m && m[n].leaf
      invariant NoneBelow(Recs(m), size, align, vstart, if n == null then W else m[n].lo)
      decreases if n == null then 0 else 1 + W - m[n].lo
    {
      assert See(n);
      ScanNext(m, t.node, n);
      var i := 0;
      while i < |n.vas|
        invariant i <= |n.vas| && forall j :: 0 <= j < i ==> !Accepted(n.vas[j], size, align, vstart)
      {
        if Size(n.vas[i]) >= length && IsWithin(n.vas[i], size, align, vstart) {
          ScannedLeaf(m, t.node, n, size, align, vstart, i);
          return Some(n.vas[i]), n;
        }
        i := i + 1;
      }
      ScannedLeaf(m, t.node, n, size, align, vstart, i);
      n := n.next;
    }
    return None, null;
  }

  // A range accepted at its full length is judged correctly.
  lemma AcceptedServes(c: Range, size: int, align: int, vstart: int)
    requires Request(size, align, vstart) && 0 <= c.start < c.end < W && Accepted(c, size, align, vstart)
    requires if align > PAGE_SIZE then size + align - 1 < W else c.start % align == 0
    ensures Candidate(c, size, align, vstart)
  {
    if align > PAGE_SIZE {
      assert !WrapsUnnoticed(c, size, align, vstart);
    } else {
      AlignedStart(c, size, align, vstart);
    }
    NvaAccepted(c, size, align, vstart);
  }

  /** The indexed search returns exactly what the scan returns when no alignment is lost: the check that
      a debugging build performs on every allocation cannot fail. */
  lemma IndexRefinesScan(m0: Mem, m: Mem, root: Bpn, size: int, align: int, vstart: int,
                         va: Option<Range>, n: Bpn, k: nat, path: seq<Bpn>, tmp: Option<Range>)
    requires Request(size, align, vstart) && Gapped(Recs(m0)) && align <= PAGE_SIZE && Decisive(Recs(m0), size, align)
    requires Answer(m0, m, root, size, align, vstart, va, n, k, path) && Scanned(Recs(m0), size, align, vstart, tmp)
    ensures va == tmp
  {
    if tmp.Some? {
      AcceptedServes(tmp.value, size, align, vstart);
    }
    if va.Some? {
      AlignedStart(va.value, size, align, vstart);
      NvaAccepted(va.value, size, align, vstart);
      assert Accepted(va.value, size, align, vstart);
    }
  }

  // For larger alignments the index may accept a lower range, never a higher one.
  lemma IndexNoWorse(m0: Mem, m: Mem, root: Bpn, size: int, align: int, vstart: int,
                     va: Option<Range>, n: Bpn, k: nat, path: seq<Bpn>, tmp: Range)
    requires Request(size, align, vstart) && Gapped(Recs(m0)) && align > PAGE_SIZE && Decisive(Recs(m0), size, align)
    requires Answer(m0, m, root, size, align, vstart, va, n, k, path) && Scanned(Recs(m0), size, align, vstart, Some(tmp))
    ensures va.Some? && va.value.start <= tmp.start
  {
    AcceptedServes(tmp, size, align, vstart);
  }
}
