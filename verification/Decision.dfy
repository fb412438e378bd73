/** What the exact answer of lookup_smallest_va means for the set of free ranges. */
module Decision {
  import opened Words
  import opened Node
  import opened Shape
  import opened Avail
  import opened Store
  import opened Tree
  import opened Keeps
  import opened Rebalance
  import opened Descend
  import opened Space
  import opened Neighbours
  import opened Augment
  import opened Fit
  import opened Search
  import opened Lookup

  // The first descent passes over no large range that reaches beyond `vstart`, and ends beyond `vstart`.
  lemma {:induction false} EnteredLeft(m: Mem, root: Bpn, n: Bpn, length: int, vstart: int)
    requires Sound(m, root, -1) && n in m && NothingLeft(Recs(m), m[n].lo, length, vstart) && vstart < m[n].hi
    ensures var leaf := Entered(m, root, n, length, vstart); NothingLeft(Recs(m), m[leaf].lo, length, vstart) && vstart < m[leaf].hi
    decreases m[n].h
  {
    if !m[n].leaf {
      assert NodeOk(m, root, -1, n);
      var i := KidFrom(m[n], 0, length, vstart);
      KidFromChosen(m[n], 0, length, vstart);
      assert KidOk(m, n, i) && NodeOk(m, root, -1, m[n].subl[i]);
      forall r | r in Recs(m) && r.start < KLo(m[n], i) && Size(r) >= length
        ensures r.end <= vstart
      {
        NothingLeftStep(m, root, n, i, length, vstart, r);
      }
      EnteredLeft(m, root, m[n].subl[i], length, vstart);
    }
  }

  lemma EnteredFromRoot(m: Mem, root: Bpn, length: int, vstart: int)
    requires Sound(m, root, -1) && 0 <= vstart < W
    ensures var leaf := Entered(m, root, root, length, vstart); NothingLeft(Recs(m), m[leaf].lo, length, vstart) && vstart < m[leaf].hi
  {
    ReachRoot(m, root, length, vstart);
    assert NodeOk(m, root, -1, root);
    EnteredLeft(m, root, root, length, vstart);
  }

  /** A refusal is never for want of a better search: the lowest range of the required length from `vstart` on
      cannot serve the request. */
  lemma RefusalExamined(m: Mem, root: Bpn, size: int, align: int, vstart: int, r: Range)
    requires Sound(m, root, -1) && Gapped(Recs(m)) && Request(size, align, vstart) && Exact(m, root, size, align, vstart, None)
    requires LowestLarge(Recs(m), Length(size, align), vstart, r)
    ensures !CanServe(r, size, align, vstart)
  {
    var length := Length(size, align);
    var n := Entered(m, root, root, length, vstart);
    EnteredFromRoot(m, root, length, vstart);
    assert r.start >= m[n].lo;
    if r.start < m[n].hi {
      HomeLeaf(m, root, -1, n, r);
      if a :| FitsAt(r, size, align, vstart, a) { NvaServes(r, size, align, vstart, a); }
    } else {
      var q, x :| q in m && SecondLeaf(m, q, length, m[n].hi, x) && LowestServing(m[q].vas, size, align, vstart, None);
      assert LowestLarge(Recs(m), length, m[n].hi, x);
      assert x == r;
    }
  }

  lemma SameStart(m: Mem, x: Range, y: Range)
    requires Gapped(Recs(m)) && x in Recs(m) && y in Recs(m) && x.start == y.start
    ensures x == y
  {}

  lemma OneSecondLeaf(m: Mem, root: Bpn, length: int, lo: int, p: Bpn, x: Range, q: Bpn, y: Range)
    requires Sound(m, root, -1) && Gapped(Recs(m)) && SecondLeaf(m, p, length, lo, x) && SecondLeaf(m, q, length, lo, y)
    ensures p == q
  {
    SameStart(m, x, y);
    assert NodeOk(m, root, -1, p) && NodeOk(m, root, -1, q);
    Nest(m, root, -1, p, q, x.start);
  }

  /** The tree and the request determine the answer. */
  lemma ExactUnique(m: Mem, root: Bpn, size: int, align: int, vstart: int, va: Option<Range>, vb: Option<Range>)
    requires Sound(m, root, -1) && Gapped(Recs(m)) && align > 0
    requires Exact(m, root, size, align, vstart, va) && Exact(m, root, size, align, vstart, vb)
    ensures va == vb
  {
    var length := Length(size, align);
    var n := Entered(m, root, root, length, vstart);
    assert forall q, c :: q in m && c in m[q].vas ==> c in Recs(m);
    if LowestWithin(m[n].vas, size, align, vstart, None) && !SmallBetween(Recs(m), m[n].hi, W, length) {
      var p, x :| p in m && SecondLeaf(m, p, length, m[n].hi, x) && LowestServing(m[p].vas, size, align, vstart, va);
      var q, y :| q in m && SecondLeaf(m, q, length, m[n].hi, y) && LowestServing(m[q].vas, size, align, vstart, vb);
      OneSecondLeaf(m, root, length, m[n].hi, p, x, q, y);
    }
    if va.Some? && vb.Some? { SameStart(m, va.value, vb.value); }
  }

  // ---------- No range holds the required length ----------

  // Without a range of the required length the descent ends in the last leaf.
  lemma {:induction false} EnteredLast(m: Mem, root: Bpn, n: Bpn, length: int, vstart: int)
    requires Sound(m, root, -1) && n in m && forall r :: r in Recs(m) ==> Size(r) < length
    ensures m[Entered(m, root, n, length, vstart)].hi == m[n].hi
    decreases m[n].h
  {
    if !m[n].leaf {
      assert NodeOk(m, root, -1, n);
      var i := KidFrom(m[n], 0, length, vstart);
      KidFromChosen(m[n], 0, length, vstart);
      var c := m[n].subl[i];
      assert KidOk(m, n, i) && NodeOk(m, root, -1, c) && EdgeOk(m, n, i);
      HasSpace(m, root, -1, c);
      var x := AvailAttained(m, root, -1, c);
      assert i == |m[n].slot|;
      EnteredLast(m, root, c, length, vstart);
    }
  }

  /** If no range holds the required length, the answer is the lowest range accepted in the last leaf. */
  lemma LastLeafDecides(m: Mem, root: Bpn, size: int, align: int, vstart: int, va: Option<Range>)
    requires Sound(m, root, -1) && Gapped(Recs(m)) && Request(size, align, vstart) && Exact(m, root, size, align, vstart, va)
    requires forall r :: r in Recs(m) ==> Size(r) < Length(size, align)
    ensures exists n :: n in m && m[n].leaf && m[n].hi == W && LowestWithin(m[n].vas, size, align, vstart, va)
  {
    var length := Length(size, align);
    var n := Entered(m, root, root, length, vstart);
    assert NodeOk(m, root, -1, root);
    EnteredLast(m, root, root, length, vstart);
    assert SmallBetween(Recs(m), m[n].hi, W, length);
  }

  // ---------- A tree of one leaf ----------

  // `va` is the lowest free range that is_within_this_va accepts, if there is one.
  ghost predicate LowestAccepted(f: set<Range>, size: int, align: int, vstart: int, va: Option<Range>)
    requires align > 0
  {
    match va
    case None => forall c :: c in f ==> !IsWithin(c, size, align, vstart)
    case Some(r) => r in f && IsWithin(r, size, align, vstart) && forall c :: c in f && IsWithin(c, size, align, vstart) ==> r.start <= c.start
  }

  /** In a tree of one leaf the answer is the lowest range accepted of all, whatever its length. */
  lemma OneLeafDecides(m: Mem, root: Bpn, size: int, align: int, vstart: int, va: Option<Range>)
    requires Sound(m, root, -1) && Gapped(Recs(m)) && Request(size, align, vstart) && Exact(m, root, size, align, vstart, va)
    requires m[root].leaf
    ensures LowestAccepted(Recs(m), size, align, vstart, va)
  {
    assert NodeOk(m, root, -1, root);
    assert SmallBetween(Recs(m), m[root].hi, W, Length(size, align));
    forall c | c in Recs(m)
      ensures c in m[root].vas
    {
      HomeLeaf(m, root, -1, root, c);
    }
    forall c | c in m[root].vas
      ensures c in Recs(m)
    {}
  }
}
