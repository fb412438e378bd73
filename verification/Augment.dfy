/** What the SUB_AVAIL values mean: the largest free range that starts within a subtree. */
module Augment {
  import opened Words
  import opened Node
  import opened Shape
  import opened Avail
  import opened Tree
  import opened Keeps
  import opened Neighbours

  // The child of an internal node whose interval holds `a`.
  lemma KidAt(m: Mem, root: Bpn, d: int, n: Bpn, a: int) returns (j: nat)
    requires Struct(m, root, d) && n in m && !m[n].leaf && Holds(m[n], a)
    ensures InnerOk(m[n]) && j < |m[n].subl| && KidOk(m, n, j) && KLo(m[n], j) <= a < KHi(m[n], j)
  {
    assert NodeOk(m, root, d, n);
    j := 0;
    while j < |m[n].slot| && m[n].slot[j] <= a
      invariant j <= |m[n].slot| && KLo(m[n], j) <= a
    {
      j := j + 1;
    }
    assert KidOk(m, n, j);
  }

  // A record that starts in the interval of a node ends there.
  lemma RecordEnds(m: Mem, root: Bpn, d: int, n: Bpn, r: Range)
    requires Struct(m, root, d) && n in m && r in Recs(m) && Holds(m[n], r.start)
    ensures r.start < r.end <= m[n].hi
  {
    var q: Bpn :| q in m && r in m[q].vas;
    assert NodeOk(m, root, d, q) && NodeOk(m, root, d, n);
    Nest(m, root, d, q, n, r.start);
  }

  // No range below `n` is larger than its maximum.
  lemma {:induction false} AvailBound(m: Mem, root: Bpn, d: int, n: Bpn, r: Range)
    requires Trim(m, root, d) && n in m && r in Recs(m) && Holds(m[n], r.start)
    ensures Size(r) <= MaxAvail(m[n])
    decreases m[n].h
  {
    assert NodeOk(m, root, d, n);
    if m[n].leaf {
      HomeLeaf(m, root, d, n, r);
      var i :| 0 <= i < |m[n].vas| && m[n].vas[i] == r;
      MaxOfBounds(Sizes(m[n].vas));
      assert Sizes(m[n].vas)[i] == Size(r);
    } else {
      var j := KidAt(m, root, d, n, r.start);
      var c := m[n].subl[j];
      assert NodeOk(m, root, d, c);
      AvailBound(m, root, d, c, r);
      assert EdgeOk(m, n, j);
      MaxOfBounds(m[n].suba);
    }
  }

  // Some range below `n` is as large as its maximum.
  lemma {:induction false} AvailAttained(m: Mem, root: Bpn, d: int, n: Bpn) returns (r: Range)
    requires Trim(m, root, d) && n in m && MaxAvail(m[n]) > 0
    ensures r in Recs(m) && Holds(m[n], r.start) && Size(r) == MaxAvail(m[n])
    decreases m[n].h
  {
    assert NodeOk(m, root, d, n);
    if m[n].leaf {
      MaxOfBounds(Sizes(m[n].vas));
      var i :| 0 <= i < |m[n].vas| && Sizes(m[n].vas)[i] == MaxAvail(m[n]);
      r := m[n].vas[i];
      InRecs(m, n, i);
    } else {
      MaxOfBounds(m[n].suba);
      var j :| 0 <= j < |m[n].suba| && m[n].suba[j] == MaxAvail(m[n]);
      assert EdgeOk(m, n, j) && KidOk(m, n, j);
      r := AvailAttained(m, root, d, m[n].subl[j]);
    }
  }

  // A node other than the root is never without a free range.
  lemma {:induction false} HasSpace(m: Mem, root: Bpn, d: int, n: Bpn)
    requires Trim(m, root, d) && SizeOk(m, root) && n in m && n != root
    ensures MaxAvail(m[n]) > 0
    decreases m[n].h
  {
    assert NodeOk(m, root, d, n);
    assert Entries(m[n]) <= MAX_ENTRIES;
    if m[n].leaf {
      MaxOfBounds(Sizes(m[n].vas));
      assert Sizes(m[n].vas)[0] > 0;
    } else {
      assert EdgeOk(m, n, 0) && KidOk(m, n, 0);
      assert NodeOk(m, root, d, m[n].subl[0]);
      HasSpace(m, root, d, m[n].subl[0]);
      MaxOfBounds(m[n].suba);
    }
  }

  // Every SUB_AVAIL value is exactly the size of the largest range that starts below that child, and 0
  // if there is none.
  lemma SubAvailExact(m: Mem, root: Bpn, d: int, n: Bpn, i: nat, a: int)
    requires Trim(m, root, d) && n in m && !m[n].leaf && i < |m[n].subl|
    ensures InnerOk(m[n])
    ensures m[n].suba[i] == a <==>
      && (forall r :: r in Recs(m) && KLo(m[n], i) <= r.start < KHi(m[n], i) ==> Size(r) <= a)
      && (a == 0 || exists r :: r in Recs(m) && KLo(m[n], i) <= r.start < KHi(m[n], i) && Size(r) == a)
  {
    assert NodeOk(m, root, d, n);
    assert EdgeOk(m, n, i) && KidOk(m, n, i);
    var c := m[n].subl[i];
    forall r | r in Recs(m) && Holds(m[c], r.start)
      ensures 0 < Size(r) <= m[n].suba[i]
    {
      AvailBound(m, root, d, c, r);
      RecordEnds(m, root, d, c, r);
    }
    MaxAvailNonNeg(m[c]);
    if m[n].suba[i] > 0 {
      var r := AvailAttained(m, root, d, c);
      assert r in Recs(m) && KLo(m[n], i) <= r.start < KHi(m[n], i) && Size(r) == m[n].suba[i];
    }
  }

  lemma MaxAvailNonNeg(v: Nd)
    ensures MaxAvail(v) >= 0
  {
    MaxOfNonNeg(Sizes(v.vas));
    MaxOfNonNeg(v.suba);
  }
}
