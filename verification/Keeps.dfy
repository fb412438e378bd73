/** What every piece of node surgery keeps: structure, augmentation, the records, and the boundaries
    up to ones placed at the start of a record. */
module Keeps {
  import opened Words
  import opened Node
  import opened Shape
  import opened Avail
  import opened Cutting
  import opened Merging
  import opened RootOps
  import opened Store
  import opened Tree
  import opened MergeOps
  import opened ShiftOps

  // The boundaries of the tree: 0 and all separators.
  ghost function Los(m: Mem): set<int> {
    set n | n in m :: m[n].lo
  }

  ghost function Starts(f: set<Range>): set<int> {
    set x | x in f :: x.start
  }

  // Structure and augmentation without the occupancy bounds.
  ghost predicate Trim(m: Mem, root: Bpn, d: int) {
    Struct(m, root, d) && AvailOk(m, null)
  }

  // `m'` holds the same records; a boundary that is not old is the start of a record other than `val`.
  ghost predicate SameRecords(m: Mem, m': Mem, val: int) {
    Recs(m') == Recs(m) && Los(m') <= Los(m) + (Starts(Recs(m)) - {val})
  }

  lemma CutKeyIsBoundary(m: Mem, root: Bpn, d: int, s: Site, val: int)
    requires Struct(m, root, d) && Cuttable(m, s)
    requires m[m[s.p].subl[s.i]].leaf ==> m[m[s.p].subl[s.i]].vas[s.k].start != val
    ensures CutKey(m[m[s.p].subl[s.i]], s.k) in Los(m) + (Starts(Recs(m)) - {val})
  {
    var c := m[s.p].subl[s.i];
    if m[c].leaf {
      assert m[c].vas[s.k] in m[c].vas;
      assert m[c].vas[s.k] in Recs(m);
    } else {
      assert NodeOk(m, root, d, c) && KidOk(m, c, s.k + 1);
    }
  }

  lemma CutKeeps(m: Mem, root: Bpn, d: int, s: Site, val: int)
    requires Trim(m, root, d) && Cuttable(m, s) && HalvesAvail(m, s) && (d == -1 || d == val)
    requires m[m[s.p].subl[s.i]].leaf ==> m[m[s.p].subl[s.i]].vas[s.k].start !in {d, val}
    ensures Trim(Cut(m, s), root, d) && SameRecords(m, Cut(m, s), val)
  {
    CutStruct(m, root, d, s);
    CutAvail(m, root, d, s);
    CutRecords(m, s);
    CutKeyIsBoundary(m, root, d, s, val);
    forall x | x in Los(Cut(m, s))
      ensures x in Los(m) + (Starts(Recs(m)) - {val})
    {
      var n :| n in Cut(m, s) && Cut(m, s)[n].lo == x;
    }
  }

  lemma MergeKeeps(m: Mem, root: Bpn, d: int, p: Bpn, i: nat, a: int, val: int)
    requires Trim(m, root, d) && Mergeable(m, p, i)
    requires a == MaxAvail(Joined(m[m[p].subl[i]], m[m[p].subl[i + 1]], m[p].slot[i]))
    ensures Trim(Merge(m, p, i, a), root, d) && SameRecords(m, Merge(m, p, i, a), val)
  {
    MergeStruct(m, root, d, p, i, a);
    MergeAvail(m, root, d, p, i, a);
    MergeStart(m, root, d, p, i);
    MergeRecords(m, p, i, a);
    forall x | x in Los(Merge(m, p, i, a))
      ensures x in Los(m)
    {
      var n :| n in Merge(m, p, i, a) && Merge(m, p, i, a)[n].lo == x;
      assert m[n].lo == x;
    }
  }

  lemma SameRecordsTrans(a: Mem, b: Mem, c: Mem, val: int)
    requires SameRecords(a, b, val) && SameRecords(b, c, val)
    ensures SameRecords(a, c, val)
  {}

  // The redivided siblings with both SUB_AVAIL entries brought up to date.
  ghost function Redivided(m: Mem, p: Bpn, i: nat, k: nat, al: int, ar: int): Mem
    requires Redividable(m, p, i, k)
  {
    Cut(Merge(m, p, i, m[p].suba[i]), ShiftSite(m, p, i, k).(al := al, ar := ar))
  }

  lemma RedividedIsStores(m: Mem, p: Bpn, i: nat, k: nat, al: int, ar: int)
    requires Redividable(m, p, i, k)
    ensures p in Redivide(m, p, i, k) && |Redivide(m, p, i, k)[p].suba| >= i + 2
    ensures SetSuba(SetSuba(Redivide(m, p, i, k), p, i, al), p, i + 1, ar) == Redivided(m, p, i, k, al, ar)
  {
    var a := Redivide(m, p, i, k);
    var b := Redivided(m, p, i, k, al, ar);
    assert a[p].suba[i := al][i + 1 := ar] == b[p].suba;
    assert a.Keys == b.Keys;
    forall x | x in a && x != p
      ensures a[x] == b[x]
    {}
  }

  // The value recorded for the merged node in between does not matter: the cut overwrites it.
  lemma RedividedVia(m: Mem, p: Bpn, i: nat, k: nat, al: int, ar: int, a: int)
    requires Redividable(m, p, i, k)
    ensures var s := ShiftSite(m, p, i, k).(al := al, ar := ar);
      Cuttable(Merge(m, p, i, a), s) && Cut(Merge(m, p, i, a), s) == Redivided(m, p, i, k, al, ar)
  {
    var s := ShiftSite(m, p, i, k).(al := al, ar := ar);
    var x, y := Merge(m, p, i, a), Merge(m, p, i, m[p].suba[i]);
    assert x == y[p := y[p].(suba := x[p].suba)];
    var b, c := Cut(x, s), Cut(y, s);
    assert b[p].suba == c[p].suba;
    assert b.Keys == c.Keys;
    forall n | n in b && n != p
      ensures b[n] == c[n]
    {}
  }

  lemma RedividedKeeps(m: Mem, root: Bpn, d: int, p: Bpn, i: nat, k: nat, al: int, ar: int, val: int)
    requires Trim(m, root, d) && (d == -1 || d == val) && Redividable(m, p, i, k)
    requires var l, r := m[p].subl[i], m[p].subl[i + 1];
      && al == MaxAvail(Redivide(m, p, i, k)[l]) && ar == MaxAvail(Redivide(m, p, i, k)[r])
      && (m[l].leaf ==> (m[l].vas + m[r].vas)[k].start !in {d, val})
    ensures Trim(Redivided(m, p, i, k, al, ar), root, d) && SameRecords(m, Redivided(m, p, i, k, al, ar), val)
  {
    var l, r := m[p].subl[i], m[p].subl[i + 1];
    var a := MaxAvail(Joined(m[l], m[r], m[p].slot[i]));
    MergeKeeps(m, root, d, p, i, a, val);
    RedividedVia(m, p, i, k, al, ar, a);
    var s := ShiftSite(m, p, i, k).(al := al, ar := ar);
    CutKeeps(Merge(m, p, i, a), root, d, s, val);
    SameRecordsTrans(m, Merge(m, p, i, a), Cut(Merge(m, p, i, a), s), val);
  }

  lemma SubaKeepsRest(m: Mem, m': Mem, root: Bpn)
    requires SameButSuba(m, m')
    ensures SizeOk(m, root) ==> SizeOk(m', root)
    ensures Recs(m') == Recs(m) && Los(m') == Los(m)
  {
    assert SameShape(m, m');
    SameShapeRest(m, m', root);
    forall x | x in Los(m)
      ensures x in Los(m')
    {
      var n: Bpn :| n in m && m[n].lo == x;
      assert m'[n].lo == x;
    }
    forall x | x in Los(m')
      ensures x in Los(m)
    {
      var n: Bpn :| n in m' && m'[n].lo == x;
      assert m[n].lo == x;
    }
  }
}
