/** bpt_lookup: finding the free range that starts at a given address. */
module KeyLookup {
  import opened Words
  import opened Node
  import opened Shape
  import opened Store
  import opened Tree
  import opened NodeSearch
  import opened Rebalance
  import opened Descend

  method BptFindLeaf(t: BptRoot, val: int) returns (n: Bpn)
    requires Linked(t) && Sound(t.m, t.node, -1) && 0 <= val < W
    ensures n in t.m && t.m[n].leaf && Holds(t.m[n], val)
  {
    n := t.node;
    assert NodeOk(t.m, t.node, -1, n) && See(n);
    while !n.leaf
      invariant n in t.m && See(n) && Holds(t.m[n], val)
      decreases t.m[n].h
    {
      SearchReady(t.m, t.node, -1, n);
      var cc, pos := BinSearch(n, val, t.m[n]);
      NextKidHolds(t.m[n], val, cc, pos);
      if cc == EQ {
        pos := pos + 1;
      }
      assert NodeOk(t.m, t.node, -1, n) && KidOk(t.m, n, pos);
      assert NodeOk(t.m, t.node, -1, n.subl[pos]);
      n := n.subl[pos];
      assert See(n);
    }
  }

  // `pos` is the first position in the leaf whose record does not start below `val`.
  ghost predicate LeafPosition(m: Mem, leaf: Bpn, val: int, pos: nat) {
    && leaf in m && m[leaf].leaf && Holds(m[leaf], val) && pos <= |m[leaf].vas|
    && (forall i :: 0 <= i < pos ==> m[leaf].vas[i].start < val)
    && (forall i :: pos <= i < |m[leaf].vas| ==> val <= m[leaf].vas[i].start)
  }

  // The tree answers like the set of its records.
  method BptLookup(t: BptRoot, val: int) returns (va: Option<Range>, pos: nat, ghost leaf: Bpn)
    requires Linked(t) && Sound(t.m, t.node, -1) && 0 <= val < W
    ensures va.Some? <==> HasKey(Recs(t.m), val)
    ensures va.Some? ==> va.value in Recs(t.m) && va.value.start == val
    ensures LeafPosition(t.m, leaf, val, pos) && (va.Some? ==> pos < |t.m[leaf].vas| && t.m[leaf].vas[pos] == va.value)
  {
    var n := BptFindLeaf(t, val);
    leaf := n;
    SearchReady(t.m, t.node, -1, n);
    assert See(n);
    var cc;
    cc, pos := BinSearch(n, val, t.m[n]);
    FoundInLeaf(t.m, t.node, -1, n, val, cc, pos);
    assert forall i :: 0 <= i < |t.m[n].vas| ==> Keys(t.m[n])[i] == t.m[n].vas[i].start;
    va := if cc == EQ then Some(n.vas[pos]) else None;
  }
}
