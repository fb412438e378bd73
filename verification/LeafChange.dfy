/** A change to the records of one leaf followed by fixup_metadata: the pattern shared by insertion,
    removal, merging inside a leaf and clipping. */
module LeafChange {
  import opened Words
  import opened Node
  import opened Shape
  import opened Avail
  import opened LeafOps
  import opened Store
  import opened Tree
  import opened Keeps
  import opened Rebalance

  // The records after leaf `n` got the contents `vas`.
  ghost function Swapped(m: Mem, n: Bpn, vas: seq<Range>): set<Range>
    requires n in m
  {
    (Recs(m) - (set x | x in m[n].vas)) + (set x | x in vas)
  }

  // `vas` may become the contents of leaf `n`.
  ghost predicate Fits(m: Mem, root: Bpn, d: int, n: Bpn, vas: seq<Range>, d': int) {
    && n in m && m[n].leaf && RecordsOk(vas, m[n].lo, m[n].hi, d')
    && |vas| <= MAX_ENTRIES && (n != root ==> |vas| >= MinEntries(true))
    && (d == -1 || d == d' || (d' == -1 && Holds(m[n], d)))
  }

  lemma LeafChanged(m: Mem, root: Bpn, d: int, n: Bpn, vas: seq<Range>, d': int, path: seq<Bpn>)
    requires Sound(m, root, d) && Fits(m, root, d, n, vas, d')
    requires PathOk(m, root, path) && path[|path| - 1] == n
    ensures var m1 := SetVas(m, n, vas);
      && Struct(m1, root, d') && SizeOk(m1, root) && AvailOk(m1, n) && PathOk(m1, root, path)
      && Recs(m1) == Swapped(m, n, vas) && Los(m1) == Los(m)
  {
    var m1 := SetVas(m, n, vas);
    SetVasStruct(m, root, d, d', n, vas);
    SetVasAvail(m, root, d, n, vas);
    LeafChangedSets(m, root, d, n, vas);
    LeafChangedSizes(m, root, n, vas);
    forall k | 0 <= k < |path| - 1
      ensures PathStep(m1, path, k)
    {
      assert PathStep(m, path, k);
    }
  }

  lemma LeafChangedSizes(m: Mem, root: Bpn, n: Bpn, vas: seq<Range>)
    requires SizeOk(m, root) && n in m && m[n].leaf && |vas| <= MAX_ENTRIES && (n != root ==> |vas| >= MinEntries(true))
    ensures SizeOk(SetVas(m, n, vas), root)
  {
    var m1 := SetVas(m, n, vas);
    forall x | x in m1
      ensures && Entries(m1[x]) <= MAX_ENTRIES && (x != root ==> Entries(m1[x]) >= MinEntries(m1[x].leaf))
              && (x == root && !m1[x].leaf ==> Entries(m1[x]) >= 1)
    {
      assert Entries(m[x]) <= MAX_ENTRIES;
    }
  }

  lemma LeafChangedSets(m: Mem, root: Bpn, d: int, n: Bpn, vas: seq<Range>)
    requires Struct(m, root, d) && n in m && m[n].leaf
    ensures Recs(SetVas(m, n, vas)) == Swapped(m, n, vas) && Los(SetVas(m, n, vas)) == Los(m)
  {
    var m1 := SetVas(m, n, vas);
    forall x
      ensures x in Recs(m1) <==> x in Swapped(m, n, vas)
    {
      SetVasRecords(m, root, d, n, vas, x);
    }
    forall x | x in Los(m)
      ensures x in Los(m1)
    {
      var q: Bpn :| q in m && m[q].lo == x;
      assert m1[q].lo == x;
    }
    forall x | x in Los(m1)
      ensures x in Los(m)
    {
      var q: Bpn :| q in m1 && m1[q].lo == x;
      assert m[q].lo == x;
    }
  }

  // What holds once the leaf has its new contents and the maxima above it are repaired.
  ghost predicate Refitted(m: Mem, m': Mem, root: Bpn, n: Bpn, vas: seq<Range>, d': int, path: seq<Bpn>)
    requires n in m
  {
    && Sound(m', root, d') && PathOk(m', root, path) && SameButSuba(SetVas(m, n, vas), m')
    && Recs(m') == Swapped(m, n, vas) && Los(m') == Los(m)
  }

  // Everything the climb restores and keeps.
  ghost predicate Repaired(m1: Mem, m2: Mem, root: Bpn, d: int, path: seq<Bpn>) {
    && Sound(m2, root, d) && PathOk(m2, root, path) && SameButSuba(m1, m2)
    && Recs(m2) == Recs(m1) && Los(m2) == Los(m1)
  }

  lemma FixupRepairs(m1: Mem, root: Bpn, d: int, path: seq<Bpn>)
    requires Struct(m1, root, d) && SizeOk(m1, root) && PathOk(m1, root, path) && AvailOk(m1, path[|path| - 1])
    ensures Repaired(m1, Fixup(m1, root, d, path[|path| - 1]), root, d, path)
  {
    FixupSound(m1, root, d, path[|path| - 1]);
    FixupRest(m1, Fixup(m1, root, d, path[|path| - 1]), root, d, path);
  }

  lemma FixupRest(m1: Mem, m2: Mem, root: Bpn, d: int, path: seq<Bpn>)
    requires Struct(m1, root, d) && SizeOk(m1, root) && PathOk(m1, root, path) && SameButSuba(m1, m2)
    ensures SizeOk(m2, root) && PathOk(m2, root, path) && Recs(m2) == Recs(m1) && Los(m2) == Los(m1)
  {
    SubaKeepsRest(m1, m2, root);
    SameButSubaKeeps(m1, m2, root, d, path);
  }

  method StoreAndFixup(t: BptRoot, n: Bpn, vas: seq<Range>, ghost d: int, ghost d': int, ghost path: seq<Bpn>)
    requires Linked(t) && Sound(t.m, t.node, d) && Fits(t.m, t.node, d, n, vas, d')
    requires PathOk(t.m, t.node, path) && path[|path| - 1] == n
    modifies t`m, t.m.Keys
    ensures Linked(t) && Refitted(old(t.m), t.m, t.node, n, vas, d', path)
  {
    LeafChanged(t.m, t.node, d, n, vas, d', path);
    StoreVas(t, n, vas);
    FixupRepairs(t.m, t.node, d', path);
    FixupMetadata(t, n, path, d');
  }
}
