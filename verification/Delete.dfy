/** bpt_po_delete: a single descent that rebalances ahead of itself, then removes the record. */
module Delete {
  import opened Words
  import opened Node
  import opened Shape
  import opened Avail
  import opened Cutting
  import opened Merging
  import opened RootOps
  import opened LeafOps
  import opened Store
  import opened Tree
  import opened NodeSearch
  import opened MergeOps
  import opened ShiftOps
  import opened Keeps
  import opened Rebalance
  import opened LeafChange
  import opened Descend

  // What one step of the descent hands on.
  ghost predicate Descent(m0: Mem, m: Mem, root: Bpn, d: int, path: seq<Bpn>, n: Bpn, val: int) {
    Open(m, root, d, n, val) && SameRecords(m0, m, val) && PathOk(m, root, path) && path[|path| - 1] == n
  }

  lemma RedividedAbove(m: Mem, root: Bpn, d: int, p: Bpn, i: nat, k: nat, al: int, ar: int)
    requires Struct(m, root, d) && Redividable(m, p, i, k)
    ensures SameAbove(m, Redivided(m, p, i, k, al, ar), p)
  {
    var a := m[p].suba[i];
    MergeStart(m, root, d, p, i);
    MergeStruct(m, root, d, p, i, a);
    MergeAbove(m, root, d, p, i, a);
    CutAbove(Merge(m, p, i, a), root, d, ShiftSite(m, p, i, k).(al := al, ar := ar));
  }

  lemma RedividedKids(m: Mem, root: Bpn, d: int, p: Bpn, i: nat, k: nat, al: int, ar: int)
    requires Struct(m, root, d) && Redividable(m, p, i, k)
    ensures var l, r, m' := m[p].subl[i], m[p].subl[i + 1], Redivided(m, p, i, k, al, ar);
      && m'[p].subl == m[p].subl && m'[p].ppos == m[p].ppos && !m'[p].leaf
      && m'[l].h == m[l].h && m'[r].h == m[r].h && m[l].h + 1 == m[p].h && m[r].h + 1 == m[p].h
  {
    MergeStart(m, root, d, p, i);
    var m' := Redivided(m, p, i, k, al, ar);
    assert m'[p].subl == m[p].subl;
  }

  lemma ShiftedPath(m: Mem, root: Bpn, d: int, p: Bpn, i: nat, k: nat, al: int, ar: int, path: seq<Bpn>, n: Bpn)
    requires Struct(m, root, d) && Redividable(m, p, i, k) && PathOk(m, root, path) && path[|path| - 1] == p
    requires Marked(m, p, n) && (n == m[p].subl[i] || n == m[p].subl[i + 1])
    ensures PathOk(Redivided(m, p, i, k, al, ar), root, path + [n]) && n in m
    ensures n in Redivided(m, p, i, k, al, ar) && Redivided(m, p, i, k, al, ar)[n].h + 1 == m[p].h
  {
    RedividedAbove(m, root, d, p, i, k, al, ar);
    RedividedKids(m, root, d, p, i, k, al, ar);
    PathBelow(m, Redivided(m, p, i, k, al, ar), root, path, n);
  }

  lemma MergedPath(m: Mem, root: Bpn, d: int, p: Bpn, i: nat, a: int, path: seq<Bpn>)
    requires Struct(m, root, d) && Mergeable(m, p, i) && PathOk(m, root, path) && path[|path| - 1] == p
    ensures var m' := Merge(m, p, i, a)[p := Merge(m, p, i, a)[p].(ppos := i)];
      PathOk(m', root, path + [m[p].subl[i]]) && m[p].subl[i] in m' && m'[m[p].subl[i]].h + 1 == m[p].h
  {
    MergeStart(m, root, d, p, i);
    MergeAbove(m, root, d, p, i, a);
    var m' := Merge(m, p, i, a)[p := Merge(m, p, i, a)[p].(ppos := i)];
    assert m'[p].subl[i] == m[p].subl[i];
    PathBelow(m, m', root, path, m[p].subl[i]);
  }

  // A shift took place: bring both SUB_AVAIL entries up to date.
  method AfterShift(t: BptRoot, l: Bpn, r: Bpn, p: Bpn, i: nat, ghost m: Mem, ghost k: nat) returns (ghost al: int, ghost ar: int)
    requires Linked(t) && Redividable(m, p, i, k) && t.m == Redivide(m, p, i, k)
    requires l == m[p].subl[i] && r == m[p].subl[i + 1] && l in t.m && r in t.m
    modifies t`m, t.m.Keys
    ensures Linked(t) && t.m == Redivided(m, p, i, k, al, ar)
    ensures al == MaxAvail(Redivide(m, p, i, k)[l]) && ar == MaxAvail(Redivide(m, p, i, k)[r])
  {
    assert See(l) && See(r);
    var a := BpnMaxAvail(l, t.m[l]);
    var b := BpnMaxAvail(r, t.m[r]);
    RedividedIsStores(m, p, i, k, a, b);
    StoreSuba(t, p, i, a);
    StoreSuba(t, p, i + 1, b);
    al, ar := a, b;
  }

  lemma ShiftedLeftDescent(m: Mem, root: Bpn, d: int, p: Bpn, i: nat, k: nat, val: int, al: int, ar: int, path: seq<Bpn>)
    requires Mergeable(m, p, i) && Tight(m, root, d, p, i, m[p].subl[i], val) && CanShiftLeft(m, p, i)
    requires k == Entries(m[m[p].subl[i]]) + 1 && Redividable(m, p, i, k)
    requires al == MaxAvail(Redivide(m, p, i, k)[m[p].subl[i]]) && ar == MaxAvail(Redivide(m, p, i, k)[m[p].subl[i + 1]])
    requires PathOk(m, root, path) && path[|path| - 1] == p && Marked(m, p, m[p].subl[i])
    ensures var m' := Redivided(m, p, i, k, al, ar);
      Descent(m, m', root, d, path + [m[p].subl[i]], m[p].subl[i], val) && m'.Keys <= m.Keys && m'[m[p].subl[i]].h + 1 == m[p].h
  {
    ShiftedLeft(m, root, d, p, i, k, val, al, ar);
    ShiftedPath(m, root, d, p, i, k, al, ar, path, m[p].subl[i]);
  }

  // The left child `l` of separator `i` is minimal: borrow from the right if possible.
  method BorrowRight(t: BptRoot, l: Bpn, r: Bpn, p: Bpn, pos: nat, ghost i: nat, ghost k: nat, ghost root: Bpn, ghost d: int)
      returns (ok: bool, ghost al: int, ghost ar: int)
    requires Linked(t) && p in t.m && i == Adjust(pos, |t.m[p].slot|) && Siblings(t.m, root, d, p, i)
    requires l == t.m[p].subl[i] && r == t.m[p].subl[i + 1] && l in t.m && r in t.m && Entries(t.m[l]) <= MAX_ENTRIES && k == Entries(t.m[l]) + 1
    modifies t`m, t.m.Keys
    ensures Linked(t) && Mergeable(old(t.m), p, i) && ok == CanShiftLeft(old(t.m), p, i) && (!ok ==> t.m == old(t.m))
    ensures ok ==> var m := old(t.m);
      && Redividable(m, p, i, k) && t.m == Redivided(m, p, i, k, al, ar)
      && al == MaxAvail(Redivide(m, p, i, k)[l]) && ar == MaxAvail(Redivide(m, p, i, k)[r])
  {
    ghost var m := t.m;
    assert See(p);
    var lpos := Adjust(pos, |p.slot|);
    SiblingsFacts(m, root, d, p, i);
    ok := BpnTryShiftLeft(t, l, r, p, pos, i, k, root, d);
    al, ar := 0, 0;
    if ok {
      al, ar := AfterShift(t, l, r, p, lpos, m, k);
    }
  }


  lemma ShiftedRightDescent(m: Mem, root: Bpn, d: int, p: Bpn, i: nat, k: nat, val: int, al: int, ar: int, path: seq<Bpn>)
    requires Mergeable(m, p, i) && Tight(m, root, d, p, i, m[p].subl[i + 1], val) && CanShiftRight(m, p, i)
    requires k + 1 == Entries(m[m[p].subl[i]]) && Redividable(m, p, i, k)
    requires al == MaxAvail(Redivide(m, p, i, k)[m[p].subl[i]]) && ar == MaxAvail(Redivide(m, p, i, k)[m[p].subl[i + 1]])
    requires PathOk(m, root, path) && path[|path| - 1] == p && Marked(m, p, m[p].subl[i + 1])
    ensures var m' := Redivided(m, p, i, k, al, ar);
      Descent(m, m', root, d, path + [m[p].subl[i + 1]], m[p].subl[i + 1], val) && m'.Keys <= m.Keys
      && m'[m[p].subl[i + 1]].h + 1 == m[p].h
  {
    ShiftedRight(m, root, d, p, i, k, val, al, ar);
    ShiftedPath(m, root, d, p, i, k, al, ar, path, m[p].subl[i + 1]);
  }

  // The right child `r` of separator `i` is minimal: borrow from the left if possible.
  method BorrowLeft(t: BptRoot, l: Bpn, r: Bpn, p: Bpn, pos: nat, ghost i: nat, ghost k: nat, ghost root: Bpn, ghost d: int)
      returns (ok: bool, ghost al: int, ghost ar: int)
    requires Linked(t) && p in t.m && i == Adjust(pos, |t.m[p].slot|) && Siblings(t.m, root, d, p, i)
    requires l == t.m[p].subl[i] && r == t.m[p].subl[i + 1] && l in t.m && r in t.m && Entries(t.m[r]) <= MAX_ENTRIES && k + 1 == Entries(t.m[l])
    modifies t`m, t.m.Keys
    ensures Linked(t) && Mergeable(old(t.m), p, i) && ok == CanShiftRight(old(t.m), p, i) && (!ok ==> t.m == old(t.m))
    ensures ok ==> var m := old(t.m);
      && Redividable(m, p, i, k) && t.m == Redivided(m, p, i, k, al, ar)
      && al == MaxAvail(Redivide(m, p, i, k)[l]) && ar == MaxAvail(Redivide(m, p, i, k)[r])
  {
    ghost var m := t.m;
    assert See(p);
    var lpos := Adjust(pos, |p.slot|);
    SiblingsFacts(m, root, d, p, i);
    ok := BpnTryShiftRight(t, l, r, p, pos, i, k, root, d);
    al, ar := 0, 0;
    if ok {
      al, ar := AfterShift(t, l, r, p, lpos, m, k);
    }
  }


  // Merging recorded the value of the left child; the value of the merged node replaces it.
  lemma MergeThenSuba(m: Mem, p: Bpn, i: nat, a: int)
    requires Mergeable(m, p, i) && i < |m[p].suba|
    ensures var m1 := Merge(m, p, i, m[p].suba[i]);
      i < |m1[p].suba| && SetSuba(m1, p, i, a) == Merge(m, p, i, a)
  {
    var m1 := Merge(m, p, i, m[p].suba[i]);
    assert m1[p].suba[i := a] == Merge(m, p, i, a)[p].suba;
    assert SetSuba(m1, p, i, a).Keys == Merge(m, p, i, a).Keys;
  }

  lemma MinimalPair(m: Mem, root: Bpn, d: int, p: Bpn, i: nat, n: Bpn, val: int)
    requires Mergeable(m, p, i) && Tight(m, root, d, p, i, n, val)
    requires if n == m[p].subl[i] then !CanShiftLeft(m, p, i) else !CanShiftRight(m, p, i)
    ensures var l, r := m[p].subl[i], m[p].subl[i + 1];
      Entries(m[l]) <= MinEntries(m[l].leaf) && Entries(m[r]) <= MinEntries(m[r].leaf)
  {
    MergeStart(m, root, d, p, i);
  }

  // Setting a position mark changes nothing else.
  lemma MarkKeeps(m: Mem, p: Bpn, i: nat, root: Bpn, d: int, n: Bpn, val: int)
    requires p in m && Open(m, root, d, n, val)
    ensures Open(m[p := m[p].(ppos := i)], root, d, n, val)
    ensures SameRecords(m, m[p := m[p].(ppos := i)], val)
  {
    var m' := m[p := m[p].(ppos := i)];
    assert SameShape(m, m');
    SameShapeStruct(m, m', root, d);
    SameShapeRest(m, m', root);
    forall x: Bpn, j | x in m' && 0 <= j < |m'[x].subl| == |m'[x].suba|
      ensures EdgeOk(m', x, j)
    {
      assert EdgeOk(m, x, j);
    }
    forall x | x in Los(m')
      ensures x in Los(m)
    {
      var q: Bpn :| q in m' && m'[q].lo == x;
      assert m[q].lo == x;
    }
  }

  // The descent goes on in the merged node `l`, which has become the root if that ran empty.
  ghost predicate MergedDescent(m: Mem, m2: Mem, root: Bpn, d: int, p: Bpn, l: Bpn, val: int, path: seq<Bpn>)
    requires p in m
  {
    && p in m2 && l in m2 && l != p && m2[l].h + 1 == m[p].h
    && if |m2[p].slot| == 0 && p == root then
         !m2[p].leaf && |m2[p].subl| == 1 && m2[p].subl[0] == l && Descent(m, Collapse(m2, p), l, d, [l], l, val)
       else Descent(m, m2, root, d, path + [l], l, val)
  }

  lemma MarkMerged(m: Mem, m': Mem, root: Bpn, d: int, p: Bpn, i: nat, l: Bpn, val: int, path: seq<Bpn>)
    requires p in m && p in m' && l in m' && l != p && SameRecords(m, m', val) && MergedDown(m, m', root, d, p, l, val)
    requires var m2 := m'[p := m'[p].(ppos := i)]; PathOk(m2, root, path + [l]) && m2[l].h + 1 == m[p].h
    ensures MergedDescent(m, m'[p := m'[p].(ppos := i)], root, d, p, l, val, path)
  {
    var m2 := m'[p := m'[p].(ppos := i)];
    if |m2[p].slot| == 0 && p == root {
      assert Collapse(m2, p) == Collapse(m', p);
      assert NodeOk(Collapse(m', p), l, d, l);
    } else {
      MarkKeeps(m', p, i, root, d, l, val);
    }
  }

  // The merge as a whole, with the mark, before an emptied root is dropped.
  lemma MergeDescends(m: Mem, m': Mem, root: Bpn, d: int, p: Bpn, i: nat, n: Bpn, val: int, a: int, path: seq<Bpn>)
    requires Mergeable(m, p, i) && m' == Merge(m, p, i, a) && Tight(m, root, d, p, i, n, val)
    requires if n == m[p].subl[i] then !CanShiftLeft(m, p, i) else !CanShiftRight(m, p, i)
    requires a == MaxAvail(Joined(m[m[p].subl[i]], m[m[p].subl[i + 1]], m[p].slot[i]))
    requires PathOk(m, root, path) && path[|path| - 1] == p
    ensures p in m' && MergedDescent(m, m'[p := m'[p].(ppos := i)], root, d, p, m[p].subl[i], val, path)
  {
    MinimalPair(m, root, d, p, i, n, val);
    Merged(m, root, d, p, i, n, val, a);
    MergedPath(m, root, d, p, i, a, path);
    MarkMerged(m, m', root, d, p, i, m[p].subl[i], val, path);
  }

  lemma MergedNode(m: Mem, p: Bpn, i: nat, a: int)
    requires Mergeable(m, p, i)
    ensures var l, m' := m[p].subl[i], Merge(m, p, i, a);
      l in m' && p in m' && m'[l] == Joined(m[l], m[m[p].subl[i + 1]], m[p].slot[i])
  {}

  // Merge and record the new maximum; the parent stays even if it is an emptied root.
  method MergeChild(t: BptRoot, p: Bpn, pos: nat, ghost i: nat, ghost root: Bpn, ghost d: int) returns (l: Bpn, ghost a: int)
    requires Linked(t) && p in t.m && i == Adjust(pos, |t.m[p].slot|) && Siblings(t.m, root, d, p, i)
    requires var l, r := t.m[p].subl[i], t.m[p].subl[i + 1];
      && l in t.m && r in t.m && Entries(t.m[l]) <= MinEntries(t.m[l].leaf) && Entries(t.m[r]) <= MinEntries(t.m[r].leaf)
    modifies t`m, t`last, t.m.Keys
    ensures Linked(t) && Mergeable(old(t.m), p, i) && l == old(t.m)[p].subl[i]
    ensures a == MaxAvail(Joined(old(t.m)[l], old(t.m)[old(t.m)[p].subl[i + 1]], old(t.m)[p].slot[i]))
    ensures t.m == Merge(old(t.m), p, i, a) && p in t.m && l in t.m
  {
    ghost var m := t.m;
    assert See(p);
    var lpos := Adjust(pos, |p.slot|);
    SiblingsFacts(m, root, d, p, i);
    l := BpnMergeSiblings(t, p, pos, i, root, d);
    MergedNode(m, p, i, m[p].suba[i]);
    assert See(l);
    var b := BpnMaxAvail(l, t.m[l]);
    MergeThenSuba(m, p, i, b);
    StoreSuba(t, p, lpos, b);
    a := b;
  }

  // if (!parent->entries && parent == root->node): the merged node becomes the root.
  method DropRoot(t: BptRoot, n: Bpn)
    requires Linked(t) && t.node in t.m && t.node != n && n in t.m && !t.m[t.node].leaf
    requires |t.m[t.node].subl| == 1 && t.m[t.node].subl[0] == n
    modifies t`m, t`node, t.m.Keys
    ensures Linked(t) && t.node == n && t.m == Collapse(old(t.m), old(t.node))
  {
    var parent := t.node;
    StoreParent(t, n, null);
    t.node := n;
    Free(t, parent);
  }

  // Neither sibling has an entry to spare.
  ghost predicate NoneToSpare(m: Mem, p: Bpn, i: nat, n: Bpn) {
    && Mergeable(m, p, i)
    && if n == m[p].subl[i] then !CanShiftLeft(m, p, i) else !CanShiftRight(m, p, i)
  }

  method FixLeftChild(t: BptRoot, l: Bpn, r: Bpn, p: Bpn, pos: nat, ghost i: nat, ghost d: int, ghost val: int, ghost path: seq<Bpn>)
      returns (balanced: bool)
    requires Linked(t) && p in t.m && i == Adjust(pos, |t.m[p].slot|) && Tight(t.m, t.node, d, p, i, l, val)
    requires l == t.m[p].subl[i] && r == t.m[p].subl[i + 1]
    requires PathOk(t.m, t.node, path) && path[|path| - 1] == p && Marked(t.m, p, l)
    modifies t`m, t.m.Keys
    ensures Linked(t)
    ensures balanced ==> Descent(old(t.m), t.m, t.node, d, path + [l], l, val) && t.m.Keys <= old(t.m.Keys)
    ensures balanced ==> t.m[l].h + 1 == old(t.m)[p].h
    ensures !balanced ==> t.m == old(t.m) && NoneToSpare(t.m, p, i, l)
  {
    ghost var m := t.m;
    ghost var al, ar;
    SiblingsFacts(m, t.node, d, p, i);
    ghost var k := Entries(m[l]) + 1;
    balanced, al, ar := BorrowRight(t, l, r, p, pos, i, k, t.node, d);
    if balanced { ShiftedLeftDescent(m, t.node, d, p, i, k, val, al, ar, path); }
  }

  method FixRightChild(t: BptRoot, l: Bpn, r: Bpn, p: Bpn, pos: nat, ghost i: nat, ghost d: int, ghost val: int, ghost path: seq<Bpn>)
      returns (balanced: bool)
    requires Linked(t) && p in t.m && i == Adjust(pos, |t.m[p].slot|) && Tight(t.m, t.node, d, p, i, r, val)
    requires l == t.m[p].subl[i] && r == t.m[p].subl[i + 1]
    requires PathOk(t.m, t.node, path) && path[|path| - 1] == p && Marked(t.m, p, r)
    modifies t`m, t.m.Keys
    ensures Linked(t)
    ensures balanced ==> Descent(old(t.m), t.m, t.node, d, path + [r], r, val) && t.m.Keys <= old(t.m.Keys)
    ensures balanced ==> t.m[r].h + 1 == old(t.m)[p].h
    ensures !balanced ==> t.m == old(t.m) && NoneToSpare(t.m, p, i, r)
  {
    ghost var m := t.m;
    ghost var al, ar;
    SiblingsFacts(m, t.node, d, p, i);
    assert Entries(m[l]) >= 1;
    ghost var k := Entries(m[l]) - 1;
    balanced, al, ar := BorrowLeft(t, l, r, p, pos, i, k, t.node, d);
    if balanced { ShiftedRightDescent(m, t.node, d, p, i, k, val, al, ar, path); }
  }

  method FixByBorrowing(t: BptRoot, n: Bpn, parent: Bpn, pos: nat, ghost i: nat, ghost d: int, ghost val: int, ghost path: seq<Bpn>)
      returns (balanced: bool)
    requires Linked(t) && parent in t.m && i == Adjust(pos, |t.m[parent].slot|) && Tight(t.m, t.node, d, parent, i, n, val)
    requires PathOk(t.m, t.node, path) && path[|path| - 1] == parent && Marked(t.m, parent, n)
    modifies t`m, t.m.Keys
    ensures Linked(t)
    ensures balanced ==> Descent(old(t.m), t.m, t.node, d, path + [n], n, val) && t.m.Keys <= old(t.m.Keys)
    ensures balanced ==> t.m[n].h + 1 == old(t.m)[parent].h
    ensures !balanced ==> t.m == old(t.m) && NoneToSpare(t.m, parent, i, n)
  {
    assert See(parent);
    var lpos := Adjust(pos, |parent.slot|);
    var l, r := parent.subl[lpos], parent.subl[lpos + 1];
    if l == n {
      balanced := FixLeftChild(t, l, r, parent, pos, i, d, val, path);
    } else {
      balanced := FixRightChild(t, l, r, parent, pos, i, d, val, path);
    }
  }

  method MergeAndMark(t: BptRoot, n: Bpn, parent: Bpn, pos: nat, ghost i: nat, ghost d: int, ghost val: int, ghost path: seq<Bpn>)
      returns (c: Bpn)
    requires Linked(t) && parent in t.m && i == Adjust(pos, |t.m[parent].slot|) && Tight(t.m, t.node, d, parent, i, n, val)
    requires PathOk(t.m, t.node, path) && path[|path| - 1] == parent && NoneToSpare(t.m, parent, i, n)
    modifies t`m, t`last, t.m.Keys
    ensures Linked(t) && t.m.Keys <= old(t.m.Keys) && MergedDescent(old(t.m), t.m, t.node, d, parent, c, val, path)
  {
    ghost var m := t.m;
    MinimalPair(m, t.node, d, parent, i, n, val);
    assert See(parent);
    var lpos := Adjust(pos, |parent.slot|);
    ghost var a;
    c, a := MergeChild(t, parent, pos, i, t.node, d);
    ghost var m' := t.m;
    assert m'.Keys <= m.Keys;
    StorePpos(t, parent, lpos);
    MergeDescends(m, m', t.node, d, parent, i, n, val, a, path);
  }

  method FixByMerging(t: BptRoot, n: Bpn, parent: Bpn, pos: nat, ghost i: nat, ghost d: int, ghost val: int, ghost path: seq<Bpn>)
      returns (c: Bpn, ghost path': seq<Bpn>)
    requires Linked(t) && parent in t.m && i == Adjust(pos, |t.m[parent].slot|) && Tight(t.m, t.node, d, parent, i, n, val)
    requires PathOk(t.m, t.node, path) && path[|path| - 1] == parent && NoneToSpare(t.m, parent, i, n)
    modifies t`m, t`last, t`node, t.m.Keys
    ensures Linked(t) && Descent(old(t.m), t.m, t.node, d, path', c, val) && t.m.Keys <= old(t.m.Keys)
    ensures t.m[c].h + 1 == old(t.m)[parent].h
  {
    c := MergeAndMark(t, n, parent, pos, i, d, val, path);
    path' := path + [c];
    assert See(parent);
    if |parent.slot| == 0 && parent == t.node {
      DropRoot(t, c);
      path' := [c];
    }
  }

  // `n` is the minimal child of `parent` that the search for `val` is about to enter.
  method FixChild(t: BptRoot, n: Bpn, parent: Bpn, pos: nat, ghost i: nat, ghost d: int, ghost val: int, ghost path: seq<Bpn>)
      returns (c: Bpn, ghost path': seq<Bpn>)
    requires Linked(t) && parent in t.m && i == Adjust(pos, |t.m[parent].slot|) && Tight(t.m, t.node, d, parent, i, n, val)
    requires PathOk(t.m, t.node, path) && path[|path| - 1] == parent && Marked(t.m, parent, n)
    modifies t`m, t`last, t`node, t.m.Keys
    ensures Linked(t) && Descent(old(t.m), t.m, t.node, d, path', c, val) && t.m.Keys <= old(t.m.Keys)
    ensures t.m[c].h + 1 == old(t.m)[parent].h
  {
    var balanced := FixByBorrowing(t, n, parent, pos, i, d, val, path);
    c, path' := n, path + [n];
    if !balanced {
      c, path' := FixByMerging(t, n, parent, pos, i, d, val, path);
    }
  }

  // One level of the descent: the child is roomy and can be entered, or it is tight and must be fixed first.
  lemma DeleteStep(m0: Mem, m: Mem, root: Bpn, d: int, path: seq<Bpn>, p: Bpn, cc: PosCC, pos: nat, val: int)
    requires Descent(m0, m, root, d, path, p, val) && !m[p].leaf && InnerOk(m[p]) && Found(Keys(m[p]), val, cc, pos)
    requires d == -1 || d == val
    ensures var j, i := NextKid(cc, pos), Adjust(pos, |m[p].slot|);
      && j <= |m[p].slot| && i < |m[p].slot|
      && var m1, c := m[p := m[p].(ppos := j)], m[p].subl[j];
      && c in m1 && SameRecords(m0, m1, val) && m1[c].h + 1 == m[p].h
      && (if Entries(m1[c]) > MinEntries(m1[c].leaf) then Descent(m0, m1, root, d, path + [c], c, val)
          else Tight(m1, root, d, p, i, c, val) && PathOk(m1, root, path) && Marked(m1, p, c))
  {
    NextKidHolds(m[p], val, cc, pos);
    var j, i := NextKid(cc, pos), Adjust(pos, |m[p].slot|);
    assert Entries(m[p]) >= 1;
    EnterChild(m, root, d, path, p, j, val);
    SameRecordsTrans(m0, m, m[p := m[p].(ppos := j)], val);
  }

  // Enter the child the search points at, fixing it first if it is minimal.
  method DeleteEnter(t: BptRoot, parent: Bpn, cc: PosCC, pos: nat, ghost m0: Mem, ghost val: int, ghost d: int, ghost path: seq<Bpn>)
      returns (n: Bpn, ghost path': seq<Bpn>)
    requires Linked(t) && Descent(m0, t.m, t.node, d, path, parent, val) && (d == -1 || d == val)
    requires !t.m[parent].leaf && InnerOk(t.m[parent]) && Found(Keys(t.m[parent]), val, cc, pos)
    modifies t`m, t`last, t`node, t.m.Keys
    ensures Linked(t) && Descent(m0, t.m, t.node, d, path', n, val) && t.m.Keys <= old(t.m.Keys)
    ensures t.m[n].h + 1 == old(t.m)[parent].h
  {
    DeleteStep(m0, t.m, t.node, d, path, parent, cc, pos, val);
    assert See(parent);
    var j := NextKid(cc, pos);
    ghost var i := Adjust(pos, |parent.slot|);
    n := parent.subl[j];
    StorePpos(t, parent, j);
    assert See(n);
    if (if n.leaf then |n.vas| else |n.slot|) > MinEntries(n.leaf) {
      path' := path + [n];
    } else {
      ghost var m1 := t.m;
      n, path' := FixChild(t, n, parent, pos, i, d, val, path);
      SameRecordsTrans(m0, m1, t.m, val);
    }
  }

  // Descend to the leaf that covers `val`, fixing every minimal node before entering it.
  method DeleteDescend(t: BptRoot, val: int, ghost d: int) returns (n: Bpn, cc: PosCC, pos: nat, ghost path: seq<Bpn>)
    requires Linked(t) && Sound(t.m, t.node, d) && 0 <= val < W && (d == -1 || d == val)
    modifies t`m, t`last, t`node, t.m.Keys
    ensures Linked(t) && Descent(old(t.m), t.m, t.node, d, path, n, val) && t.m.Keys <= old(t.m.Keys)
    ensures t.m[n].leaf && Found(Keys(t.m[n]), val, cc, pos)
  {
    n := t.node;
    path := [n];
    assert NodeOk(t.m, t.node, d, n);
    while true
      invariant Linked(t) && t.m.Keys <= old(t.m.Keys) && Descent(old(t.m), t.m, t.node, d, path, n, val)
      decreases t.m[n].h
    {
      SearchReady(t.m, t.node, d, n);
      assert See(n);
      cc, pos := BinSearch(n, val, t.m[n]);
      if n.leaf {
        break;
      }
      n, path := DeleteEnter(t, n, cc, pos, old(t.m), val, d, path);
    }
  }

  lemma DelElements<T>(s: seq<T>, pos: nat)
    requires pos < |s| && forall i :: 0 <= i < |s| && i != pos ==> s[i] != s[pos]
    ensures (set x | x in Del(s, pos)) == (set x | x in s) - {s[pos]}
  {
    var rest := Del(s, pos);
    forall x | x in s && x != s[pos]
      ensures x in rest
    {
      var i :| 0 <= i < |s| && s[i] == x;
      assert rest[if i < pos then i else i - 1] == x;
    }
    forall x | x in rest
      ensures x in s && x != s[pos]
    {
      var i :| 0 <= i < |rest| && rest[i] == x;
      assert s[if i < pos then i else i + 1] == x;
    }
  }

  lemma DelRecordsOk(vas: seq<Range>, lo: int, hi: int, d: int, pos: nat)
    requires RecordsOk(vas, lo, hi, d) && pos < |vas| && (d == -1 || d == vas[pos].start) && 0 <= lo
    ensures RecordsOk(Del(vas, pos), lo, hi, -1)
  {
    var rest := Del(vas, pos);
    forall i, j | 0 <= i < j < |rest|
      ensures rest[i].start < rest[j].start && rest[i].end <= rest[j].start
    {
      var i', j' := if i < pos then i else i + 1, if j < pos then j else j + 1;
      assert rest[i] == vas[i'] && rest[j] == vas[j'];
      assert vas[j'].start != d;
    }
  }

  lemma RemovedFits(m: Mem, root: Bpn, d: int, n: Bpn, val: int, pos: nat)
    requires Open(m, root, d, n, val) && m[n].leaf && pos < |m[n].vas| && m[n].vas[pos].start == val && (d == -1 || d == val)
    ensures Fits(m, root, d, n, Del(m[n].vas, pos), -1)
    ensures Swapped(m, n, Del(m[n].vas, pos)) == Recs(m) - {m[n].vas[pos]}
  {
    assert NodeOk(m, root, d, n);
    assert Entries(m[n]) <= MAX_ENTRIES;
    DelRecordsOk(m[n].vas, m[n].lo, m[n].hi, d, pos);
    DelElements(m[n].vas, pos);
    assert forall x :: x in m[n].vas ==> x in Recs(m);
  }

  // bpt_po_delete: removes the record with key `val`, or finds that there is none.
  method BptPoDelete(t: BptRoot, val: int, ghost d: int) returns (va: Option<Range>)
    requires Linked(t) && Sound(t.m, t.node, d) && 0 <= val < W && (d == -1 || (d == val && HasKey(Recs(t.m), val)))
    modifies t`m, t`last, t`node, t.m.Keys
    ensures Linked(t) && Sound(t.m, t.node, -1) && t.m.Keys <= old(t.m.Keys)
    ensures va.Some? <==> HasKey(Recs(old(t.m)), val)
    ensures va.Some? ==> va.value in Recs(old(t.m)) && va.value.start == val && Recs(t.m) == Recs(old(t.m)) - {va.value}
    ensures va.None? ==> Recs(t.m) == Recs(old(t.m))
    ensures Los(t.m) <= Los(old(t.m)) + (Starts(Recs(old(t.m))) - {val})
  {
    var n, cc, pos;
    ghost var path;
    n, cc, pos, path := DeleteDescend(t, val, d);
    FoundInLeaf(t.m, t.node, d, n, val, cc, pos);
    va := None;
    if cc == EQ {
      assert See(n);
      va := Some(n.vas[pos]);
      RemovedFits(t.m, t.node, d, n, val, pos);
      StoreAndFixup(t, n, Del(n.vas, pos), d, -1, path);
    }
  }
}
