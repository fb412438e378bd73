/** The insertion descent of bpt_po_insert: full nodes are split before they are entered. */
module Insert {
  import opened Words
  import opened Node
  import opened Shape
  import opened Avail
  import opened Cutting
  import opened RootOps
  import opened Store
  import opened Tree
  import opened NodeSearch
  import opened SplitOps
  import opened Keeps
  import opened Rebalance
  import opened Descend

  // The search for `key` has arrived at `n`, which still has room.
  ghost predicate Arrived(m0: Mem, m: Mem, root: Bpn, path: seq<Bpn>, n: Bpn, key: int) {
    && Sound(m, root, -1) && n in m && Holds(m[n], key) && Entries(m[n]) < MAX_ENTRIES
    && SameRecords(m0, m, -1) && PathOk(m, root, path) && path[|path| - 1] == n
  }

  lemma CutEntries(m: Mem, root: Bpn, d: int, s: Site, n: Bpn)
    requires Struct(m, root, d) && Cuttable(m, s) && n in m
    ensures var c, m' := m[s.p].subl[s.i], Cut(m, s);
      && m'[n].leaf == m[n].leaf && m'[s.r].leaf == m[c].leaf
      && Entries(m'[n]) == (if n == c then s.k else if n == s.p then Entries(m[n]) + 1 else Entries(m[n]))
      && Entries(m'[s.r]) == Entries(m[c]) - s.k - (if m[c].leaf then 0 else 1)
  {
    CutStart(m, root, d, s);
  }

  lemma CutSizes(m: Mem, root: Bpn, d: int, s: Site)
    requires Struct(m, root, d) && Cuttable(m, s) && s.k == MAX_ENTRIES - Split(MAX_ENTRIES)
    requires forall n :: n in m ==> Entries(m[n]) <= MAX_ENTRIES && (n != root ==> Entries(m[n]) >= MinEntries(m[n].leaf))
    requires forall n :: n in m && n == root && !m[n].leaf && n != s.p ==> Entries(m[n]) >= 1
    requires Entries(m[m[s.p].subl[s.i]]) == MAX_ENTRIES && Entries(m[s.p]) < MAX_ENTRIES
    ensures SizeOk(Cut(m, s), root)
  {
    var m' := Cut(m, s);
    var c := m[s.p].subl[s.i];
    CutStart(m, root, d, s);
    SplitBounds(m[c].leaf);
    forall n | n in m'
      ensures && Entries(m'[n]) <= MAX_ENTRIES && (n != root ==> Entries(m'[n]) >= MinEntries(m'[n].leaf))
              && (n == root && !m'[n].leaf ==> Entries(m'[n]) >= 1)
    {
      if n == s.r {
        CutEntries(m, root, d, s, c);
        assert root in m;
      } else {
        CutEntries(m, root, d, s, n);
        assert Entries(m[n]) <= MAX_ENTRIES;
      }
    }
  }

  // Both halves of a split full child have room, and they lie left and right of the cut key.
  lemma SplitHalvesOpen(m: Mem, root: Bpn, s: Site)
    requires Struct(m, root, -1) && Cuttable(m, s) && s.k == MAX_ENTRIES - Split(MAX_ENTRIES)
    requires Entries(m[m[s.p].subl[s.i]]) == MAX_ENTRIES
    ensures var c, m' := m[s.p].subl[s.i], Cut(m, s);
      && !m'[s.p].leaf && m'[s.p].subl[s.i] == c && m'[s.p].subl[s.i + 1] == s.r && m'[s.p].slot[s.i] == CutKey(m[c], s.k)
      && Entries(m'[c]) < MAX_ENTRIES && Entries(m'[s.r]) < MAX_ENTRIES
      && m'[c].lo == m[c].lo && m'[c].hi == CutKey(m[c], s.k) == m'[s.r].lo && m'[s.r].hi == m[c].hi
      && m'[c].h + 1 == m[s.p].h && m'[s.r].h + 1 == m[s.p].h
  {
    CutStart(m, root, -1, s);
    SplitBounds(m[m[s.p].subl[s.i]].leaf);
    CutEntries(m, root, -1, s, m[s.p].subl[s.i]);
  }

  lemma SplitSound(m: Mem, root: Bpn, s: Site)
    requires Sound(m, root, -1) && Cuttable(m, s) && HalvesAvail(m, s) && s.k == MAX_ENTRIES - Split(MAX_ENTRIES)
    requires Entries(m[m[s.p].subl[s.i]]) == MAX_ENTRIES && Entries(m[s.p]) < MAX_ENTRIES
    ensures Sound(Cut(m, s), root, -1) && SameRecords(m, Cut(m, s), -1) && SameAbove(m, Cut(m, s), s.p)
  {
    var c := m[s.p].subl[s.i];
    CutStart(m, root, -1, s);
    SplitBounds(m[c].leaf);
    if m[c].leaf { assert m[c].vas[s.k].start != -1; }
    CutKeeps(m, root, -1, s, -1);
    CutSizes(m, root, -1, s);
    CutAbove(m, root, -1, s);
  }

  // A full child has been split: either half may be entered, depending on the new separator.
  lemma SplitArrives(m: Mem, root: Bpn, path: seq<Bpn>, s: Site, key: int, right: bool)
    requires Sound(m, root, -1) && Cuttable(m, s) && HalvesAvail(m, s) && s.k == MAX_ENTRIES - Split(MAX_ENTRIES)
    requires PathOk(m, root, path) && path[|path| - 1] == s.p && Entries(m[s.p]) < MAX_ENTRIES
    requires Entries(m[m[s.p].subl[s.i]]) == MAX_ENTRIES && Holds(m[m[s.p].subl[s.i]], key)
    requires right <==> key >= CutKey(m[m[s.p].subl[s.i]], s.k)
    ensures var c, m1 := m[s.p].subl[s.i], Cut(m, s);
      var n, j := if right then s.r else c, if right then s.i + 1 else s.i;
      var m' := m1[s.p := m1[s.p].(ppos := j)];
      && m1[s.p].subl[s.i] == c && m1[s.p].subl[s.i + 1] == s.r && m1[s.p].slot[s.i] == CutKey(m[c], s.k)
      && Arrived(m, m', root, path + [n], n, key) && m'[n].h + 1 == m[s.p].h
  {
    SplitHalvesOpen(m, root, s);
    SplitSound(m, root, s);
    var n, j := if right then s.r else m[s.p].subl[s.i], if right then s.i + 1 else s.i;
    ArriveAt(m, Cut(m, s), root, path, s.p, n, j, key);
  }

  lemma ArriveAt(m: Mem, m1: Mem, root: Bpn, path: seq<Bpn>, p: Bpn, n: Bpn, j: nat, key: int)
    requires p in m && Sound(m1, root, -1) && SameRecords(m, m1, -1) && SameAbove(m, m1, p)
    requires PathOk(m, root, path) && path[|path| - 1] == p
    requires !m1[p].leaf && j < |m1[p].subl| && m1[p].subl[j] == n && n in m1
    requires Holds(m1[n], key) && Entries(m1[n]) < MAX_ENTRIES && m1[n].h + 1 == m[p].h
    ensures var m' := m1[p := m1[p].(ppos := j)];
      Arrived(m, m', root, path + [n], n, key)
  {
    var m' := m1[p := m1[p].(ppos := j)];
    assert SameShape(m1, m');
    SameShapeStruct(m1, m', root, -1);
    SameShapeRest(m1, m', root);
    MarkAvail(m1, p, j);
    PathBelow(m, m', root, path, n);
  }

  // One level of the descent, before the child is looked at.
  lemma InsertStep(m0: Mem, m: Mem, root: Bpn, path: seq<Bpn>, p: Bpn, cc: PosCC, pos: nat, key: int)
    requires Arrived(m0, m, root, path, p, key) && !m[p].leaf && InnerOk(m[p]) && Found(Keys(m[p]), key, cc, pos)
    ensures var j := NextKid(cc, pos);
      && j <= |m[p].slot|
      && var m1, c := m[p := m[p].(ppos := j)], m[p].subl[j];
      && c in m1 && c != p && m1[c].parent == p && m1[c].h + 1 == m[p].h && Holds(m1[c], key)
      && Sound(m1, root, -1) && SameRecords(m0, m1, -1) && PathOk(m1, root, path) && Entries(m1[p]) < MAX_ENTRIES
      && Entries(m1[c]) <= MAX_ENTRIES
      && (Entries(m1[c]) < MAX_ENTRIES ==> Arrived(m0, m1, root, path + [c], c, key))
  {
    NextKidHolds(m[p], key, cc, pos);
    var j := NextKid(cc, pos);
    var m1, c := m[p := m[p].(ppos := j)], m[p].subl[j];
    EnterChild(m, root, -1, path, p, j, key);
    SameRecordsTrans(m0, m, m1, -1);
    assert NodeOk(m, root, -1, p) && KidOk(m, p, j);
    assert Entries(m1[c]) <= MAX_ENTRIES;
  }

  // With `m1` the picture after the split of `c`, comparing `key` with slot `pos` of `p` picks the half
  // that covers `key`.
  ghost predicate Choice(m: Mem, m1: Mem, root: Bpn, path: seq<Bpn>, p: Bpn, c: Bpn, pos: nat, key: int) {
    && p in m1 && p in m && pos < |m1[p].slot| && pos + 1 < |m1[p].subl|
    && if key >= m1[p].slot[pos] then
         var n, m' := m1[p].subl[pos + 1], m1[p := m1[p].(ppos := pos + 1)];
         Arrived(m, m', root, path + [n], n, key) && m'[n].h + 1 == m[p].h
       else
         Arrived(m, m1, root, path + [c], c, key) && m1[c].h + 1 == m[p].h
  }

  // The comparison after the split picks the half that covers `key`.
  lemma SplitChoice(m: Mem, root: Bpn, path: seq<Bpn>, s: Site, key: int, pos: nat)
    requires Sound(m, root, -1) && Cuttable(m, s) && HalvesAvail(m, s) && s.k == MAX_ENTRIES - Split(MAX_ENTRIES)
    requires PathOk(m, root, path) && path[|path| - 1] == s.p && Entries(m[s.p]) < MAX_ENTRIES && m[s.p].ppos == s.i
    requires Entries(m[m[s.p].subl[s.i]]) == MAX_ENTRIES && Holds(m[m[s.p].subl[s.i]], key)
    requires s.i == pos || (s.i == pos + 1 && m[s.p].slot[pos] == key)
    ensures Choice(m, Cut(m, s), root, path, s.p, m[s.p].subl[s.i], pos, key)
  {
    var c, m1 := m[s.p].subl[s.i], Cut(m, s);
    CutStart(m, root, -1, s);
    var right := key >= CutKey(m[c], s.k);
    SplitArrives(m, root, path, s, key, right);
    if s.i == pos + 1 {
      assert m1[s.p].slot[pos] == key;
      assert !right;
      assert m1[s.p] == m1[s.p].(ppos := pos + 1);
    } else if !right {
      assert m1[s.p := m1[s.p].(ppos := s.i)] == m1;
    }
  }

  method SplitChild(t: BptRoot, c: Bpn, p: Bpn, j: nat, ghost pos: nat, ghost key: int, ghost path: seq<Bpn>)
    requires Linked(t) && Sound(t.m, t.node, -1) && PathOk(t.m, t.node, path) && path[|path| - 1] == p
    requires !t.m[p].leaf && j < |t.m[p].subl| && t.m[p].subl[j] == c && c in t.m && c != p && t.m[c].parent == p && t.m[p].ppos == j
    requires Entries(t.m[p]) < MAX_ENTRIES && Entries(t.m[c]) == MAX_ENTRIES && Holds(t.m[c], key)
    requires j == pos || (j == pos + 1 && pos < |t.m[p].slot| && t.m[p].slot[pos] == key)
    modifies t`m, t`last, t.m.Keys
    ensures Linked(t) && Choice(old(t.m), t.m, t.node, path, p, c, pos, key) && fresh(t.m.Keys - old(t.m.Keys))
  {
    ghost var m := t.m;
    assert m[c := m[c].(parent := p)] == m;
    ghost var s;
    var right;
    right, s := BpnSplit(t, c, p, j, t.node);
    SplitChoice(m, t.node, path, s, key, pos);
  }

  // The child `c` at `j` is full: split it and choose the half.
  method InsertSplit(t: BptRoot, c: Bpn, p: Bpn, j: nat, pos: nat, key: int, ghost path: seq<Bpn>)
      returns (n: Bpn, ghost path': seq<Bpn>)
    requires Linked(t) && Sound(t.m, t.node, -1) && PathOk(t.m, t.node, path) && path[|path| - 1] == p
    requires !t.m[p].leaf && j < |t.m[p].subl| && t.m[p].subl[j] == c && c in t.m && c != p && t.m[c].parent == p && t.m[p].ppos == j
    requires Entries(t.m[p]) < MAX_ENTRIES && Entries(t.m[c]) == MAX_ENTRIES && Holds(t.m[c], key)
    requires j == pos || (j == pos + 1 && pos < |t.m[p].slot| && t.m[p].slot[pos] == key)
    modifies t`m, t`last, t.m.Keys
    ensures Linked(t) && Arrived(old(t.m), t.m, t.node, path', n, key) && fresh(t.m.Keys - old(t.m.Keys))
    ensures t.m[n].h + 1 == old(t.m)[p].h
  {
    SplitChild(t, c, p, j, pos, key, path);
    assert See(p);
    n := c;
    if key >= p.slot[pos] {
      n := p.subl[pos + 1];
      StorePpos(t, p, pos + 1);
    }
    path' := path + [n];
  }

  // Enter the child the search points at, splitting it first if it is full.
  method InsertEnter(t: BptRoot, p: Bpn, cc: PosCC, pos: nat, key: int, ghost m0: Mem, ghost path: seq<Bpn>)
      returns (n: Bpn, ghost path': seq<Bpn>)
    requires Linked(t) && Arrived(m0, t.m, t.node, path, p, key) && !t.m[p].leaf && InnerOk(t.m[p]) && Found(Keys(t.m[p]), key, cc, pos)
    modifies t`m, t`last, t.m.Keys
    ensures Linked(t) && Arrived(m0, t.m, t.node, path', n, key) && fresh(t.m.Keys - old(t.m.Keys))
    ensures t.m[n].h + 1 == old(t.m)[p].h
  {
    InsertStep(m0, t.m, t.node, path, p, cc, pos, key);
    assert See(p);
    var j := NextKid(cc, pos);
    n := p.subl[j];
    StorePpos(t, p, j);
    path' := path + [n];
    assert See(n);
    if (if n.leaf then |n.vas| else |n.slot|) == MAX_ENTRIES {
      ghost var m1 := t.m;
      n, path' := InsertSplit(t, n, p, j, pos, key, path);
      SameRecordsTrans(m0, m1, t.m, -1);
    }
  }

  // ---------- A full root ----------

  // The first SUB_AVAIL value of the new root does not matter: the split overwrites it.
  lemma GrowVia(m: Mem, root: Bpn, nr: Bpn, s: Site, a: int)
    requires root in m && nr !in m && Cuttable(Grow(m, root, nr, 0), s) && s.p == nr && s.i == 0
    ensures Cuttable(Grow(m, root, nr, a), s) && Cut(Grow(m, root, nr, a), s) == Cut(Grow(m, root, nr, 0), s)
  {
    var x, y := Grow(m, root, nr, a), Grow(m, root, nr, 0);
    assert x == y[nr := y[nr].(suba := x[nr].suba)];
    var b, c := Cut(x, s), Cut(y, s);
    assert b[nr].suba == c[nr].suba;
    assert b.Keys == c.Keys;
    forall n | n in b && n != nr
      ensures b[n] == c[n]
    {}
  }

  lemma GrowKeeps(m: Mem, root: Bpn, d: int, nr: Bpn)
    requires Sound(m, root, d) && nr !in m
    ensures var g := Grow(m, root, nr, MaxAvail(m[root]));
      && Trim(g, nr, d) && SameRecords(m, g, -1)
      && (Entries(m[root]) == MAX_ENTRIES ==>
            forall n :: n in g ==> Entries(g[n]) <= MAX_ENTRIES && (n != nr ==> Entries(g[n]) >= MinEntries(g[n].leaf)))
  {
    var g := Grow(m, root, nr, MaxAvail(m[root]));
    GrowStruct(m, root, d, nr, MaxAvail(m[root]));
    GrowAvail(m, root, d, nr);
    RootOpsRecords(m, root, d, nr, MaxAvail(m[root]));
    assert NodeOk(m, root, d, root);
    forall x | x in Los(g)
      ensures x in Los(m)
    {
      var q: Bpn :| q in g && g[q].lo == x;
      assert m[if q == nr then root else q].lo == x;
    }
    forall n | n in g
      ensures n != nr ==> Entries(g[n]) == Entries(m[n]) && g[n].leaf == m[n].leaf
    {}
  }

  lemma RootSplitSound(m: Mem, root: Bpn, nr: Bpn, s: Site)
    requires Sound(m, root, -1) && nr !in m && Entries(m[root]) == MAX_ENTRIES
    requires Cuttable(Grow(m, root, nr, 0), s) && HalvesAvail(Grow(m, root, nr, 0), s)
    requires s.p == nr && s.i == 0 && s.k == MAX_ENTRIES - Split(MAX_ENTRIES)
    ensures var m' := Cut(Grow(m, root, nr, 0), s);
      Sound(m', nr, -1) && SameRecords(m, m', -1) && nr in m' && Entries(m'[nr]) == 1
  {
    var g := Grow(m, root, nr, MaxAvail(m[root]));
    GrowKeeps(m, root, -1, nr);
    GrowVia(m, root, nr, s, MaxAvail(m[root]));
    SplitBounds(m[root].leaf);
    if m[root].leaf {
      assert NodeOk(m, root, -1, root);
      assert m[root].vas[s.k].start != -1;
    }
    CutKeeps(g, nr, -1, s, -1);
    CutSizes(g, nr, -1, s);
    CutEntries(g, nr, -1, s, nr);
    SameRecordsTrans(m, g, Cut(g, s), -1);
  }

  // Allocate a root whose only child is the old root; the old root does not know it yet.
  method NewRoot(t: BptRoot) returns (newRoot: Bpn)
    requires Linked(t) && Struct(t.m, t.node, -1)
    modifies t`m, t.m.Keys
    ensures fresh(newRoot) && newRoot !in old(t.m) && newRoot in t.m && Linked(t)
    ensures t.m == Grow(old(t.m), t.node, newRoot, 0)[t.node := old(t.m)[t.node]]
  {
    ghost var m := t.m;
    newRoot := CallocInit(t, false);
    StoreInner(t, newRoot, [], [t.node], [0]);
    Remeasure(t, Grow(m, t.node, newRoot, 0)[t.node := m[t.node]]);
  }

  // bpn_split_root
  method BpnSplitRoot(t: BptRoot) returns (newRoot: Bpn)
    requires Linked(t) && Sound(t.m, t.node, -1) && Entries(t.m[t.node]) == MAX_ENTRIES
    modifies t`m, t`last, t.m.Keys
    ensures fresh(newRoot) && newRoot in t.m && fresh(t.m.Keys - old(t.m.Keys)) && Linked(t)
    ensures Sound(t.m, newRoot, -1) && SameRecords(old(t.m), t.m, -1) && Entries(t.m[newRoot]) == 1
  {
    ghost var m := t.m;
    newRoot := NewRoot(t);
    GrowStruct(m, t.node, -1, newRoot, 0);
    assert NodeOk(m, t.node, -1, t.node);
    assert t.m[t.node := t.m[t.node].(parent := newRoot)] == Grow(m, t.node, newRoot, 0);
    ghost var s;
    var right;
    right, s := BpnSplit(t, t.node, newRoot, 0, newRoot);
    RootSplitSound(m, t.node, newRoot, s);
  }

  // bpt_insert_non_full down to the leaf.
  method InsertDescend(t: BptRoot, key: int) returns (n: Bpn, pos: nat, ghost cc: PosCC, ghost path: seq<Bpn>)
    requires Linked(t) && Sound(t.m, t.node, -1) && 0 <= key < W && Entries(t.m[t.node]) < MAX_ENTRIES
    modifies t`m, t`last, t.m.Keys
    ensures Linked(t) && Arrived(old(t.m), t.m, t.node, path, n, key) && fresh(t.m.Keys - old(t.m.Keys))
    ensures t.m[n].leaf && Found(Keys(t.m[n]), key, cc, pos)
  {
    n := t.node;
    path := [n];
    var c: PosCC;
    assert NodeOk(t.m, t.node, -1, n) && See(n);
    while !n.leaf
      invariant Linked(t) && fresh(t.m.Keys - old(t.m.Keys)) && Arrived(old(t.m), t.m, t.node, path, n, key) && See(n)
      decreases t.m[n].h
    {
      SearchReady(t.m, t.node, -1, n);
      c, pos := BinSearch(n, key, t.m[n]);
      n, path := InsertEnter(t, n, c, pos, key, old(t.m), path);
    }
    SearchReady(t.m, t.node, -1, n);
    c, pos := BinSearch(n, key, t.m[n]);
    cc := c;
  }
}
