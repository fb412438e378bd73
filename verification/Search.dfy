/** The two searches for the lowest free range that can serve a request: over the SUB_AVAIL values, and
    linearly along the leaf list. */
module Search {
  import opened Words
  import opened Node
  import opened Shape
  import opened Avail
  import opened Store
  import opened Tree
  import opened Keeps
  import opened Rebalance
  import opened Descend
  import opened Space
  import opened Neighbours
  import opened Augment
  import opened Fit

  // The searches change nothing but position marks.
  ghost predicate SameButMarks(m: Mem, m': Mem) {
    && m'.Keys == m.Keys
    && forall n {:trigger m'[n]} :: n in m ==> m'[n] == m[n].(ppos := m'[n].ppos)
  }

  lemma MarksKeep(m: Mem, m': Mem, root: Bpn)
    requires Sound(m, root, -1) && SameButMarks(m, m')
    ensures Sound(m', root, -1) && Recs(m') == Recs(m) && Los(m') == Los(m)
  {
    assert SameShape(m, m');
    SameShapeStruct(m, m', root, -1);
    SameShapeRest(m, m', root);
    forall n: Bpn, i | n in m' && 0 <= i < |m'[n].subl| == |m'[n].suba|
      ensures EdgeOk(m', n, i)
    {
      assert EdgeOk(m, n, i);
    }
    forall x | x in Los(m)
      ensures x in Los(m')
    {
      var q: Bpn :| q in m && m[q].lo == x;
      assert m'[q].lo == x;
    }
    forall x | x in Los(m')
      ensures x in Los(m)
    {
      var q: Bpn :| q in m' && m'[q].lo == x;
      assert m[q].lo == x;
    }
  }

  lemma MarkStep(m0: Mem, m: Mem, root: Bpn, path: seq<Bpn>, n: Bpn, i: nat)
    requires Sound(m, root, -1) && SameButMarks(m0, m) && PathOk(m, root, path) && path[|path| - 1] == n
    requires !m[n].leaf && i < |m[n].subl|
    ensures var m', c := m[n := m[n].(ppos := i)], m[n].subl[i];
      && Sound(m', root, -1) && SameButMarks(m0, m') && PathOk(m', root, path + [c])
      && c in m' && m'[c].h + 1 == m'[n].h
  {
    var m', c := m[n := m[n].(ppos := i)], m[n].subl[i];
    assert NodeOk(m, root, -1, n) && KidOk(m, n, i);
    MarksKeep(m, m', root);
    PathBelow(m, m', root, path, c);
  }

  // ---------- The descent ----------

  // The child that bpt_lookup_lowest_leaf follows.
  ghost predicate Chosen(v: Nd, i: nat, length: int, vstart: int) {
    && |v.suba| == |v.slot| + 1 && i <= |v.slot|
    && (forall k :: 0 <= k < i ==> !(vstart < v.slot[k] && v.suba[k] >= length))
    && (i < |v.slot| ==> vstart < v.slot[i] && v.suba[i] >= length)
  }

  // No range large enough that reaches beyond `vstart` starts below `lo`.
  ghost predicate NothingLeft(f: set<Range>, lo: int, length: int, vstart: int) {
    forall r :: r in f && r.start < lo && Size(r) >= length ==> r.end <= vstart
  }

  lemma KidOrder(v: Nd, i: nat, k: nat)
    requires InnerOk(v) && i <= |v.slot| && k <= |v.slot|
    ensures if i <= k then KLo(v, i) <= KLo(v, k) else KHi(v, k) <= KLo(v, i)
  {}

  lemma NothingLeftStep(m: Mem, root: Bpn, n: Bpn, i: nat, length: int, vstart: int, r: Range)
    requires Sound(m, root, -1) && n in m && !m[n].leaf && InnerOk(m[n]) && Chosen(m[n], i, length, vstart)
    requires NothingLeft(Recs(m), m[n].lo, length, vstart)
    requires r in Recs(m) && r.start < KLo(m[n], i) && Size(r) >= length
    ensures r.end <= vstart
  {
    if m[n].lo <= r.start {
      var k := KidAt(m, root, -1, n, r.start);
      var c := m[n].subl[k];
      KidOrder(m[n], i, k);
      RecordEnds(m, root, -1, c, r);
      AvailBound(m, root, -1, c, r);
      assert EdgeOk(m, n, k);
    }
  }

  // The child that the inner loop arrives at, from position `i` on.
  ghost function KidFrom(v: Nd, i: nat, length: int, vstart: int): (k: nat)
    requires |v.suba| == |v.slot| + 1 && i <= |v.slot|
    ensures i <= k <= |v.slot|
    decreases |v.slot| - i
  {
    if i == |v.slot| || (vstart < v.slot[i] && v.suba[i] >= length) then i else KidFrom(v, i + 1, length, vstart)
  }

  // It is the only one that can be chosen.
  lemma {:induction false} ChosenIs(v: Nd, i: nat, j: nat, length: int, vstart: int)
    requires Chosen(v, i, length, vstart) && j <= i
    ensures KidFrom(v, j, length, vstart) == i
    decreases i - j
  {
    if j < i { ChosenIs(v, i, j + 1, length, vstart); }
  }

  lemma {:induction false} KidFromChosen(v: Nd, j: nat, length: int, vstart: int)
    requires |v.suba| == |v.slot| + 1 && j <= |v.slot|
    requires forall k :: 0 <= k < j ==> !(vstart < v.slot[k] && v.suba[k] >= length)
    ensures Chosen(v, KidFrom(v, j, length, vstart), length, vstart)
    decreases |v.slot| - j
  {
    if !(j == |v.slot| || (vstart < v.slot[j] && v.suba[j] >= length)) { KidFromChosen(v, j + 1, length, vstart); }
  }

  /** The leaf that bpt_lookup_lowest_leaf reaches from `n`. */
  ghost function Entered(m: Mem, root: Bpn, n: Bpn, length: int, vstart: int): (leaf: Bpn)
    requires Sound(m, root, -1) && n in m
    ensures leaf in m && m[leaf].leaf
    decreases m[n].h
  {
    if m[n].leaf then n
    else
      assert NodeOk(m, root, -1, n);
      var i := KidFrom(m[n], 0, length, vstart);
      assert KidOk(m, n, i) && NodeOk(m, root, -1, m[n].subl[i]);
      Entered(m, root, m[n].subl[i], length, vstart)
  }

  // `r` is the lowest large range from `vs` on, and lies below a node `q` that begins at `vs`.
  ghost predicate Leads(m: Mem, q: Bpn, r: Range, length: int, vs: int) {
    && q in m && m[q].lo == vs && r in Recs(m) && Holds(m[q], r.start) && Size(r) >= length
    && forall x :: x in Recs(m) && x.start >= vs && Size(x) >= length ==> r.start <= x.start
  }

  // A search that starts at a boundary followed by a large range goes to that range.
  lemma HomingStep(m: Mem, root: Bpn, n: Bpn, i: nat, length: int, vs: int, q: Bpn, r: Range)
    requires Sound(m, root, -1) && n in m && !m[n].leaf && InnerOk(m[n]) && Chosen(m[n], i, length, vs)
    requires Leads(m, q, r, length, vs) && Holds(m[n], r.start)
    ensures KLo(m[n], i) <= r.start < KHi(m[n], i)
  {
    var j := KidAt(m, root, -1, n, r.start);
    var c := m[n].subl[j];
    AvailBound(m, root, -1, c, r);
    assert EdgeOk(m, n, j);
    if i < j {
      HomingOvershoot(m, root, n, i, j, length, vs, q, r);
      assert false;
    }
  }

  // A child before the one that holds `r` is never chosen.
  lemma HomingOvershoot(m: Mem, root: Bpn, n: Bpn, k: nat, j: nat, length: int, vs: int, q: Bpn, r: Range)
    requires Sound(m, root, -1) && n in m && !m[n].leaf && InnerOk(m[n])
    requires Leads(m, q, r, length, vs) && k < j <= |m[n].slot| && KLo(m[n], j) <= r.start
    ensures !(vs < m[n].slot[k] && m[n].suba[k] >= length)
  {
    assert NodeOk(m, root, -1, n) && KidOk(m, n, k) && EdgeOk(m, n, k);
    var c := m[n].subl[k];
    assert m[n].slot[k] <= m[n].slot[j - 1];
    assert NodeOk(m, root, -1, c);
    if vs < m[n].slot[k] && m[n].suba[k] >= length {
      HasSpace(m, root, -1, c);
      var x := AvailAttained(m, root, -1, c);
      assert x.start < vs;
      if m[q].h <= m[c].h {
        Nest(m, root, -1, q, c, vs);
      } else {
        Nest(m, root, -1, c, q, vs);
      }
    }
  }

  // At the position mark of `n` the search has passed `vstart`, unless it took the last child.
  ghost predicate BeyondAt(m: Mem, path: seq<Bpn>, k: int, vstart: int)
    requires 0 <= k < |path|
  {
    && path[k] in m
    && (m[path[k]].ppos < |m[path[k]].slot| ==> vstart < m[path[k]].slot[m[path[k]].ppos])
  }

  ghost predicate Beyond(m: Mem, path: seq<Bpn>, vstart: int) {
    forall k {:trigger BeyondAt(m, path, k, vstart)} :: 0 <= k < |path| - 1 ==> BeyondAt(m, path, k, vstart)
  }

  // What the descent has established when it is at `n`.
  ghost predicate Reached(m0: Mem, m: Mem, root: Bpn, path: seq<Bpn>, n: Bpn, length: int, vstart: int) {
    && Sound(m, root, -1) && SameButMarks(m0, m) && PathOk(m, root, path) && path[|path| - 1] == n
    && NothingLeft(Recs(m0), m[n].lo, length, vstart) && Beyond(m, path, vstart)
    && forall q, r {:trigger Leads(m0, q, r, length, vstart)} ::
         q in m0 && Leads(m0, q, r, length, vstart) ==> Holds(m[n], r.start)
  }

  lemma BeyondStep(m: Mem, path: seq<Bpn>, n: Bpn, i: nat, length: int, vstart: int, root: Bpn)
    requires PathOk(m, root, path) && Beyond(m, path, vstart) && path[|path| - 1] == n
    requires Chosen(m[n], i, length, vstart) && i < |m[n].subl|
    ensures Beyond(m[n := m[n].(ppos := i)], path + [m[n].subl[i]], vstart)
  {
    var m', p := m[n := m[n].(ppos := i)], path + [m[n].subl[i]];
    forall k | 0 <= k < |p| - 1
      ensures BeyondAt(m', p, k, vstart)
    {
      if k < |path| - 1 {
        assert BeyondAt(m, path, k, vstart);
        assert m[path[k]].h != m[n].h;
      }
    }
  }

  lemma ReachStep(m0: Mem, m: Mem, root: Bpn, path: seq<Bpn>, n: Bpn, i: nat, length: int, vstart: int)
    requires Sound(m0, root, -1) && Reached(m0, m, root, path, n, length, vstart) && !m[n].leaf
    requires Chosen(m[n], i, length, vstart)
    ensures i < |m[n].subl|
    ensures var m', c := m[n := m[n].(ppos := i)], m[n].subl[i];
      Reached(m0, m', root, path + [c], c, length, vstart) && m'[c].h + 1 == m[n].h
  {
    MarksKeep(m0, m, root);
    assert NodeOk(m0, root, -1, n) && KidOk(m0, n, i);
    MarkStep(m0, m, root, path, n, i);
    BeyondStep(m, path, n, i, length, vstart, root);
    forall r | r in Recs(m0) && r.start < KLo(m0[n], i) && Size(r) >= length
      ensures r.end <= vstart
    {
      NothingLeftStep(m0, root, n, i, length, vstart, r);
    }
    forall q, r | q in m0 && Leads(m0, q, r, length, vstart)
      ensures KLo(m0[n], i) <= r.start < KHi(m0[n], i)
    {
      HomingStep(m0, root, n, i, length, vstart, q, r);
    }
  }

  lemma RecordWithin(m: Mem, root: Bpn, d: int, r: Range)
    requires Struct(m, root, d) && r in Recs(m)
    ensures 0 <= r.start < r.end <= W
  {
    var n: Bpn :| n in m && r in m[n].vas;
    assert NodeOk(m, root, d, n);
  }

  lemma ReachRoot(m: Mem, root: Bpn, length: int, vstart: int)
    requires Sound(m, root, -1)
    ensures Reached(m, m, root, [root], root, length, vstart)
  {
    assert NodeOk(m, root, -1, root);
    forall r | r in Recs(m)
      ensures 0 <= r.start < W
    {
      RecordWithin(m, root, -1, r);
    }
  }

  // The inner loop: the first child that begins early enough and holds enough.
  method ChooseChild(n: Bpn, ghost v: Nd, length: int, vstart: int) returns (i: nat)
    requires Same(n, v) && |v.suba| == |v.slot| + 1
    ensures Chosen(v, i, length, vstart)
  {
    i := 0;
    while i < |n.slot|
      invariant i <= |n.slot|
      invariant forall k :: 0 <= k < i ==> !(vstart < n.slot[k] && n.suba[k] >= length)
    {
      if vstart < n.slot[i] && n.suba[i] >= length {
        break;
      }
      i := i + 1;
    }
  }

  method BptLookupLowestLeaf(t: BptRoot, length: int, vstart: int) returns (n: Bpn, ghost path: seq<Bpn>)
    requires Linked(t) && Sound(t.m, t.node, -1)
    modifies t`m, t.m.Keys
    ensures Linked(t) && Reached(old(t.m), t.m, t.node, path, n, length, vstart) && t.m[n].leaf
    ensures n == Entered(old(t.m), t.node, t.node, length, vstart)
  {
    n := t.node;
    path := [n];
    ghost var m0 := t.m;
    ReachRoot(t.m, t.node, length, vstart);
    assert See(n);
    while !n.leaf
      invariant Linked(t) && t.m.Keys <= old(t.m.Keys) && See(n) && Reached(old(t.m), t.m, t.node, path, n, length, vstart)
      invariant Entered(m0, t.node, n, length, vstart) == Entered(m0, t.node, t.node, length, vstart)
      decreases t.m[n].h
    {
      SearchReady(t.m, t.node, -1, n);
      var i := ChooseChild(n, t.m[n], length, vstart);
      ChosenIs(m0[n], i, 0, length, vstart);
      ReachStep(old(t.m), t.m, t.node, path, n, i, length, vstart);
      var c := n.subl[i];
      StorePpos(t, n, i);
      n := c;
      path := path + [c];
    }
  }

  // ---------- The climb to the next subtree ----------

  ghost predicate SmallBetween(f: set<Range>, lo: int, hi: int, length: int) {
    forall r :: r in f && lo <= r.start < hi ==> Size(r) < length
  }

  lemma SmallKid(m: Mem, root: Bpn, n: Bpn, i: nat, lo: int, length: int)
    requires Sound(m, root, -1) && n in m && !m[n].leaf && InnerOk(m[n]) && 0 < i < |m[n].subl| && m[n].suba[i] < length
    requires SmallBetween(Recs(m), lo, KHi(m[n], i - 1), length)
    ensures SmallBetween(Recs(m), lo, KHi(m[n], i), length)
  {
    assert EdgeOk(m, n, i) && NodeOk(m, root, -1, n) && KidOk(m, n, i);
    forall r | r in Recs(m) && lo <= r.start < KHi(m[n], i)
      ensures Size(r) < length
    {
      if r.start >= KLo(m[n], i) {
        AvailBound(m, root, -1, m[n].subl[i], r);
      }
    }
  }

  // A node begins at `vs` and a range of `length` bytes starts below it.
  ghost predicate StartsAt(m: Mem, root: Bpn, length: int, vs: int) {
    exists q :: q in m && q != root && m[q].lo == vs && MaxAvail(m[q]) >= length
  }

  lemma NextSubtree(m: Mem, root: Bpn, path: seq<Bpn>, k: int, i: nat, length: int, vstart: int)
    requires Sound(m, root, -1) && PathOk(m, root, path) && Beyond(m, path, vstart) && 0 <= k < |path| - 1
    requires !m[path[k]].leaf && InnerOk(m[path[k]]) && m[path[k]].ppos < i < |m[path[k]].subl| && m[path[k]].suba[i] >= length
    ensures StartsAt(m, root, length, m[path[k]].slot[i - 1]) && m[path[k]].slot[i - 1] > vstart
  {
    var n := path[k];
    assert BeyondAt(m, path, k, vstart) && EdgeOk(m, n, i) && NodeOk(m, root, -1, n) && KidOk(m, n, i);
    assert NodeOk(m, root, -1, m[n].subl[i]);
  }

  method FirstNextSubAvail(t: BptRoot, leaf: Bpn, length: int, vstart: int, ghost path: seq<Bpn>)
      returns (found: bool, vs: int)
    requires Linked(t) && Sound(t.m, t.node, -1) && PathOk(t.m, t.node, path) && path[|path| - 1] == leaf && Beyond(t.m, path, vstart)
    ensures !found ==> vs == vstart && SmallBetween(Recs(t.m), t.m[leaf].hi, W, length)
    ensures found ==> vs > vstart && StartsAt(t.m, t.node, length, vs) && SmallBetween(Recs(t.m), t.m[leaf].hi, vs, length)
    ensures found ==> t.m[leaf].hi <= vs
  {
    var n := leaf;
    ghost var m, k := t.m, |path| - 1;
    vs := vstart;
    Climb(m, t.node, -1, path, k);
    assert See(n);
    while n.parent != null
      invariant 0 <= k < |path| && n == path[k] && See(n) && SmallBetween(Recs(m), m[leaf].hi, m[n].hi, length)
      invariant m[leaf].hi <= m[n].hi
      decreases k
    {
      Climb(m, t.node, -1, path, k);
      n, k := n.parent, k - 1;
      assert See(n);
      var i := n.ppos + 1;
      while i < |n.slot| + 1
        invariant m[n].ppos < i <= |m[n].slot| + 1 && SmallBetween(Recs(m), m[leaf].hi, KHi(m[n], i - 1), length)
        invariant m[leaf].hi <= KHi(m[n], i - 1)
      {
        if n.suba[i] >= length {
          NextSubtree(m, t.node, path, k, i, length, vstart);
          return true, n.slot[i - 1];
        }
        SmallKid(m, t.node, n, i, m[leaf].hi, length);
        i := i + 1;
      }
    }
    assert NodeOk(m, t.node, -1, n);
    found := false;
  }
}
