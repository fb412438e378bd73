/** The preemptive step of the deletion descent: a minimal child gets an entry from a sibling or is
    merged with one before the search enters it. */
module Rebalance {
  import opened Words
  import opened Node
  import opened Shape
  import opened Avail
  import opened Cutting
  import opened Merging
  import opened RootOps
  import opened Store
  import opened Tree
  import opened MergeOps
  import opened ShiftOps
  import opened Keeps

  ghost predicate Sound(m: Mem, root: Bpn, d: int) {
    Trim(m, root, d) && SizeOk(m, root)
  }

  ghost predicate Roomy(m: Mem, root: Bpn, n: Bpn)
    requires n in m
  {
    n == root || Entries(m[n]) > MinEntries(m[n].leaf)
  }

  // `n` is a minimal child of the roomy node `p`, on the left or right of separator `i`, and covers `val`.
  ghost predicate Tight(m: Mem, root: Bpn, d: int, p: Bpn, i: nat, n: Bpn, val: int) {
    && Sound(m, root, d) && Siblings(m, root, d, p, i) && Roomy(m, root, p)
    && (n == m[p].subl[i] || n == m[p].subl[i + 1]) && n in m
    && Entries(m[n]) <= MinEntries(m[n].leaf) && Holds(m[n], val) && (d == -1 || d == val)
  }

  // The search can go on in `n`.
  ghost predicate Open(m: Mem, root: Bpn, d: int, n: Bpn, val: int) {
    Sound(m, root, d) && n in m && Holds(m[n], val) && Roomy(m, root, n)
  }

  // Nothing above `p` has changed.
  ghost predicate SameAbove(m: Mem, m': Mem, p: Bpn)
    requires p in m
  {
    && p in m' && m'[p].h == m[p].h && m'[p].leaf == m[p].leaf
    && forall x :: x in m && m[x].h > m[p].h ==> x in m' && m'[x] == m[x]
  }

  lemma CutAbove(m: Mem, root: Bpn, d: int, s: Site)
    requires Struct(m, root, d) && Cuttable(m, s)
    ensures SameAbove(m, Cut(m, s), s.p)
  {
    CutStart(m, root, d, s);
    var c := m[s.p].subl[s.i];
    forall x | x in m && m[x].h > m[s.p].h
      ensures Cut(m, s)[x] == m[x]
    {
      assert NodeOk(m, root, d, x);
      if !m[c].leaf && x != root && m[x].parent == c {
        var q, j := UpEdge(m, root, d, x);
      }
    }
  }

  lemma MergeAbove(m: Mem, root: Bpn, d: int, p: Bpn, i: nat, a: int)
    requires Struct(m, root, d) && Mergeable(m, p, i)
    ensures SameAbove(m, Merge(m, p, i, a), p)
  {
    MergeStart(m, root, d, p, i);
    var r := m[p].subl[i + 1];
    forall x | x in m && m[x].h > m[p].h
      ensures x in Merge(m, p, i, a) && Merge(m, p, i, a)[x] == m[x]
    {
      assert NodeOk(m, root, d, x);
      if !m[r].leaf && x != root && m[x].parent == r {
        var q, j := UpEdge(m, root, d, x);
      }
    }
  }

  lemma RedividedEntries(m: Mem, root: Bpn, d: int, p: Bpn, i: nat, k: nat, al: int, ar: int, n: Bpn)
    requires Struct(m, root, d) && Redividable(m, p, i, k) && n in m
    ensures var l, r, m' := m[p].subl[i], m[p].subl[i + 1], Redivided(m, p, i, k, al, ar);
      && n in m' && m'[n].leaf == m[n].leaf
      && Entries(m'[n]) == if n == l then k else if n == r then Entries(m[l]) + Entries(m[r]) - k else Entries(m[n])
  {
    MergeStart(m, root, d, p, i);
  }

  lemma RedividedSizes(m: Mem, root: Bpn, d: int, p: Bpn, i: nat, k: nat, al: int, ar: int)
    requires Struct(m, root, d) && SizeOk(m, root) && Redividable(m, p, i, k)
    requires var l, r := m[p].subl[i], m[p].subl[i + 1];
      var e := Entries(m[l]) + Entries(m[r]) - k;
      && MinEntries(m[l].leaf) <= k <= MAX_ENTRIES && MinEntries(m[l].leaf) <= e <= MAX_ENTRIES
    ensures SizeOk(Redivided(m, p, i, k, al, ar), root)
  {
    var l, r := m[p].subl[i], m[p].subl[i + 1];
    var m' := Redivided(m, p, i, k, al, ar);
    SiblingsNotRoot(m, root, d, p, i);
    forall n | n in m'
      ensures && Entries(m'[n]) <= MAX_ENTRIES && (n != root ==> Entries(m'[n]) >= MinEntries(m'[n].leaf))
              && (n == root && !m'[n].leaf ==> Entries(m'[n]) >= 1)
    {
      RedividedEntries(m, root, d, p, i, k, al, ar, n);
      assert Entries(m[n]) <= MAX_ENTRIES;
    }
  }

  lemma SiblingsNotRoot(m: Mem, root: Bpn, d: int, p: Bpn, i: nat)
    requires Struct(m, root, d) && Mergeable(m, p, i)
    ensures m[p].subl[i] != root && m[p].subl[i + 1] != root
  {
    MergeStart(m, root, d, p, i);
  }

  // Where the border between the siblings comes to lie after a shift.
  lemma ShiftLeftBorder(m: Mem, root: Bpn, d: int, p: Bpn, i: nat, k: nat, val: int, al: int, ar: int)
    requires Struct(m, root, d) && Mergeable(m, p, i) && CanShiftLeft(m, p, i) && k == Entries(m[m[p].subl[i]]) + 1 && Redividable(m, p, i, k)
    requires Holds(m[m[p].subl[i]], val) && (d == -1 || d == val)
    ensures var l, r, m' := m[p].subl[i], m[p].subl[i + 1], Redivided(m, p, i, k, al, ar);
      && l in m' && Holds(m'[l], val) && (m[l].leaf ==> (m[l].vas + m[r].vas)[k].start !in {d, val})
  {
    MergeStart(m, root, d, p, i);
  }

  lemma ShiftRightBorder(m: Mem, root: Bpn, d: int, p: Bpn, i: nat, k: nat, val: int, al: int, ar: int)
    requires Struct(m, root, d) && Mergeable(m, p, i) && CanShiftRight(m, p, i) && k + 1 == Entries(m[m[p].subl[i]]) && Redividable(m, p, i, k)
    requires Holds(m[m[p].subl[i + 1]], val) && (d == -1 || d == val)
    ensures var l, r, m' := m[p].subl[i], m[p].subl[i + 1], Redivided(m, p, i, k, al, ar);
      && r in m' && Holds(m'[r], val) && (m[l].leaf ==> (m[l].vas + m[r].vas)[k].start !in {d, val})
  {
    MergeStart(m, root, d, p, i);
    var l, r := m[p].subl[i], m[p].subl[i + 1];
    if m[l].leaf {
      assert (m[l].vas + m[r].vas)[k] == m[l].vas[k];
    } else {
      assert (m[l].slot + [m[p].slot[i]] + m[r].slot)[k] == m[l].slot[k];
    }
    assert CutKey(Joined(m[l], m[r], m[p].slot[i]), k) < m[l].hi;
  }

  lemma ShiftedLeft(m: Mem, root: Bpn, d: int, p: Bpn, i: nat, k: nat, val: int, al: int, ar: int)
    requires Mergeable(m, p, i) && Tight(m, root, d, p, i, m[p].subl[i], val) && CanShiftLeft(m, p, i)
    requires k == Entries(m[m[p].subl[i]]) + 1 && Redividable(m, p, i, k)
    requires al == MaxAvail(Redivide(m, p, i, k)[m[p].subl[i]]) && ar == MaxAvail(Redivide(m, p, i, k)[m[p].subl[i + 1]])
    ensures var m' := Redivided(m, p, i, k, al, ar);
      && Open(m', root, d, m[p].subl[i], val) && SameRecords(m, m', val)
  {
    var l, r := m[p].subl[i], m[p].subl[i + 1];
    SiblingsFacts(m, root, d, p, i);
    ShiftLeftBorder(m, root, d, p, i, k, val, al, ar);
    RedividedKeeps(m, root, d, p, i, k, al, ar, val);
    RedividedSizes(m, root, d, p, i, k, al, ar);
    RedividedEntries(m, root, d, p, i, k, al, ar, l);
  }

  lemma ShiftedRight(m: Mem, root: Bpn, d: int, p: Bpn, i: nat, k: nat, val: int, al: int, ar: int)
    requires Mergeable(m, p, i) && Tight(m, root, d, p, i, m[p].subl[i + 1], val) && CanShiftRight(m, p, i)
    requires k + 1 == Entries(m[m[p].subl[i]]) && Redividable(m, p, i, k)
    requires al == MaxAvail(Redivide(m, p, i, k)[m[p].subl[i]]) && ar == MaxAvail(Redivide(m, p, i, k)[m[p].subl[i + 1]])
    ensures var m' := Redivided(m, p, i, k, al, ar);
      && Open(m', root, d, m[p].subl[i + 1], val) && SameRecords(m, m', val)
  {
    var l, r := m[p].subl[i], m[p].subl[i + 1];
    SiblingsFacts(m, root, d, p, i);
    ShiftRightBorder(m, root, d, p, i, k, val, al, ar);
    RedividedKeeps(m, root, d, p, i, k, al, ar, val);
    RedividedSizes(m, root, d, p, i, k, al, ar);
    RedividedEntries(m, root, d, p, i, k, al, ar, r);
  }

  lemma MergedEntries(m: Mem, root: Bpn, d: int, p: Bpn, i: nat, a: int, n: Bpn)
    requires Struct(m, root, d) && Mergeable(m, p, i) && n in m && n != m[p].subl[i + 1]
    ensures var l, r, m' := m[p].subl[i], m[p].subl[i + 1], Merge(m, p, i, a);
      && n in m' && m'[n].leaf == m[n].leaf
      && Entries(m'[n]) == if n == l then Entries(m[l]) + Entries(m[r]) + (if m[l].leaf then 0 else 1)
                           else if n == p then Entries(m[p]) - 1 else Entries(m[n])
  {
    MergeStart(m, root, d, p, i);
  }

  // Merging two minimal siblings: all occupancy bounds hold again, except that a root may run empty.
  lemma MergedSizes(m: Mem, root: Bpn, d: int, p: Bpn, i: nat, a: int)
    requires Struct(m, root, d) && SizeOk(m, root) && Mergeable(m, p, i) && Roomy(m, root, p)
    requires var l, r := m[p].subl[i], m[p].subl[i + 1];
      Entries(m[l]) <= MinEntries(m[l].leaf) && Entries(m[r]) <= MinEntries(m[r].leaf)
    ensures !(p == root && Entries(m[p]) == 1) ==> SizeOk(Merge(m, p, i, a), root)
    ensures forall n :: n in Merge(m, p, i, a) && n != root ==>
      MinEntries(Merge(m, p, i, a)[n].leaf) <= Entries(Merge(m, p, i, a)[n]) <= MAX_ENTRIES
  {
    var m' := Merge(m, p, i, a);
    SiblingsNotRoot(m, root, d, p, i);
    forall n | n in m'
      ensures && Entries(m'[n]) <= MAX_ENTRIES && (n != root ==> Entries(m'[n]) >= MinEntries(m'[n].leaf))
              && (n == root && !m'[n].leaf && !(p == root && Entries(m[p]) == 1) ==> Entries(m'[n]) >= 1)
    {
      MergedEntries(m, root, d, p, i, a, n);
      assert Entries(m[n]) <= MAX_ENTRIES && Entries(m[m[p].subl[i]]) >= 0 && Entries(m[m[p].subl[i + 1]]) >= 0;
    }
  }

  // After a merge the search goes on in `l`, which replaces the root if that has run empty.
  ghost predicate MergedDown(m: Mem, m': Mem, root: Bpn, d: int, p: Bpn, l: Bpn, val: int)
    requires p in m' && l in m'
  {
    if |m'[p].slot| == 0 && p == root then
      !m'[p].leaf && |m'[p].subl| == 1 && m'[p].subl[0] == l
      && Open(Collapse(m', p), l, d, l, val) && SameRecords(m, Collapse(m', p), val)
    else Open(m', root, d, l, val)
  }

  lemma Merged(m: Mem, root: Bpn, d: int, p: Bpn, i: nat, n: Bpn, val: int, a: int)
    requires Mergeable(m, p, i) && Tight(m, root, d, p, i, n, val)
    requires var l, r := m[p].subl[i], m[p].subl[i + 1];
      && Entries(m[l]) <= MinEntries(m[l].leaf) && Entries(m[r]) <= MinEntries(m[r].leaf)
      && a == MaxAvail(Joined(m[l], m[r], m[p].slot[i]))
    ensures var l, m' := m[p].subl[i], Merge(m, p, i, a);
      p in m' && l in m' && SameRecords(m, m', val) && MergedDown(m, m', root, d, p, l, val)
  {
    var l, r := m[p].subl[i], m[p].subl[i + 1];
    var m' := Merge(m, p, i, a);
    MergeKeeps(m, root, d, p, i, a, val);
    MergedSizes(m, root, d, p, i, a);
    MergedEntries(m, root, d, p, i, a, l);
    MergedEntries(m, root, d, p, i, a, p);
    MergeStart(m, root, d, p, i);
    assert MinEntries(m[l].leaf) <= Entries(m[l]);
    assert Holds(m'[l], val);
    assert NodeOk(m', root, d, p);
    if |m'[p].slot| == 0 && p == root {
      Collapsed(m', p, d, l, val);
      SameRecordsTrans(m, m', Collapse(m', p), val);
    }
  }

  lemma Collapsed(m: Mem, root: Bpn, d: int, l: Bpn, val: int)
    requires Trim(m, root, d) && !m[root].leaf && |m[root].slot| == 0 && |m[root].subl| > 0 && m[root].subl[0] == l && l in m && Holds(m[l], val)
    requires forall n :: n in m && n != root ==> MinEntries(m[n].leaf) <= Entries(m[n]) <= MAX_ENTRIES
    ensures |m[root].subl| == 1 && Open(Collapse(m, root), l, d, l, val) && SameRecords(m, Collapse(m, root), val)
  {
    assert NodeOk(m, root, d, root);
    CollapseStruct(m, root, d);
    CollapseAvail(m, root, d);
    RootOpsRecords(m, root, d, root, 0);
    var m' := Collapse(m, root);
    assert forall n :: n in m' ==> Entries(m'[n]) == Entries(m[n]) && m'[n].leaf == m[n].leaf && m'[n].lo == m[n].lo;
    forall x | x in Los(m')
      ensures x in Los(m)
    {
      var n :| n in m' && m'[n].lo == x;
      assert m[n].lo == x;
    }
  }
}
