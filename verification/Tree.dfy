/** The tree root, the whole invariant, and the paths that the position marks record. */
module Tree {
  import opened Words
  import opened Node
  import opened Shape
  import opened Avail
  import opened Store

  // Occupancy: a node other than the root is at least half full, an internal root has two children.
  ghost predicate SizeOk(m: Mem, root: Bpn) {
    forall n {:trigger Entries(m[n])} :: n in m ==>
      && Entries(m[n]) <= MAX_ENTRIES
      && (n != root ==> Entries(m[n]) >= MinEntries(m[n].leaf))
      && (n == root && !m[n].leaf ==> Entries(m[n]) >= 1)
  }

  // `path` leads from the root to its last node along the position marks.
  ghost predicate PathOk(m: Mem, root: Bpn, path: seq<Bpn>) {
    && root in m && path != [] && path[0] == root
    && (forall k :: 0 <= k < |path| ==> path[k] in m && m[path[k]].h + k == m[root].h)
    && (forall k {:trigger PathStep(m, path, k)} :: 0 <= k < |path| - 1 ==> PathStep(m, path, k))
  }

  ghost predicate PathStep(m: Mem, path: seq<Bpn>, k: int)
    requires 0 <= k < |path| - 1 && path[k] in m
  {
    Marked(m, path[k], path[k + 1])
  }

  ghost predicate Marked(m: Mem, n: Bpn, c: Bpn)
    requires n in m
  {
    !m[n].leaf && m[n].ppos < |m[n].subl| && m[n].subl[m[n].ppos] == c
  }

  // `m'` differs from `m` in nothing but SUB_AVAIL values and position marks.
  ghost predicate SameShape(m: Mem, m': Mem) {
    && m'.Keys == m.Keys
    && forall n {:trigger m'[n]} :: n in m ==>
         m'[n] == m[n].(ppos := m'[n].ppos, suba := m'[n].suba) && |m'[n].suba| == |m[n].suba|
  }

  lemma SameShapeStruct(m: Mem, m': Mem, root: Bpn, d: int)
    requires Struct(m, root, d) && SameShape(m, m')
    ensures Struct(m', root, d)
  {
    forall n | n in m'
      ensures NodeOk(m', root, d, n)
    {
      assert NodeOk(m, root, d, n);
      if !m[n].leaf {
        forall i | 0 <= i < |m'[n].subl|
          ensures KidOk(m', n, i)
        {
          assert KidOk(m, n, i);
        }
      }
    }
  }

  lemma SameShapeRest(m: Mem, m': Mem, root: Bpn)
    requires SameShape(m, m')
    ensures SizeOk(m, root) ==> SizeOk(m', root)
    ensures Recs(m') == Recs(m)
  {
    if SizeOk(m, root) {
      forall n | n in m'
        ensures Entries(m'[n]) == Entries(m[n])
      {}
    }
    forall x | x in Recs(m)
      ensures x in Recs(m')
    {
      var n: Bpn :| n in m && x in m[n].vas;
      assert x in m'[n].vas;
    }
    forall x | x in Recs(m')
      ensures x in Recs(m)
    {
      var n: Bpn :| n in m' && x in m'[n].vas;
      assert x in m[n].vas;
    }
  }

  method BpnMaxAvail(n: Bpn, ghost v: Nd) returns (avail: int)
    requires Same(n, v)
    ensures avail == MaxAvail(v)
  {
    avail := 0;
    if !n.leaf {
      for i := 0 to |n.suba|
        invariant avail == MaxOf(n.suba[..i])
      {
        assert n.suba[..i + 1][..i] == n.suba[..i];
        if n.suba[i] > avail {
          avail := n.suba[i];
        }
      }
      assert n.suba[..|n.suba|] == n.suba;
    } else {
      ghost var s := Sizes(n.vas);
      for i := 0 to |n.vas|
        invariant avail == MaxOf(s[..i])
      {
        assert s[..i + 1][..i] == s[..i];
        var va := n.vas[i];
        if Size(va) > avail {
          avail := Size(va);
        }
      }
      assert s[..|s|] == s;
    }
  }

  // Recording `a` for child `i` of `p` settles that entry and leaves only the one above `p` open.
  lemma SubaStep(m: Mem, root: Bpn, d: int, p: Bpn, i: int, a: int)
    requires Struct(m, root, d) && p in m && !m[p].leaf && 0 <= i < |m[p].subl| == |m[p].suba|
    requires AvailOk(m, m[p].subl[i]) && m[p].subl[i] in m && a == MaxAvail(m[m[p].subl[i]])
    ensures AvailOk(m[p := m[p].(suba := m[p].suba[i := a])], p)
    ensures SameShape(m, m[p := m[p].(suba := m[p].suba[i := a])])
  {
    var m' := m[p := m[p].(suba := m[p].suba[i := a])];
    forall n: Bpn, j | n in m' && 0 <= j < |m'[n].subl| == |m'[n].suba| && m'[n].subl[j] != p
      ensures EdgeOk(m', n, j)
    {
      assert NodeOk(m, root, d, n) && KidOk(m, n, j);
      if m[n].subl[j] == m[p].subl[i] {
        assert NodeOk(m, root, d, p) && KidOk(m, p, i);
        assert n == p && i == j;
      } else {
        assert EdgeOk(m, n, j);
      }
    }
  }

  // `m'` differs from `m` in nothing but SUB_AVAIL values.
  ghost predicate SameButSuba(m: Mem, m': Mem) {
    && m'.Keys == m.Keys
    && forall n {:trigger m'[n]} :: n in m ==> m'[n] == m[n].(suba := m'[n].suba) && |m'[n].suba| == |m[n].suba|
  }

  lemma SameButSubaKeeps(m: Mem, m': Mem, root: Bpn, d: int, path: seq<Bpn>)
    requires Struct(m, root, d) && SameButSuba(m, m')
    ensures Struct(m', root, d)
    ensures PathOk(m, root, path) ==> PathOk(m', root, path)
  {
    SameShapeStruct(m, m', root, d);
    if PathOk(m, root, path) {
      forall k | 0 <= k < |path| - 1
        ensures PathStep(m', path, k)
      {
        assert PathStep(m, path, k);
      }
    }
  }

  // The node above path[k], if any, is path[k - 1], and its position mark points at path[k].
  lemma Climb(m: Mem, root: Bpn, d: int, path: seq<Bpn>, k: int)
    requires Struct(m, root, d) && PathOk(m, root, path) && 0 <= k < |path|
    ensures m[path[k]].parent == null <==> k == 0
    ensures k > 0 ==> m[path[k]].parent == path[k - 1] && !m[path[k - 1]].leaf && InnerOk(m[path[k - 1]])
                      && m[path[k - 1]].ppos < |m[path[k - 1]].subl| && m[path[k - 1]].subl[m[path[k - 1]].ppos] == path[k]
                      && KidOk(m, path[k - 1], m[path[k - 1]].ppos)
  {
    assert NodeOk(m, root, d, path[k]);
    if k > 0 {
      assert PathStep(m, path, k - 1);
      assert NodeOk(m, root, d, path[k - 1]) && KidOk(m, path[k - 1], m[path[k - 1]].ppos);
    }
  }

  // The open entry is settled when it matches, or when the open node is the root.
  lemma Settled(m: Mem, root: Bpn, d: int, n: Bpn)
    requires Struct(m, root, d) && AvailOk(m, n) && n in m
    requires n != root ==>
      m[n].parent in m && exists i :: 0 <= i < |m[m[n].parent].subl| == |m[m[n].parent].suba| && m[m[n].parent].subl[i] == n && EdgeOk(m, m[n].parent, i)
    ensures AvailOk(m, null)
  {
    forall q: Bpn, j | q in m && 0 <= j < |m[q].subl| == |m[q].suba|
      ensures EdgeOk(m, q, j)
    {
      assert NodeOk(m, root, d, q) && KidOk(m, q, j) && NodeOk(m, root, d, n);
      if m[q].subl[j] == n {
        var i :| 0 <= i < |m[q].subl| && m[q].subl[i] == n && EdgeOk(m, q, i);
        assert KidOk(m, q, i);
        assert i == j;
      } else {
        assert EdgeOk(m, q, j);
      }
    }
  }

  // The index under which `p` lists its child `n`.
  ghost function KidIndex(p: Nd, n: Bpn): (i: nat)
    requires n in p.subl
    ensures i < |p.subl| && p.subl[i] == n
  {
    var i :| 0 <= i < |p.subl| && p.subl[i] == n;
    i
  }

  lemma KidIndexUnique(m: Mem, root: Bpn, d: int, p: Bpn, i: nat)
    requires Struct(m, root, d) && p in m && !m[p].leaf && i < |m[p].subl|
    ensures KidIndex(m[p], m[p].subl[i]) == i
  {
    var j := KidIndex(m[p], m[p].subl[i]);
    assert NodeOk(m, root, d, p) && KidOk(m, p, i) && KidOk(m, p, j);
  }

  // The facts about the node above `n` that the climb uses.
  lemma ParentOf(m: Mem, root: Bpn, d: int, n: Bpn)
    requires Struct(m, root, d) && n in m
    ensures m[n].h <= m[root].h && (m[n].parent == null <==> n == root)
    ensures n != root ==> m[n].parent in m && !m[m[n].parent].leaf && n in m[m[n].parent].subl
                          && InnerOk(m[m[n].parent]) && m[m[n].parent].h == m[n].h + 1
  {
    assert NodeOk(m, root, d, n);
    if n != root {
      var p, i := UpEdge(m, root, d, n);
    }
  }

  lemma SetSubaStruct(m: Mem, root: Bpn, d: int, p: Bpn, i: nat, a: int)
    requires Struct(m, root, d) && p in m && i < |m[p].suba|
    ensures Struct(SetSuba(m, p, i, a), root, d) && SameButSuba(m, SetSuba(m, p, i, a))
  {
    assert SameShape(m, SetSuba(m, p, i, a));
    SameShapeStruct(m, SetSuba(m, p, i, a), root, d);
  }

  /** The climb from `n`: record the maximum of the node in its parent and go on from there, but stop
      as soon as the parent already has that value. */
  ghost function Fixup(m: Mem, root: Bpn, d: int, n: Bpn): Mem
    requires Struct(m, root, d) && n in m
    decreases m[root].h - m[n].h
  {
    ParentOf(m, root, d, n);
    if n == root then m
    else
      var p := m[n].parent;
      var i := KidIndex(m[p], n);
      var a := MaxAvail(m[n]);
      if m[p].suba[i] == a then m
      else
        SetSubaStruct(m, root, d, p, i, a);
        ParentOf(m, root, d, p);
        Fixup(SetSuba(m, p, i, a), root, d, p)
  }

  // The climb repairs the augmentation although it may stop before the root.
  lemma {:induction false} FixupSound(m: Mem, root: Bpn, d: int, n: Bpn)
    requires Struct(m, root, d) && n in m && AvailOk(m, n)
    ensures Struct(Fixup(m, root, d, n), root, d)
    ensures AvailOk(Fixup(m, root, d, n), null) && SameButSuba(m, Fixup(m, root, d, n))
    decreases m[root].h - m[n].h
  {
    ParentOf(m, root, d, n);
    if n == root {
      Settled(m, root, d, n);
    } else {
      var p := m[n].parent;
      var i := KidIndex(m[p], n);
      var a := MaxAvail(m[n]);
      if m[p].suba[i] == a {
        assert EdgeOk(m, p, i);
        Settled(m, root, d, n);
      } else {
        SubaStep(m, root, d, p, i, a);
        SetSubaStruct(m, root, d, p, i, a);
        ParentOf(m, root, d, p);
        FixupSound(SetSuba(m, p, i, a), root, d, p);
      }
    }
  }

  // One round of either climbing loop, for the index `i` at which the parent lists `n`.
  lemma FixupRound(m: Mem, root: Bpn, d: int, n: Bpn)
    requires Struct(m, root, d) && n in m
    ensures m[n].parent == null ==> Fixup(m, root, d, n) == m
    ensures m[n].parent != null ==>
      var p := m[n].parent;
      && p in m && !m[p].leaf && n in m[p].subl && InnerOk(m[p]) && m[p].h <= m[root].h && m[p].h == m[n].h + 1
      && var i, a := KidIndex(m[p], n), MaxAvail(m[n]);
      && Struct(SetSuba(m, p, i, a), root, d) && SameButSuba(m, SetSuba(m, p, i, a))
      && Fixup(m, root, d, n) == if m[p].suba[i] == a then m else Fixup(SetSuba(m, p, i, a), root, d, p)
  {
    ParentOf(m, root, d, n);
    if n != root {
      var p := m[n].parent;
      SetSubaStruct(m, root, d, p, KidIndex(m[p], n), MaxAvail(m[n]));
      ParentOf(m, root, d, p);
    }
  }

  // On a marked path the position mark is the index of the child.
  lemma MarkedRound(m: Mem, root: Bpn, d: int, path: seq<Bpn>, k: int)
    requires Struct(m, root, d) && PathOk(m, root, path) && 0 <= k < |path| && m[path[k]].parent != null
    ensures k > 0 && m[path[k]].parent == path[k - 1]
    ensures var p, a := path[k - 1], MaxAvail(m[path[k]]);
      && m[p].ppos < |m[p].suba| && var m' := SetSuba(m, p, m[p].ppos, a);
      && Struct(m', root, d) && PathOk(m', root, path) && SameButSuba(m, m')
      && Fixup(m, root, d, path[k]) == if m[p].suba[m[p].ppos] == a then m else Fixup(m', root, d, p)
  {
    Climb(m, root, d, path, k);
    var p := path[k - 1];
    KidIndexUnique(m, root, d, p, m[p].ppos);
    FixupRound(m, root, d, path[k]);
    SameButSubaKeeps(m, SetSuba(m, p, m[p].ppos, MaxAvail(m[path[k]])), root, d, path);
  }

  // The climb that ends in `goal` has reached path[k].
  ghost predicate Climbing(m: Mem, root: Bpn, d: int, path: seq<Bpn>, k: int, goal: Mem) {
    Struct(m, root, d) && PathOk(m, root, path) && 0 <= k < |path| && Fixup(m, root, d, path[k]) == goal
  }

  lemma ClimbOn(m: Mem, root: Bpn, d: int, path: seq<Bpn>, k: int, goal: Mem)
    requires Climbing(m, root, d, path, k, goal)
    ensures m[path[k]].parent == null ==> m == goal
    ensures m[path[k]].parent != null ==>
      && k > 0 && m[path[k]].parent == path[k - 1] && path[k - 1] in m
      && var p, a := path[k - 1], MaxAvail(m[path[k]]);
      && m[p].ppos < |m[p].suba|
      && if m[p].suba[m[p].ppos] == a then m == goal else Climbing(SetSuba(m, p, m[p].ppos, a), root, d, path, k - 1, goal)
  {
    if m[path[k]].parent == null {
      FixupRound(m, root, d, path[k]);
    } else {
      MarkedRound(m, root, d, path, k);
    }
  }

  method FixupMetadata(t: BptRoot, n: Bpn, ghost path: seq<Bpn>, ghost d: int)
    requires Linked(t) && Struct(t.m, t.node, d) && PathOk(t.m, t.node, path) && path[|path| - 1] == n
    modifies t`m, t.m.Keys
    ensures Linked(t) && t.m == Fixup(old(t.m), t.node, d, n)
  {
    var node := n;
    ghost var k := |path| - 1;
    ghost var goal := Fixup(t.m, t.node, d, n);
    assert See(node);
    while node.parent != null
      invariant Linked(t) && t.m.Keys <= old(t.m.Keys) && Climbing(t.m, t.node, d, path, k, goal)
      invariant node == path[k] && See(node)
      decreases k
    {
      ClimbOn(t.m, t.node, d, path, k, goal);
      var parent := node.parent;
      assert See(parent);
      var childIndex := parent.ppos;
      var maxAvail := BpnMaxAvail(node, t.m[node]);
      if parent.suba[childIndex] == maxAvail {
        return;
      }
      StoreSuba(t, parent, childIndex, maxAvail);
      node := parent;
      k := k - 1;
    }
    ClimbOn(t.m, t.node, d, path, k, goal);
  }
}
