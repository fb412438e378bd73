/** Growing the tree by a new root and dropping an emptied root, value level. */
module RootOps {
  import opened Words
  import opened Node
  import opened Shape
  import opened Avail

  // A new root `nr` above the old one; it has a single child until that child is split.
  ghost function Grow(m: Mem, root: Bpn, nr: Bpn, a: int): Mem
    requires root in m
  {
    m[root := m[root].(parent := nr)]
     [nr := Nd(false, null, 0, [], [root], [a], [], null, null, 0, W, m[root].h + 1)]
  }

  lemma GrowNode(m: Mem, root: Bpn, d: int, nr: Bpn, a: int, n: Bpn)
    requires Struct(m, root, d) && nr !in m && n in m
    ensures NodeOk(Grow(m, root, nr, a), nr, d, n)
  {
    var m' := Grow(m, root, nr, a);
    assert NodeOk(m, root, d, n) && NodeOk(m, root, d, root);
    if !m[n].leaf {
      forall i | 0 <= i < |m'[n].subl|
        ensures KidOk(m', n, i)
      {
        assert KidOk(m, n, i);
      }
    }
    if n == root {
      assert m'[nr].subl[0] == root;
    }
  }

  lemma GrowStruct(m: Mem, root: Bpn, d: int, nr: Bpn, a: int)
    requires Struct(m, root, d) && nr !in m
    ensures Struct(Grow(m, root, nr, a), nr, d)
  {
    var m' := Grow(m, root, nr, a);
    forall n | n in m'
      ensures NodeOk(m', nr, d, n)
    {
      if n == nr {
        assert NodeOk(m, root, d, root);
      } else {
        GrowNode(m, root, d, nr, a, n);
      }
    }
  }

  lemma GrowAvail(m: Mem, root: Bpn, d: int, nr: Bpn)
    requires Struct(m, root, d) && nr !in m && AvailOk(m, null)
    ensures AvailOk(Grow(m, root, nr, MaxAvail(m[root])), null)
  {
    var m' := Grow(m, root, nr, MaxAvail(m[root]));
    forall n: Bpn, i | n in m' && 0 <= i < |m'[n].subl| == |m'[n].suba|
      ensures EdgeOk(m', n, i)
    {
      if n != nr {
        assert EdgeOk(m, n, i) && NodeOk(m, root, d, n) && KidOk(m, n, i);
      }
    }
  }

  // The root has lost its last separator: its only child takes its place.
  ghost function Collapse(m: Mem, root: Bpn): Mem
    requires root in m && |m[root].subl| == 1 && m[root].subl[0] in m
  {
    (m - {root})[m[root].subl[0] := m[m[root].subl[0]].(parent := null)]
  }

  lemma CollapseNode(m: Mem, root: Bpn, d: int, n: Bpn)
    requires Struct(m, root, d) && !m[root].leaf && |m[root].subl| == 1 && n in m && n != root
    ensures m[root].subl[0] in m && NodeOk(Collapse(m, root), m[root].subl[0], d, n)
  {
    var c := m[root].subl[0];
    assert NodeOk(m, root, d, root) && KidOk(m, root, 0) && NodeOk(m, root, d, n) && NodeOk(m, root, d, c);
    var m' := Collapse(m, root);
    if n != c {
      if m[n].h >= m[c].h {
        Nest(m, root, d, c, n, m[n].lo);
      }
      var p, j := UpEdge(m, root, d, n);
    }
    if !m[n].leaf {
      forall i | 0 <= i < |m'[n].subl|
        ensures KidOk(m', n, i)
      {
        assert KidOk(m, n, i);
      }
    }
  }

  lemma CollapseStruct(m: Mem, root: Bpn, d: int)
    requires Struct(m, root, d) && !m[root].leaf && |m[root].subl| == 1
    ensures m[root].subl[0] in m && m[root].subl[0] != root && Struct(Collapse(m, root), m[root].subl[0], d)
  {
    assert NodeOk(m, root, d, root) && KidOk(m, root, 0);
    var m' := Collapse(m, root);
    forall n | n in m'
      ensures NodeOk(m', m[root].subl[0], d, n)
    {
      CollapseNode(m, root, d, n);
    }
  }

  lemma CollapseAvail(m: Mem, root: Bpn, d: int)
    requires Struct(m, root, d) && !m[root].leaf && |m[root].subl| == 1 && AvailOk(m, null)
    ensures m[root].subl[0] in m && AvailOk(Collapse(m, root), null)
  {
    assert NodeOk(m, root, d, root) && KidOk(m, root, 0);
    var m' := Collapse(m, root);
    forall n: Bpn, i | n in m' && 0 <= i < |m'[n].subl| == |m'[n].suba|
      ensures EdgeOk(m', n, i)
    {
      assert EdgeOk(m, n, i) && NodeOk(m, root, d, n) && KidOk(m, n, i);
    }
  }

  lemma RootOpsRecords(m: Mem, root: Bpn, d: int, nr: Bpn, a: int)
    requires Struct(m, root, d)
    ensures nr !in m ==> Recs(Grow(m, root, nr, a)) == Recs(m)
    ensures |m[root].subl| == 1 && !m[root].leaf ==> m[root].subl[0] in m && Recs(Collapse(m, root)) == Recs(m)
  {
    assert NodeOk(m, root, d, root);
    if nr !in m {
      var g := Grow(m, root, nr, a);
      forall x | x in Recs(m)
        ensures x in Recs(g)
      {
        var n: Bpn :| n in m && x in m[n].vas;
        assert x in g[n].vas;
      }
    }
    if |m[root].subl| == 1 && !m[root].leaf {
      assert KidOk(m, root, 0);
      var c := Collapse(m, root);
      forall x | x in Recs(m)
        ensures x in Recs(c)
      {
        var n: Bpn :| n in m && x in m[n].vas;
        assert x in c[n].vas;
      }
    }
  }
}
