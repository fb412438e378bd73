/** The structural invariant of the tree, stated node by node, and the geometry that follows from it. */
module Shape {
  import opened Words
  import opened Node

  // The interval of the i-th child of an internal node.
  ghost function KLo(v: Nd, i: int): int
    requires 0 <= i <= |v.slot|
  {
    if i == 0 then v.lo else v.slot[i - 1]
  }

  ghost function KHi(v: Nd, i: int): int
    requires 0 <= i <= |v.slot|
  {
    if i == |v.slot| then v.hi else v.slot[i]
  }

  ghost predicate Rising(s: seq<int>) {
    forall i, j :: 0 <= i < j < |s| ==> s[i] < s[j]
  }

  ghost predicate InnerOk(v: Nd) {
    && !v.leaf && v.h > 0 && v.vas == [] && v.prev == null && v.next == null
    && |v.subl| == |v.slot| + 1 && |v.suba| == |v.slot| + 1
    && v.lo < v.hi && Rising(v.slot)
    && (forall i :: 0 <= i < |v.slot| ==> v.lo < v.slot[i] < v.hi)
  }

  ghost predicate KidOk(m: Mem, n: Bpn, i: int)
    requires n in m && 0 <= i < |m[n].subl| == |m[n].slot| + 1
  {
    var c := m[n].subl[i];
    && c in m && m[c].parent == n && m[c].h == m[n].h - 1
    && m[c].lo == KLo(m[n], i) && m[c].hi == KHi(m[n], i)
  }

  ghost predicate KidsOk(m: Mem, n: Bpn)
    requires n in m && |m[n].subl| == |m[n].slot| + 1
  {
    forall i {:trigger KidOk(m, n, i)} :: 0 <= i < |m[n].subl| ==> KidOk(m, n, i)
  }

  // Records of a leaf. `dying` is the key of a record that may be overlapped by its predecessor
  // because it is about to be deleted; -1 when there is none.
  ghost predicate RecordsOk(vas: seq<Range>, lo: int, hi: int, dying: int) {
    && (forall i :: 0 <= i < |vas| ==> lo <= vas[i].start < vas[i].end <= hi)
    && (forall i, j :: 0 <= i < j < |vas| ==> vas[i].start < vas[j].start)
    && (forall i, j :: 0 <= i < j < |vas| && vas[j].start != dying ==> vas[i].end <= vas[j].start)
  }

  ghost predicate LeafOk(v: Nd, dying: int) {
    && v.leaf && v.h == 0 && v.slot == [] && v.subl == [] && v.suba == []
    && v.lo < v.hi && RecordsOk(v.vas, v.lo, v.hi, dying)
  }

  ghost predicate ChainOk(m: Mem, n: Bpn)
    requires n in m
  {
    var v := m[n];
    && (v.next == null <==> v.hi == W)
    && (v.prev == null <==> v.lo == 0)
    && (v.next != null ==> v.next in m && m[v.next].leaf && m[v.next].lo == v.hi && m[v.next].prev == n)
    && (v.prev != null ==> v.prev in m && m[v.prev].leaf && m[v.prev].hi == v.lo && m[v.prev].next == n)
  }

  ghost predicate UpOk(m: Mem, root: Bpn, n: Bpn)
    requires n in m && root in m
  {
    var v := m[n];
    && 0 <= v.lo && v.hi <= W
    && (n == root ==> v.parent == null && v.lo == 0 && v.hi == W)
    && (n != root ==>
          && v.h < m[root].h && v.parent != null && v.parent in m
          && !m[v.parent].leaf && n in m[v.parent].subl)
  }

  ghost predicate NodeOk(m: Mem, root: Bpn, dying: int, n: Bpn)
    requires n in m && root in m
  {
    && UpOk(m, root, n)
    && (m[n].leaf ==> LeafOk(m[n], dying) && ChainOk(m, n))
    && (!m[n].leaf ==> InnerOk(m[n]) && KidsOk(m, n))
  }

  ghost predicate Struct(m: Mem, root: Bpn, dying: int) {
    root in m && forall n {:trigger NodeOk(m, root, dying, n)} :: n in m ==> NodeOk(m, root, dying, n)
  }

  ghost predicate Holds(v: Nd, a: int) {
    v.lo <= a < v.hi
  }

  // The edge above a node other than the root.
  lemma UpEdge(m: Mem, root: Bpn, dying: int, x: Bpn) returns (p: Bpn, i: int)
    requires Struct(m, root, dying) && x in m && x != root
    ensures p in m && m[x].parent == p && !m[p].leaf && InnerOk(m[p])
    ensures 0 <= i < |m[p].subl| && m[p].subl[i] == x && KidOk(m, p, i)
  {
    assert NodeOk(m, root, dying, x);
    p := m[x].parent;
    i :| 0 <= i < |m[p].subl| && m[p].subl[i] == x;
    assert NodeOk(m, root, dying, p) && KidOk(m, p, i);
  }

  // Two nodes that share a point nest: the lower one lies within the higher one.
  lemma {:induction false} Nest(m: Mem, root: Bpn, dying: int, x: Bpn, y: Bpn, a: int)
    requires Struct(m, root, dying) && x in m && y in m
    requires m[x].h <= m[y].h && Holds(m[x], a) && Holds(m[y], a)
    ensures m[y].lo <= m[x].lo && m[x].hi <= m[y].hi
    ensures m[x].h == m[y].h ==> x == y
    decreases m[root].h - m[x].h, m[root].h - m[y].h
  {
    assert NodeOk(m, root, dying, x) && NodeOk(m, root, dying, y);
    if x != root {
      var p, i := UpEdge(m, root, dying, x);
      assert NodeOk(m, root, dying, p);
      if m[x].h < m[y].h {
        Nest(m, root, dying, p, y, a);
      } else if y != root {
        var q, j := UpEdge(m, root, dying, y);
        Nest(m, root, dying, p, q, a);
      }
    }
  }

  // A node is below `n` exactly when `n` lists it.
  lemma KidsExactly(m: Mem, root: Bpn, d: int, n: Bpn)
    requires Struct(m, root, d) && n in m && !m[n].leaf
    ensures InnerOk(m[n])
    ensures forall x :: x in m[n].subl ==> x in m && x != n && m[x].parent == n
    ensures forall x :: x in m && m[x].parent == n ==> x in m[n].subl
  {
    assert NodeOk(m, root, d, n);
    forall x | x in m[n].subl
      ensures x in m && x != n && m[x].parent == n
    {
      var i :| 0 <= i < |m[n].subl| && m[n].subl[i] == x;
      assert KidOk(m, n, i);
    }
    forall x | x in m && m[x].parent == n
      ensures x in m[n].subl
    {
      assert NodeOk(m, root, d, x);
    }
  }
}
