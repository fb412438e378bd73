/** Joining two siblings, value level: what bpn_merge_siblings does to the nodes around them. */
module Merging {
  import opened Words
  import opened Node
  import opened Shape

  function Del<T>(s: seq<T>, i: nat): seq<T>
    requires i < |s|
  {
    s[..i] + s[i + 1..]
  }

  ghost predicate Mergeable(m: Mem, p: Bpn, i: int) {
    && p in m && !m[p].leaf && InnerOk(m[p]) && 0 <= i < |m[p].slot|
    && m[p].subl[i] in m && m[p].subl[i + 1] in m
    && m[p].subl[i] != p && m[p].subl[i + 1] != p && m[p].subl[i] != m[p].subl[i + 1]
    && m[m[p].subl[i]].leaf == m[m[p].subl[i + 1]].leaf
  }

  // `s` is the separator an internal node takes over from the parent.
  ghost function Joined(v: Nd, w: Nd, s: int): Nd {
    if v.leaf then v.(vas := v.vas + w.vas, hi := w.hi, next := w.next)
    else v.(slot := v.slot + [s] + w.slot, subl := v.subl + w.subl, suba := v.suba + w.suba, hi := w.hi)
  }

  ghost function MergeRest(w: Nd, l: Bpn, r: Bpn, n: Bpn, x: Nd): Nd {
    if w.leaf then (if n == w.next then x.(prev := l) else x)
    else if x.parent == r then x.(parent := l) else x
  }

  ghost function Merge(m: Mem, p: Bpn, i: int, a: int): Mem
    requires Mergeable(m, p, i)
  {
    var u := m[p];
    var l, r := u.subl[i], u.subl[i + 1];
    map n | n in m.Keys - {r} ::
      if n == l then Joined(m[l], m[r], u.slot[i])
      else if n == p then
        u.(slot := Del(u.slot, i), subl := Del(u.subl, i + 1), suba := Del(u.suba, i + 1)[i := a])
      else MergeRest(m[r], l, r, n, m[n])
  }

  lemma DelRising(s: seq<int>, i: nat)
    requires Rising(s) && i < |s|
    ensures Rising(Del(s, i))
  {}

  // The facts about the three nodes a merge touches that the cases below start from.
  lemma MergeStart(m: Mem, root: Bpn, d: int, p: Bpn, i: int)
    requires Struct(m, root, d) && Mergeable(m, p, i)
    ensures var l, r := m[p].subl[i], m[p].subl[i + 1];
      && KidsOk(m, p) && KidOk(m, p, i) && KidOk(m, p, i + 1) && l != root && r != root
      && UpOk(m, root, l) && UpOk(m, root, r) && UpOk(m, root, p)
      && m[l].lo < m[l].hi == m[p].slot[i] == m[r].lo < m[r].hi && m[l].h != m[p].h && m[r].h != m[p].h
      && (m[l].leaf ==> LeafOk(m[l], d) && ChainOk(m, l) && LeafOk(m[r], d) && ChainOk(m, r) && m[l].next == r && m[r].prev == l)
      && (!m[l].leaf ==> InnerOk(m[l]) && InnerOk(m[r]) && KidsOk(m, l) && KidsOk(m, r))
  {
    var l, r := m[p].subl[i], m[p].subl[i + 1];
    assert NodeOk(m, root, d, p) && KidOk(m, p, i) && KidOk(m, p, i + 1);
    assert NodeOk(m, root, d, l) && NodeOk(m, root, d, r);
    if m[l].leaf {
      var n := m[l].next;
      assert NodeOk(m, root, d, n);
      Nest(m, root, d, n, r, m[r].lo);
    }
  }

  lemma MergeParentKid(m: Mem, root: Bpn, d: int, p: Bpn, i: int, a: int, j: int)
    requires Struct(m, root, d) && Mergeable(m, p, i) && 0 <= j < |m[p].subl| && j != i && j != i + 1
    ensures KidOk(Merge(m, p, i, a), p, if j < i then j else j - 1)
  {
    MergeStart(m, root, d, p, i);
    assert KidOk(m, p, j);
    assert m[p].subl[j] != m[p].subl[i] && m[p].subl[j] != m[p].subl[i + 1];
  }

  lemma MergeParentKids(m: Mem, root: Bpn, d: int, p: Bpn, i: int, a: int)
    requires Struct(m, root, d) && Mergeable(m, p, i)
    ensures KidsOk(Merge(m, p, i, a), p)
  {
    var m' := Merge(m, p, i, a);
    forall j | 0 <= j < |m'[p].subl|
      ensures KidOk(m', p, j)
    {
      if j != i {
        MergeParentKid(m, root, d, p, i, a, if j < i then j else j + 1);
      } else {
        MergeStart(m, root, d, p, i);
      }
    }
  }

  lemma MergeParent(m: Mem, root: Bpn, d: int, p: Bpn, i: int, a: int)
    requires Struct(m, root, d) && Mergeable(m, p, i)
    ensures root in Merge(m, p, i, a) && NodeOk(Merge(m, p, i, a), root, d, p)
  {
    MergeStart(m, root, d, p, i);
    DelRising(m[p].slot, i);
    MergeParentKids(m, root, d, p, i, a);
    if p != root {
      var q, e := UpEdge(m, root, d, p);
    }
  }

  lemma JoinRising(s: seq<int>, x: int, t: seq<int>)
    requires Rising(s) && Rising(t)
    requires forall j :: 0 <= j < |s| ==> s[j] < x
    requires forall j :: 0 <= j < |t| ==> x < t[j]
    ensures Rising(s + [x] + t)
  {}

  lemma MergeLeft(m: Mem, root: Bpn, d: int, p: Bpn, i: int, a: int)
    requires Struct(m, root, d) && Mergeable(m, p, i)
    ensures root in Merge(m, p, i, a) && NodeOk(Merge(m, p, i, a), root, d, m[p].subl[i])
  {
    var m' := Merge(m, p, i, a);
    var l, r := m[p].subl[i], m[p].subl[i + 1];
    MergeStart(m, root, d, p, i);
    assert m'[p].subl[i] == l;
    if !m[l].leaf {
      JoinRising(m[l].slot, m[p].slot[i], m[r].slot);
      MergeLeftKids(m, root, d, p, i, a);
    }
  }

  lemma MergeLeftKids(m: Mem, root: Bpn, d: int, p: Bpn, i: int, a: int)
    requires Struct(m, root, d) && Mergeable(m, p, i) && !m[m[p].subl[i]].leaf
    ensures |Merge(m, p, i, a)[m[p].subl[i]].subl| == |Merge(m, p, i, a)[m[p].subl[i]].slot| + 1
    ensures KidsOk(Merge(m, p, i, a), m[p].subl[i])
  {
    var m' := Merge(m, p, i, a);
    var l, r := m[p].subl[i], m[p].subl[i + 1];
    MergeStart(m, root, d, p, i);
    forall j | 0 <= j < |m'[l].subl|
      ensures KidOk(m', l, j)
    {
      if j < |m[l].subl| {
        assert KidOk(m, l, j);
      } else {
        assert KidOk(m, r, j - |m[l].subl|);
      }
    }
  }

  lemma MergeStillKid(m: Mem, p: Bpn, i: int, a: int, q: Bpn, j: int)
    requires Mergeable(m, p, i) && q in m && InnerOk(m[q])
    requires 0 <= j < |m[q].subl| && (q == p ==> j != i + 1)
    ensures var l, r := m[p].subl[i], m[p].subl[i + 1];
      m[q].subl[j] in Merge(m, p, i, a)[if q == r then l else q].subl
  {
    var m' := Merge(m, p, i, a);
    var l, r := m[p].subl[i], m[p].subl[i + 1];
    if q == p {
      assert m'[p].subl[if j < i + 1 then j else j - 1] == m[q].subl[j];
    } else if q == r {
      assert m'[l].subl[|m[l].subl| + j] == m[q].subl[j];
    } else if q == l {
      assert m'[l].subl[j] == m[q].subl[j];
    }
  }

  lemma MergeOtherUp(m: Mem, root: Bpn, d: int, p: Bpn, i: int, a: int, n: Bpn)
    requires Struct(m, root, d) && Mergeable(m, p, i)
    requires n in m && n != p && n != m[p].subl[i] && n != m[p].subl[i + 1]
    ensures root in Merge(m, p, i, a) && UpOk(Merge(m, p, i, a), root, n)
  {
    MergeStart(m, root, d, p, i);
    assert NodeOk(m, root, d, n);
    if n != root {
      var q, j := UpEdge(m, root, d, n);
      MergeStillKid(m, p, i, a, q, j);
    }
  }

  lemma MergeOtherKids(m: Mem, root: Bpn, d: int, p: Bpn, i: int, a: int, n: Bpn)
    requires Struct(m, root, d) && Mergeable(m, p, i)
    requires n in m && n != p && n != m[p].subl[i] && n != m[p].subl[i + 1] && !m[n].leaf
    ensures InnerOk(Merge(m, p, i, a)[n]) && KidsOk(Merge(m, p, i, a), n)
  {
    var m' := Merge(m, p, i, a);
    MergeStart(m, root, d, p, i);
    assert NodeOk(m, root, d, n);
    forall j | 0 <= j < |m'[n].subl|
      ensures KidOk(m', n, j)
    {
      assert KidOk(m, n, j);
    }
  }

  lemma MergeOtherChain(m: Mem, root: Bpn, d: int, p: Bpn, i: int, a: int, n: Bpn)
    requires Struct(m, root, d) && Mergeable(m, p, i)
    requires n in m && n != p && n != m[p].subl[i] && n != m[p].subl[i + 1] && m[n].leaf
    ensures LeafOk(Merge(m, p, i, a)[n], d) && ChainOk(Merge(m, p, i, a), n)
  {
    MergeStart(m, root, d, p, i);
    assert NodeOk(m, root, d, n);
  }

  lemma MergeStruct(m: Mem, root: Bpn, d: int, p: Bpn, i: int, a: int)
    requires Struct(m, root, d) && Mergeable(m, p, i)
    ensures Struct(Merge(m, p, i, a), root, d)
  {
    var m' := Merge(m, p, i, a);
    MergeStart(m, root, d, p, i);
    forall n | n in m'
      ensures NodeOk(m', root, d, n)
    {
      if n == p {
        MergeParent(m, root, d, p, i, a);
      } else if n == m[p].subl[i] {
        MergeLeft(m, root, d, p, i, a);
      } else {
        MergeOtherUp(m, root, d, p, i, a, n);
        if m[n].leaf {
          MergeOtherChain(m, root, d, p, i, a, n);
        } else {
          MergeOtherKids(m, root, d, p, i, a, n);
        }
      }
    }
  }

  lemma MergeRecords(m: Mem, p: Bpn, i: int, a: int)
    requires Mergeable(m, p, i)
    requires !m[m[p].subl[i]].leaf ==> m[m[p].subl[i + 1]].vas == []
    ensures Recs(Merge(m, p, i, a)) == Recs(m)
  {
    var m' := Merge(m, p, i, a);
    var l, r := m[p].subl[i], m[p].subl[i + 1];
    forall x | x in Recs(m)
      ensures x in Recs(m')
    {
      var n: Bpn :| n in m && x in m[n].vas;
      assert x in m'[if n == r then l else n].vas;
    }
    forall x | x in Recs(m')
      ensures x in Recs(m)
    {
      var n: Bpn :| n in m' && x in m'[n].vas;
      assert x in m[n].vas || x in m[r].vas;
    }
  }
}
