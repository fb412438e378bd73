/** Cutting a node in two, value level: what bpn_split does to the nodes around it. A shift between
    siblings is a merge followed by a cut elsewhere, so this and Merge cover all node surgery. */
module Cutting {
  import opened Words
  import opened Node
  import opened Shape

  function Ins<T>(s: seq<T>, i: nat, x: T): seq<T>
    requires i <= |s|
  {
    s[..i] + [x] + s[i..]
  }

  // `k` entries stay left; an internal node gives up the separator at `k`, a leaf keeps it right.
  ghost function CutKey(v: Nd, k: nat): int
    requires k < Entries(v)
  {
    if v.leaf then v.vas[k].start else v.slot[k]
  }

  /** Where to cut: `k` entries of child `i` of `p` stay, the rest moves to `r`; `al` and `ar` are the
      values recorded for the halves and `pp` is the position mark `r` carries. */
  datatype Site = Site(p: Bpn, i: nat, r: Bpn, k: nat, al: int, ar: int, pp: nat)

  ghost predicate Cuttable(m: Mem, s: Site) {
    && s.p in m && !m[s.p].leaf && s.i < |m[s.p].subl| && InnerOk(m[s.p]) && s.r !in m
    && var c := m[s.p].subl[s.i];
    && c in m && c != s.p && s.k < Entries(m[c])
    && (if m[c].leaf then s.k > 0 else InnerOk(m[c]))
  }

  ghost function LeftHalf(v: Nd, r: Bpn, k: nat): Nd
    requires k < Entries(v) && (!v.leaf ==> InnerOk(v))
  {
    if v.leaf then v.(vas := v.vas[..k], hi := CutKey(v, k), next := r)
    else v.(slot := v.slot[..k], subl := v.subl[..k + 1], suba := v.suba[..k + 1], hi := CutKey(v, k))
  }

  ghost function RightHalf(v: Nd, c: Bpn, k: nat, pp: nat): Nd
    requires k < Entries(v) && (!v.leaf ==> InnerOk(v))
  {
    if v.leaf then v.(vas := v.vas[k..], lo := CutKey(v, k), prev := c, ppos := pp)
    else v.(slot := v.slot[k + 1..], subl := v.subl[k + 1..], suba := v.suba[k + 1..], lo := CutKey(v, k), ppos := pp)
  }

  ghost function CutRest(v: Nd, c: Bpn, r: Bpn, k: nat, n: Bpn, x: Nd): Nd
    requires k < Entries(v)
  {
    if v.leaf then (if n == v.next then x.(prev := r) else x)
    else if x.parent == c && x.lo >= CutKey(v, k) then x.(parent := r) else x
  }

  ghost function Cut(m: Mem, s: Site): Mem
    requires Cuttable(m, s)
  {
    var u := m[s.p];
    var c := u.subl[s.i];
    var v := m[c];
    map n | n in m.Keys + {s.r} ::
      if n == s.r then RightHalf(v, c, s.k, s.pp)
      else if n == c then LeftHalf(v, s.r, s.k)
      else if n == s.p then
        u.(slot := Ins(u.slot, s.i, CutKey(v, s.k)), subl := Ins(u.subl, s.i + 1, s.r),
           suba := u.suba[..s.i] + [s.al, s.ar] + u.suba[s.i + 1..])
      else CutRest(v, c, s.r, s.k, n, m[n])
  }

  lemma InsRising(s: seq<int>, i: nat, x: int)
    requires Rising(s) && i <= |s| && (i > 0 ==> s[i - 1] < x) && (i < |s| ==> x < s[i])
    ensures Rising(Ins(s, i, x))
  {
    var t := Ins(s, i, x);
    forall j, k | 0 <= j < k < |t|
      ensures t[j] < t[k]
    {
      assert j < i ==> s[j] <= s[i - 1];
      assert k > i ==> s[i] <= s[k - 1];
    }
  }

  // The facts about the three nodes a cut touches that the cases below start from.
  lemma CutStart(m: Mem, root: Bpn, d: int, s: Site)
    requires Struct(m, root, d) && Cuttable(m, s)
    ensures var c := m[s.p].subl[s.i];
      && KidsOk(m, s.p) && KidOk(m, s.p, s.i) && c != root && UpOk(m, root, c) && UpOk(m, root, s.p)
      && m[c].lo < CutKey(m[c], s.k) < m[c].hi && m[c].h != m[s.p].h
      && (m[c].leaf ==> LeafOk(m[c], d) && ChainOk(m, c))
      && (!m[c].leaf ==> KidsOk(m, c))
  {
    var c := m[s.p].subl[s.i];
    assert NodeOk(m, root, d, s.p) && KidOk(m, s.p, s.i) && NodeOk(m, root, d, c);
    if m[c].leaf { assert m[c].vas[0].start < m[c].vas[s.k].start; }
  }

  lemma CutParentKid(m: Mem, root: Bpn, d: int, s: Site, j: int)
    requires Struct(m, root, d) && Cuttable(m, s) && 0 <= j < |m[s.p].subl| && j != s.i
    ensures KidOk(Cut(m, s), s.p, if j < s.i then j else j + 1)
  {
    CutStart(m, root, d, s);
    assert KidOk(m, s.p, j);
    assert m[s.p].subl[j] != m[s.p].subl[s.i];
  }

  lemma CutParentKids(m: Mem, root: Bpn, d: int, s: Site)
    requires Struct(m, root, d) && Cuttable(m, s)
    ensures KidsOk(Cut(m, s), s.p)
  {
    var m' := Cut(m, s);
    forall j | 0 <= j < |m'[s.p].subl|
      ensures KidOk(m', s.p, j)
    {
      if j < s.i || j > s.i + 1 {
        CutParentKid(m, root, d, s, if j < s.i then j else j - 1);
      } else {
        CutStart(m, root, d, s);
      }
    }
  }

  lemma CutParentUp(m: Mem, root: Bpn, d: int, s: Site)
    requires Struct(m, root, d) && Cuttable(m, s)
    ensures UpOk(Cut(m, s), root, s.p)
  {
    CutStart(m, root, d, s);
    if s.p != root {
      var q, e := UpEdge(m, root, d, s.p);
      CutRootHeight(m, root, d, s);
    }
  }

  lemma CutParentInner(m: Mem, root: Bpn, d: int, s: Site)
    requires Struct(m, root, d) && Cuttable(m, s)
    ensures InnerOk(Cut(m, s)[s.p])
  {
    CutStart(m, root, d, s);
    InsRising(m[s.p].slot, s.i, CutKey(m[m[s.p].subl[s.i]], s.k));
  }

  lemma CutParent(m: Mem, root: Bpn, d: int, s: Site)
    requires Struct(m, root, d) && Cuttable(m, s)
    ensures NodeOk(Cut(m, s), root, d, s.p)
  {
    CutParentUp(m, root, d, s);
    CutParentInner(m, root, d, s);
    CutParentKids(m, root, d, s);
  }

  lemma CutLeft(m: Mem, root: Bpn, d: int, s: Site)
    requires Struct(m, root, d) && Cuttable(m, s)
    requires m[m[s.p].subl[s.i]].leaf ==> m[m[s.p].subl[s.i]].vas[s.k].start != d
    ensures NodeOk(Cut(m, s), root, d, m[s.p].subl[s.i])
  {
    var m' := Cut(m, s);
    var c := m[s.p].subl[s.i];
    CutStart(m, root, d, s);
    assert m'[s.p].subl[s.i] == c;
    if !m[c].leaf {
      forall j | 0 <= j < |m'[c].subl|
        ensures KidOk(m', c, j)
      {
        assert KidOk(m, c, j);
      }
    }
  }

  lemma CutRight(m: Mem, root: Bpn, d: int, s: Site)
    requires Struct(m, root, d) && Cuttable(m, s)
    ensures NodeOk(Cut(m, s), root, d, s.r)
  {
    var m' := Cut(m, s);
    var c := m[s.p].subl[s.i];
    CutStart(m, root, d, s);
    assert m'[s.p].subl[s.i + 1] == s.r;
    if !m[c].leaf {
      forall j | 0 <= j < |m'[s.r].subl|
        ensures KidOk(m', s.r, j)
      {
        assert KidOk(m, c, j + s.k + 1);
      }
    }
  }

  // Nodes other than the three change their parent at most, and only from the left half to the right.
  lemma CutOther(m: Mem, s: Site, n: Bpn)
    requires Cuttable(m, s) && n in m && n != s.p && n != m[s.p].subl[s.i]
    ensures var c, m' := m[s.p].subl[s.i], Cut(m, s);
      && n in m' && m'[n].leaf == m[n].leaf && m'[n].h == m[n].h && m'[n].lo == m[n].lo && m'[n].hi == m[n].hi
      && m'[n].parent == if !m[c].leaf && m[n].parent == c && m[n].lo >= CutKey(m[c], s.k) then s.r else m[n].parent
  {}

  lemma CutOtherUp(m: Mem, root: Bpn, d: int, s: Site, n: Bpn)
    requires Struct(m, root, d) && Cuttable(m, s)
    requires n in m && n != s.p && n != m[s.p].subl[s.i]
    ensures UpOk(Cut(m, s), root, n)
  {
    CutStart(m, root, d, s);
    CutOther(m, s, n);
    assert NodeOk(m, root, d, n);
    if n != root {
      CutOtherKid(m, root, d, s, n);
      CutRootHeight(m, root, d, s);
    }
  }

  lemma CutRootHeight(m: Mem, root: Bpn, d: int, s: Site)
    requires Struct(m, root, d) && Cuttable(m, s)
    ensures Cut(m, s)[root].h == m[root].h
  {
    CutStart(m, root, d, s);
  }

  // Such a node still hangs below an internal node.
  lemma CutOtherKid(m: Mem, root: Bpn, d: int, s: Site, n: Bpn)
    requires Struct(m, root, d) && Cuttable(m, s)
    requires n in m && n != root && n != s.p && n != m[s.p].subl[s.i]
    ensures var m' := Cut(m, s); m'[n].parent != null && m'[n].parent in m' && !m'[m'[n].parent].leaf && n in m'[m'[n].parent].subl
  {
    var q, j := UpEdge(m, root, d, n);
    CutStart(m, root, d, s);
    CutOther(m, s, n);
    CutStillKid(m, s, q, j);
  }

  lemma CutStillKid(m: Mem, s: Site, q: Bpn, j: int)
    requires Cuttable(m, s) && q in m && InnerOk(m[q])
    requires 0 <= j < |m[q].subl| && (q == s.p ==> j != s.i)
    ensures var c := m[s.p].subl[s.i];
      m[q].subl[j] in Cut(m, s)[if q == c && j > s.k then s.r else q].subl
  {
    var m' := Cut(m, s);
    var c := m[s.p].subl[s.i];
    if q == s.p {
      assert m'[s.p].subl[if j < s.i then j else j + 1] == m[q].subl[j];
    } else if q == c && j > s.k {
      assert m'[s.r].subl[j - s.k - 1] == m[q].subl[j];
    } else if q == c {
      assert m'[c].subl[j] == m[q].subl[j];
    }
  }

  lemma CutOtherKids(m: Mem, root: Bpn, d: int, s: Site, n: Bpn)
    requires Struct(m, root, d) && Cuttable(m, s)
    requires n in m && n != s.p && n != m[s.p].subl[s.i] && !m[n].leaf
    ensures InnerOk(Cut(m, s)[n]) && KidsOk(Cut(m, s), n)
  {
    var m' := Cut(m, s);
    CutStart(m, root, d, s);
    assert NodeOk(m, root, d, n);
    forall j | 0 <= j < |m'[n].subl|
      ensures KidOk(m', n, j)
    {
      assert KidOk(m, n, j);
    }
  }

  lemma CutOtherChain(m: Mem, root: Bpn, d: int, s: Site, n: Bpn)
    requires Struct(m, root, d) && Cuttable(m, s)
    requires n in m && n != s.p && n != m[s.p].subl[s.i] && m[n].leaf
    ensures LeafOk(Cut(m, s)[n], d) && ChainOk(Cut(m, s), n)
  {
    CutStart(m, root, d, s);
    assert NodeOk(m, root, d, n);
  }

  lemma CutStruct(m: Mem, root: Bpn, d: int, s: Site)
    requires Struct(m, root, d) && Cuttable(m, s)
    requires m[m[s.p].subl[s.i]].leaf ==> m[m[s.p].subl[s.i]].vas[s.k].start != d
    ensures Struct(Cut(m, s), root, d)
  {
    var m' := Cut(m, s);
    forall n | n in m'
      ensures NodeOk(m', root, d, n)
    {
      if n == s.r {
        CutRight(m, root, d, s);
      } else if n == s.p {
        CutParent(m, root, d, s);
      } else if n == m[s.p].subl[s.i] {
        CutLeft(m, root, d, s);
      } else {
        CutOtherUp(m, root, d, s, n);
        if m[n].leaf {
          CutOtherChain(m, root, d, s, n);
        } else {
          CutOtherKids(m, root, d, s, n);
        }
      }
    }
  }

  lemma CutRecords(m: Mem, s: Site)
    requires Cuttable(m, s)
    ensures Recs(Cut(m, s)) == Recs(m)
  {
    var m' := Cut(m, s);
    var c := m[s.p].subl[s.i];
    if m[c].leaf {
      assert m[c].vas == m'[c].vas + m'[s.r].vas;
    }
    forall x | x in Recs(m)
      ensures x in Recs(m')
    {
      var n: Bpn :| n in m && x in m[n].vas;
      assert x in m'[n].vas || x in m'[s.r].vas;
    }
    forall x | x in Recs(m')
      ensures x in Recs(m)
    {
      var n: Bpn :| n in m' && x in m'[n].vas;
      assert x in m[if n == s.r then c else n].vas;
    }
  }
}
