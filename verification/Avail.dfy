/** The augmentation: SUB_AVAIL[i] is the size of the largest free range under child i. */
module Avail {
  import opened Words
  import opened Node
  import opened Shape
  import opened Cutting
  import opened Merging

  function Max(a: int, b: int): int {
    if a > b then a else b
  }

  // The largest element, 0 for the empty sequence.
  function MaxOf(s: seq<int>): int {
    if s == [] then 0 else Max(MaxOf(s[..|s| - 1]), s[|s| - 1])
  }

  function Sizes(vas: seq<Range>): (s: seq<int>)
    ensures |s| == |vas| && forall i :: 0 <= i < |s| ==> s[i] == Size(vas[i])
  {
    seq(|vas|, i requires 0 <= i < |vas| => Size(vas[i]))
  }

  function MaxAvail(v: Nd): int {
    if v.leaf then MaxOf(Sizes(v.vas)) else MaxOf(v.suba)
  }

  ghost predicate EdgeOk(m: Mem, n: Bpn, i: int)
    requires n in m && 0 <= i < |m[n].subl| == |m[n].suba|
  {
    m[n].subl[i] in m && m[n].suba[i] == MaxAvail(m[m[n].subl[i]])
  }

  // Every SUB_AVAIL entry matches the node below it, except possibly the entry for `exc`.
  ghost predicate AvailOk(m: Mem, exc: Bpn?) {
    forall n, i {:trigger EdgeOk(m, n, i)} ::
      n in m && 0 <= i < |m[n].subl| == |m[n].suba| && m[n].subl[i] != exc ==> EdgeOk(m, n, i)
  }

  lemma {:induction false} MaxOfAppend(a: seq<int>, b: seq<int>)
    ensures MaxOf(a + b) == Max(MaxOf(a), MaxOf(b))
    decreases |b|
  {
    if b == [] {
      assert a + b == a;
      MaxOfNonNeg(a);
    } else {
      MaxOfAppend(a, b[..|b| - 1]);
      assert (a + b)[..|a + b| - 1] == a + b[..|b| - 1];
    }
  }

  lemma MaxOfNonNeg(s: seq<int>)
    ensures MaxOf(s) >= 0
  {}

  lemma {:induction false} MaxOfBounds(s: seq<int>)
    ensures forall i :: 0 <= i < |s| ==> s[i] <= MaxOf(s)
    ensures MaxOf(s) == 0 || exists i :: 0 <= i < |s| && s[i] == MaxOf(s)
    decreases |s|
  {
    if s != [] {
      var t := s[..|s| - 1];
      MaxOfBounds(t);
      forall i | 0 <= i < |s|
        ensures s[i] <= MaxOf(s)
      {
        if i < |t| { assert s[i] == t[i]; }
      }
      if s[|s| - 1] <= MaxOf(t) && MaxOf(t) != 0 {
        var i :| 0 <= i < |t| && t[i] == MaxOf(t);
        assert s[i] == t[i];
      } else if s[|s| - 1] > MaxOf(t) {
        assert s[|s| - 1] == MaxOf(s);
      }
    }
  }

  // Replacing one element by two with the same maximum, or the other way round, keeps the maximum.
  lemma MaxOfSplit(a: seq<int>, x: int, y: int, b: seq<int>)
    ensures MaxOf(a + [x, y] + b) == MaxOf(a + [Max(x, y)] + b)
  {
    MaxOfAppend(a + [x, y], b);
    MaxOfAppend(a, [x, y]);
    MaxOfAppend(a + [Max(x, y)], b);
    MaxOfAppend(a, [Max(x, y)]);
    assert [x, y][..1] == [x] && [x][..0] == [];
    assert [Max(x, y)][..0] == [];
  }

  lemma CutMax(v: Nd, c: Bpn, r: Bpn, k: nat, pp: nat)
    requires k < Entries(v) && (!v.leaf ==> InnerOk(v))
    ensures Max(MaxAvail(LeftHalf(v, r, k)), MaxAvail(RightHalf(v, c, k, pp))) == MaxAvail(v)
  {
    if v.leaf {
      MaxOfAppend(Sizes(v.vas[..k]), Sizes(v.vas[k..]));
      assert Sizes(v.vas[..k]) + Sizes(v.vas[k..]) == Sizes(v.vas);
    } else {
      MaxOfAppend(v.suba[..k + 1], v.suba[k + 1..]);
      assert v.suba[..k + 1] + v.suba[k + 1..] == v.suba;
    }
  }

  lemma JoinMax(v: Nd, w: Nd, s: int)
    requires v.leaf == w.leaf
    ensures MaxAvail(Joined(v, w, s)) == Max(MaxAvail(v), MaxAvail(w))
  {
    if v.leaf {
      MaxOfAppend(Sizes(v.vas), Sizes(w.vas));
      assert Sizes(v.vas) + Sizes(w.vas) == Sizes(v.vas + w.vas);
    } else {
      MaxOfAppend(v.suba, w.suba);
    }
  }

  // The values recorded for the two halves are theirs.
  ghost predicate HalvesAvail(m: Mem, s: Site)
    requires Cuttable(m, s)
  {
    var c := m[s.p].subl[s.i];
    s.al == MaxAvail(LeftHalf(m[c], s.r, s.k)) && s.ar == MaxAvail(RightHalf(m[c], c, s.k, s.pp))
  }

  lemma CutParentMax(m: Mem, s: Site)
    requires Cuttable(m, s) && EdgeOk(m, s.p, s.i) && HalvesAvail(m, s)
    ensures MaxAvail(Cut(m, s)[s.p]) == MaxAvail(m[s.p])
  {
    var c := m[s.p].subl[s.i];
    CutMax(m[c], c, s.r, s.k, s.pp);
    var a := m[s.p].suba;
    MaxOfSplit(a[..s.i], s.al, s.ar, a[s.i + 1..]);
    assert a[..s.i] + [Max(s.al, s.ar)] + a[s.i + 1..] == a;
  }

  lemma CutAvailParent(m: Mem, root: Bpn, d: int, s: Site, j: int)
    requires Struct(m, root, d) && Cuttable(m, s) && AvailOk(m, null) && HalvesAvail(m, s)
    requires 0 <= j < |Cut(m, s)[s.p].subl| == |Cut(m, s)[s.p].suba|
    ensures EdgeOk(Cut(m, s), s.p, j)
  {
    CutStart(m, root, d, s);
    if j != s.i && j != s.i + 1 {
      var j' := if j < s.i then j else j - 1;
      assert EdgeOk(m, s.p, j') && KidOk(m, s.p, j');
      assert m[s.p].subl[j'] != m[s.p].subl[s.i];
    }
  }

  lemma CutAvailHalves(m: Mem, root: Bpn, d: int, s: Site, n: Bpn, j: int)
    requires Struct(m, root, d) && Cuttable(m, s) && AvailOk(m, null)
    requires n == m[s.p].subl[s.i] || n == s.r
    requires 0 <= j < |Cut(m, s)[n].subl| == |Cut(m, s)[n].suba|
    ensures EdgeOk(Cut(m, s), n, j)
  {
    CutStart(m, root, d, s);
    var c := m[s.p].subl[s.i];
    var j' := if n == c then j else j + s.k + 1;
    assert EdgeOk(m, c, j') && KidOk(m, c, j');
  }

  lemma CutAvailOther(m: Mem, root: Bpn, d: int, s: Site, n: Bpn, j: int)
    requires Struct(m, root, d) && Cuttable(m, s) && AvailOk(m, null) && HalvesAvail(m, s)
    requires n in m && n != s.p && n != m[s.p].subl[s.i] && 0 <= j < |m[n].subl| == |m[n].suba|
    requires MaxAvail(Cut(m, s)[s.p]) == MaxAvail(m[s.p])
    ensures EdgeOk(Cut(m, s), n, j)
  {
    CutStart(m, root, d, s);
    assert NodeOk(m, root, d, n) && EdgeOk(m, n, j) && KidOk(m, n, j);
  }

  lemma CutAvail(m: Mem, root: Bpn, d: int, s: Site)
    requires Struct(m, root, d) && Cuttable(m, s) && AvailOk(m, null) && HalvesAvail(m, s)
    ensures AvailOk(Cut(m, s), null)
  {
    var m' := Cut(m, s);
    assert EdgeOk(m, s.p, s.i);
    CutParentMax(m, s);
    forall n: Bpn, j | n in m' && 0 <= j < |m'[n].subl| == |m'[n].suba|
      ensures EdgeOk(m', n, j)
    {
      if n == s.p {
        CutAvailParent(m, root, d, s, j);
      } else if n == m[s.p].subl[s.i] || n == s.r {
        CutAvailHalves(m, root, d, s, n, j);
      } else {
        CutAvailOther(m, root, d, s, n, j);
      }
    }
  }

  lemma MergeParentMax(m: Mem, p: Bpn, i: int, a: int)
    requires Mergeable(m, p, i) && EdgeOk(m, p, i) && EdgeOk(m, p, i + 1)
    requires a == MaxAvail(Joined(m[m[p].subl[i]], m[m[p].subl[i + 1]], m[p].slot[i]))
    ensures MaxAvail(Merge(m, p, i, a)[p]) == MaxAvail(m[p])
  {
    JoinMax(m[m[p].subl[i]], m[m[p].subl[i + 1]], m[p].slot[i]);
    var s := m[p].suba;
    MaxOfSplit(s[..i], s[i], s[i + 1], s[i + 2..]);
    assert s[..i] + [s[i], s[i + 1]] + s[i + 2..] == s;
    assert s[..i] + [a] + s[i + 2..] == Merge(m, p, i, a)[p].suba;
  }

  lemma MergeAvailParent(m: Mem, root: Bpn, d: int, p: Bpn, i: int, a: int, j: int)
    requires Struct(m, root, d) && Mergeable(m, p, i) && AvailOk(m, null)
    requires a == MaxAvail(Joined(m[m[p].subl[i]], m[m[p].subl[i + 1]], m[p].slot[i]))
    requires 0 <= j < |Merge(m, p, i, a)[p].subl| == |Merge(m, p, i, a)[p].suba|
    ensures EdgeOk(Merge(m, p, i, a), p, j)
  {
    MergeStart(m, root, d, p, i);
    if j != i {
      var j' := if j < i then j else j + 1;
      assert EdgeOk(m, p, j') && KidOk(m, p, j');
      assert m[p].subl[j'] != m[p].subl[i] && m[p].subl[j'] != m[p].subl[i + 1];
    }
  }

  lemma MergeAvailLeft(m: Mem, root: Bpn, d: int, p: Bpn, i: int, a: int, j: int)
    requires Struct(m, root, d) && Mergeable(m, p, i) && AvailOk(m, null)
    requires var l := m[p].subl[i]; 0 <= j < |Merge(m, p, i, a)[l].subl| == |Merge(m, p, i, a)[l].suba|
    ensures EdgeOk(Merge(m, p, i, a), m[p].subl[i], j)
  {
    MergeStart(m, root, d, p, i);
    var l, r := m[p].subl[i], m[p].subl[i + 1];
    if j < |m[l].subl| {
      assert EdgeOk(m, l, j) && KidOk(m, l, j);
    } else {
      assert EdgeOk(m, r, j - |m[l].subl|) && KidOk(m, r, j - |m[l].subl|);
    }
  }

  lemma MergeAvailOther(m: Mem, root: Bpn, d: int, p: Bpn, i: int, a: int, n: Bpn, j: int)
    requires Struct(m, root, d) && Mergeable(m, p, i) && AvailOk(m, null)
    requires n in m && n != p && n != m[p].subl[i] && n != m[p].subl[i + 1] && 0 <= j < |m[n].subl| == |m[n].suba|
    requires MaxAvail(Merge(m, p, i, a)[p]) == MaxAvail(m[p])
    ensures EdgeOk(Merge(m, p, i, a), n, j)
  {
    MergeStart(m, root, d, p, i);
    assert NodeOk(m, root, d, n) && EdgeOk(m, n, j) && KidOk(m, n, j);
  }

  lemma MergeAvail(m: Mem, root: Bpn, d: int, p: Bpn, i: int, a: int)
    requires Struct(m, root, d) && Mergeable(m, p, i) && AvailOk(m, null)
    requires a == MaxAvail(Joined(m[m[p].subl[i]], m[m[p].subl[i + 1]], m[p].slot[i]))
    ensures AvailOk(Merge(m, p, i, a), null)
  {
    var m' := Merge(m, p, i, a);
    assert EdgeOk(m, p, i) && EdgeOk(m, p, i + 1);
    MergeParentMax(m, p, i, a);
    forall n: Bpn, j | n in m' && 0 <= j < |m'[n].subl| == |m'[n].suba|
      ensures EdgeOk(m', n, j)
    {
      if n == p {
        MergeAvailParent(m, root, d, p, i, a, j);
      } else if n == m[p].subl[i] {
        MergeAvailLeft(m, root, d, p, i, a, j);
      } else {
        MergeAvailOther(m, root, d, p, i, a, n, j);
      }
    }
  }
}
