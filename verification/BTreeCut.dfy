/** Cutting a B-tree node in two and joining two siblings, value level. Moving a key between siblings is
    a join followed by a cut elsewhere. */
module BTreeCut {
  import opened Words
  import opened BTree
  import Cutting
  import Merging

  /** `k` keys of child `i` of `p` stay, key `k` moves up, the rest goes to `r`. */
  datatype Site = Site(p: BtNode, i: nat, r: BtNode, k: nat)

  ghost predicate Cuttable(m: Bm, s: Site) {
    && s.p in m && m[s.p].h > 0 && SlotsOk(m[s.p]) && s.i < |m[s.p].links| && s.r !in m
    && var c := m[s.p].links[s.i];
    && c in m && c != s.p && SlotsOk(m[c]) && s.k < |m[c].slot|
  }

  ghost function LeftHalf(v: Bn, k: nat): Bn
    requires SlotsOk(v) && k < |v.slot|
  {
    v.(slot := v.slot[..k], links := if v.h == 0 then [] else v.links[..k + 1], hi := v.slot[k])
  }

  ghost function RightHalf(v: Bn, k: nat): Bn
    requires SlotsOk(v) && k < |v.slot|
  {
    v.(slot := v.slot[k + 1..], links := if v.h == 0 then [] else v.links[k + 1..], lo := v.slot[k])
  }

  ghost function Cut(m: Bm, s: Site): Bm
    requires Cuttable(m, s)
  {
    var u := m[s.p];
    var c := u.links[s.i];
    var v := m[c];
    map n | n in m.Keys + {s.r} ::
      if n == s.r then RightHalf(v, s.k)
      else if n == c then LeftHalf(v, s.k)
      else if n == s.p then u.(slot := Cutting.Ins(u.slot, s.i, v.slot[s.k]), links := Cutting.Ins(u.links, s.i + 1, s.r))
      else if m[n].up == c && m[n].lo >= v.slot[s.k] then m[n].(up := s.r)
      else m[n]
  }

  // The facts about the two nodes a cut touches that the cases below start from.
  lemma CutStart(m: Bm, root: BtNode, s: Site)
    requires Struct(m, root) && Cuttable(m, s)
    ensures var c := m[s.p].links[s.i];
      && KidsOk(m, s.p) && KidOk(m, s.p, s.i) && c != root && UpOk(m, root, c) && UpOk(m, root, s.p)
      && m[c].lo < m[c].slot[s.k] < m[c].hi && m[c].h + 1 == m[s.p].h && (m[c].h > 0 ==> KidsOk(m, c))
  {
    var c := m[s.p].links[s.i];
    assert NodeOk(m, root, s.p) && KidOk(m, s.p, s.i) && NodeOk(m, root, c);
  }

  lemma InsRising(s: seq<int>, i: nat, x: int)
    requires Rising(s) && i <= |s| && (i > 0 ==> s[i - 1] < x) && (i < |s| ==> x < s[i])
    ensures Rising(Cutting.Ins(s, i, x))
  {
    var t := Cutting.Ins(s, i, x);
    forall j, k | 0 <= j < k < |t|
      ensures t[j] < t[k]
    {
      assert j < i ==> s[j] <= s[i - 1];
      assert k > i ==> s[i] <= s[k - 1];
    }
  }

  lemma CutParentKid(m: Bm, root: BtNode, s: Site, j: int)
    requires Struct(m, root) && Cuttable(m, s) && 0 <= j < |m[s.p].links| && j != s.i
    ensures KidOk(Cut(m, s), s.p, if j < s.i then j else j + 1)
  {
    CutStart(m, root, s);
    assert KidOk(m, s.p, j);
    assert m[s.p].links[j] != m[s.p].links[s.i];
  }

  lemma CutParentKids(m: Bm, root: BtNode, s: Site)
    requires Struct(m, root) && Cuttable(m, s)
    ensures KidsOk(Cut(m, s), s.p)
  {
    var m' := Cut(m, s);
    forall j | 0 <= j < |m'[s.p].links|
      ensures KidOk(m', s.p, j)
    {
      if j < s.i || j > s.i + 1 {
        CutParentKid(m, root, s, if j < s.i then j else j - 1);
      } else {
        CutStart(m, root, s);
      }
    }
  }

  lemma CutParent(m: Bm, root: BtNode, s: Site)
    requires Struct(m, root) && Cuttable(m, s)
    ensures SlotsOk(Cut(m, s)[s.p])
  {
    CutStart(m, root, s);
    InsRising(m[s.p].slot, s.i, m[m[s.p].links[s.i]].slot[s.k]);
  }

  lemma CutHalves(m: Bm, root: BtNode, s: Site)
    requires Struct(m, root) && Cuttable(m, s)
    ensures var c, m' := m[s.p].links[s.i], Cut(m, s);
      && SlotsOk(m'[c]) && (m'[c].h > 0 ==> KidsOk(m', c)) && SlotsOk(m'[s.r]) && (m'[s.r].h > 0 ==> KidsOk(m', s.r))
  {
    var c, m' := m[s.p].links[s.i], Cut(m, s);
    CutStart(m, root, s);
    if m[c].h > 0 {
      forall j | 0 <= j < |m'[c].links|
        ensures KidOk(m', c, j)
      {
        assert KidOk(m, c, j);
      }
      forall j | 0 <= j < |m'[s.r].links|
        ensures KidOk(m', s.r, j)
      {
        assert KidOk(m, c, j + s.k + 1);
      }
    }
  }

  lemma CutOtherKids(m: Bm, root: BtNode, s: Site, n: BtNode)
    requires Struct(m, root) && Cuttable(m, s) && n in m && n != s.p && n != m[s.p].links[s.i]
    ensures SlotsOk(Cut(m, s)[n]) && (m[n].h > 0 ==> KidsOk(Cut(m, s), n))
  {
    var m' := Cut(m, s);
    CutStart(m, root, s);
    assert NodeOk(m, root, n);
    if m[n].h > 0 {
      forall j | 0 <= j < |m'[n].links|
        ensures KidOk(m', n, j)
      {
        assert KidOk(m, n, j);
      }
    }
  }

  lemma CutStillKid(m: Bm, s: Site, q: BtNode, j: int)
    requires Cuttable(m, s) && q in m && SlotsOk(m[q]) && 0 <= j < |m[q].links|
    ensures var c := m[s.p].links[s.i];
      m[q].links[j] in Cut(m, s)[if q == c && j > s.k then s.r else q].links
  {
    var m' := Cut(m, s);
    var c := m[s.p].links[s.i];
    if q == s.p {
      assert m'[s.p].links[if j <= s.i then j else j + 1] == m[q].links[j];
    } else if q == c && j > s.k {
      assert m'[s.r].links[j - s.k - 1] == m[q].links[j];
    } else if q == c {
      assert m'[c].links[j] == m[q].links[j];
    }
  }

  lemma CutUp(m: Bm, root: BtNode, s: Site, n: BtNode)
    requires Struct(m, root) && Cuttable(m, s) && n in m
    ensures UpOk(Cut(m, s), root, n)
  {
    CutStart(m, root, s);
    assert NodeOk(m, root, n);
    if n != root {
      var q, j := UpEdge(m, root, n);
      CutStillKid(m, s, q, j);
    }
  }

  lemma CutStruct(m: Bm, root: BtNode, s: Site)
    requires Struct(m, root) && Cuttable(m, s)
    ensures Struct(Cut(m, s), root)
  {
    var m' := Cut(m, s);
    forall n | n in m'
      ensures NodeOk(m', root, n)
    {
      if n == s.r {
        CutStart(m, root, s);
        CutHalves(m, root, s);
        assert m'[s.p].links[s.i + 1] == s.r;
      } else {
        CutUp(m, root, s, n);
        if n == s.p {
          CutParent(m, root, s);
          CutParentKids(m, root, s);
        } else if n == m[s.p].links[s.i] {
          CutHalves(m, root, s);
        } else {
          CutOtherKids(m, root, s, n);
        }
      }
    }
  }

  lemma CutKeys(m: Bm, s: Site)
    requires Cuttable(m, s)
    ensures Keys(Cut(m, s)) == Keys(m)
  {
    var m' := Cut(m, s);
    var c := m[s.p].links[s.i];
    var key := m[c].slot[s.k];
    assert m[c].slot == m'[c].slot + [key] + m'[s.r].slot;
    assert m'[s.p].slot[s.i] == key;
    forall k | k in Keys(m)
      ensures k in Keys(m')
    {
      var n: BtNode :| n in m && k in m[n].slot;
      if n == c {
        assert k in m'[c].slot || k in m'[s.r].slot || k in m'[s.p].slot;
      } else {
        InsElement(m[s.p].slot, s.i, key, k);
        assert k in m'[n].slot;
      }
    }
    forall k | k in Keys(m')
      ensures k in Keys(m)
    {
      var n: BtNode :| n in m' && k in m'[n].slot;
      InsElement(m[s.p].slot, s.i, key, k);
      assert key in m[c].slot;
      assert k in m[if n == s.r || k == key then c else n].slot;
    }
  }

  lemma InsElement(s: seq<int>, i: nat, x: int, y: int)
    requires i <= |s|
    ensures y in Cutting.Ins(s, i, x) <==> y in s || y == x
  {
    assert s == s[..i] + s[i..];
  }

  // ---------- Joining ----------

  ghost predicate Mergeable(m: Bm, p: BtNode, i: int) {
    && p in m && m[p].h > 0 && SlotsOk(m[p]) && 0 <= i < |m[p].slot|
    && var l, r := m[p].links[i], m[p].links[i + 1];
    && l in m && r in m && l != p && r != p && l != r && SlotsOk(m[l]) && SlotsOk(m[r]) && m[l].h == m[r].h
  }

  ghost function Merge(m: Bm, p: BtNode, i: int): Bm
    requires Mergeable(m, p, i)
  {
    var u := m[p];
    var l, r := u.links[i], u.links[i + 1];
    map n | n in m.Keys - {r} ::
      if n == l then m[l].(slot := m[l].slot + [u.slot[i]] + m[r].slot, links := m[l].links + m[r].links, hi := m[r].hi)
      else if n == p then u.(slot := Merging.Del(u.slot, i), links := Merging.Del(u.links, i + 1))
      else if m[n].up == r then m[n].(up := l)
      else m[n]
  }

  lemma MergeStart(m: Bm, root: BtNode, p: BtNode, i: int)
    requires Struct(m, root) && p in m && m[p].h > 0 && 0 <= i < |m[p].slot|
    ensures Mergeable(m, p, i)
    ensures var l, r := m[p].links[i], m[p].links[i + 1];
      && KidsOk(m, p) && KidOk(m, p, i) && KidOk(m, p, i + 1) && l != root && r != root
      && UpOk(m, root, l) && UpOk(m, root, r) && UpOk(m, root, p)
      && m[l].lo < m[l].hi == m[p].slot[i] == m[r].lo < m[r].hi && m[l].h + 1 == m[p].h == m[r].h + 1
      && (m[l].h > 0 ==> KidsOk(m, l) && KidsOk(m, r))
  {
    assert NodeOk(m, root, p) && KidOk(m, p, i) && KidOk(m, p, i + 1);
    assert NodeOk(m, root, m[p].links[i]) && NodeOk(m, root, m[p].links[i + 1]);
  }

  lemma MergeParentKid(m: Bm, root: BtNode, p: BtNode, i: int, j: int)
    requires Struct(m, root) && Mergeable(m, p, i) && 0 <= j < |m[p].links| && j != i && j != i + 1
    ensures KidOk(Merge(m, p, i), p, if j < i then j else j - 1)
  {
    MergeStart(m, root, p, i);
    assert KidOk(m, p, j);
    assert m[p].links[j] != m[p].links[i] && m[p].links[j] != m[p].links[i + 1];
  }

  lemma MergeParent(m: Bm, root: BtNode, p: BtNode, i: int)
    requires Struct(m, root) && Mergeable(m, p, i)
    ensures SlotsOk(Merge(m, p, i)[p]) && KidsOk(Merge(m, p, i), p)
  {
    var m' := Merge(m, p, i);
    MergeStart(m, root, p, i);
    forall j | 0 <= j < |m'[p].links|
      ensures KidOk(m', p, j)
    {
      if j != i {
        MergeParentKid(m, root, p, i, if j < i then j else j + 1);
      }
    }
  }

  lemma JoinRising(s: seq<int>, x: int, t: seq<int>)
    requires Rising(s) && Rising(t)
    requires forall j :: 0 <= j < |s| ==> s[j] < x
    requires forall j :: 0 <= j < |t| ==> x < t[j]
    ensures Rising(s + [x] + t)
  {}

  lemma MergeLeft(m: Bm, root: BtNode, p: BtNode, i: int)
    requires Struct(m, root) && Mergeable(m, p, i)
    ensures var l, m' := m[p].links[i], Merge(m, p, i); SlotsOk(m'[l]) && (m'[l].h > 0 ==> KidsOk(m', l))
  {
    var m' := Merge(m, p, i);
    var l, r := m[p].links[i], m[p].links[i + 1];
    MergeStart(m, root, p, i);
    JoinRising(m[l].slot, m[p].slot[i], m[r].slot);
    if m[l].h > 0 {
      forall j | 0 <= j < |m'[l].links|
        ensures KidOk(m', l, j)
      {
        if j < |m[l].links| {
          assert KidOk(m, l, j);
        } else {
          assert KidOk(m, r, j - |m[l].links|);
        }
      }
    }
  }

  lemma MergeOtherKids(m: Bm, root: BtNode, p: BtNode, i: int, n: BtNode)
    requires Struct(m, root) && Mergeable(m, p, i)
    requires n in m && n != p && n != m[p].links[i] && n != m[p].links[i + 1]
    ensures SlotsOk(Merge(m, p, i)[n]) && (m[n].h > 0 ==> KidsOk(Merge(m, p, i), n))
  {
    var m' := Merge(m, p, i);
    MergeStart(m, root, p, i);
    assert NodeOk(m, root, n);
    if m[n].h > 0 {
      forall j | 0 <= j < |m'[n].links|
        ensures KidOk(m', n, j)
      {
        assert KidOk(m, n, j);
      }
    }
  }

  lemma MergeStillKid(m: Bm, p: BtNode, i: int, q: BtNode, j: int)
    requires Mergeable(m, p, i) && q in m && SlotsOk(m[q]) && 0 <= j < |m[q].links| && (q == p ==> j != i + 1)
    ensures var l, r := m[p].links[i], m[p].links[i + 1];
      m[q].links[j] in Merge(m, p, i)[if q == r then l else q].links
  {
    var m' := Merge(m, p, i);
    var l, r := m[p].links[i], m[p].links[i + 1];
    if q == p {
      assert m'[p].links[if j < i + 1 then j else j - 1] == m[q].links[j];
    } else if q == r {
      assert m'[l].links[|m[l].links| + j] == m[q].links[j];
    } else if q == l {
      assert m'[l].links[j] == m[q].links[j];
    }
  }

  lemma MergeUp(m: Bm, root: BtNode, p: BtNode, i: int, n: BtNode)
    requires Struct(m, root) && Mergeable(m, p, i) && n in m && n != m[p].links[i + 1]
    ensures root in Merge(m, p, i) && UpOk(Merge(m, p, i), root, n)
  {
    MergeStart(m, root, p, i);
    assert NodeOk(m, root, n);
    if n != root {
      var q, j := UpEdge(m, root, n);
      MergeStillKid(m, p, i, q, j);
    }
  }

  lemma MergeStruct(m: Bm, root: BtNode, p: BtNode, i: int)
    requires Struct(m, root) && Mergeable(m, p, i)
    ensures Struct(Merge(m, p, i), root)
  {
    var m' := Merge(m, p, i);
    MergeStart(m, root, p, i);
    forall n | n in m'
      ensures NodeOk(m', root, n)
    {
      MergeUp(m, root, p, i, n);
      if n == p {
        MergeParent(m, root, p, i);
      } else if n == m[p].links[i] {
        MergeLeft(m, root, p, i);
      } else {
        MergeOtherKids(m, root, p, i, n);
      }
    }
  }

  lemma DelElement(s: seq<int>, i: nat, y: int)
    requires i < |s|
    ensures y in s <==> y in Merging.Del(s, i) || y == s[i]
  {
    assert s == s[..i] + [s[i]] + s[i + 1..];
  }

  lemma MergeKeys(m: Bm, p: BtNode, i: int)
    requires Mergeable(m, p, i)
    ensures Keys(Merge(m, p, i)) == Keys(m)
  {
    var m' := Merge(m, p, i);
    var l, r := m[p].links[i], m[p].links[i + 1];
    forall k | k in Keys(m)
      ensures k in Keys(m')
    {
      var n: BtNode :| n in m && k in m[n].slot;
      DelElement(m[p].slot, i, k);
      assert k in m'[if n == r || n == l || k == m[p].slot[i] then l else n].slot;
    }
    forall k | k in Keys(m')
      ensures k in Keys(m)
    {
      var n: BtNode :| n in m' && k in m'[n].slot;
      DelElement(m[p].slot, i, k);
      assert k in m[n].slot || k in m[r].slot || k in m[p].slot;
    }
  }
}
