/** The node operations of the B-tree on the heap: search in a node, split, the two moves, and the merge. */
module BTreeOps {
  import opened Words
  import opened BTree
  import opened BTreeCut
  import Cutting
  import Merging

  // `i` is the first position whose key is not below `key`.
  ghost predicate Position(s: seq<int>, key: int, i: int) {
    && 0 <= i <= |s| && (forall j :: 0 <= j < i ==> s[j] < key) && (forall j :: i <= j < |s| ==> key <= s[j])
  }

  method BtSearchNodeIndex(n: BtNode, key: int) returns (i: nat)
    requires Rising(n.slot)
    ensures Position(n.slot, key, i)
  {
    var lo, hi := -1, |n.slot|;
    while lo + 1 < hi
      invariant -1 <= lo < hi <= |n.slot|
      invariant forall j :: 0 <= j <= lo ==> n.slot[j] < key
      invariant forall j :: hi <= j < |n.slot| ==> key <= n.slot[j]
    {
      var mid := (lo + hi) / 2;
      if n.slot[mid] == key {
        return mid;
      } else if n.slot[mid] < key {
        lo := mid;
      } else {
        hi := mid;
      }
    }
    return hi;
  }

  // The child at the position of a key that the node does not hold lies around the key.
  lemma PositionInside(m: Bm, root: BtNode, n: BtNode, key: int, i: nat)
    requires Struct(m, root) && n in m && m[n].h > 0 && Inside(m[n], key) && Position(m[n].slot, key, i)
    requires i < |m[n].slot| ==> m[n].slot[i] != key
    ensures SlotsOk(m[n]) && i < |m[n].links| && KidOk(m, n, i) && Inside(m[m[n].links[i]], key)
  {
    assert NodeOk(m, root, n) && KidOk(m, n, i);
  }

  // ---------- Stores ----------

  // One node gets new contents.
  method Store(n: BtNode, slot: seq<int>, links: seq<BtNode>, ghost m: Bm, ghost hh: int) returns (ghost m': Bm)
    requires Mirrored(m, hh) && n in m
    modifies n
    ensures m' == m[n := m[n].(slot := slot, links := links)] && Mirrored(m', hh)
  {
    n.slot, n.links := slot, links;
    m' := m[n := m[n].(slot := slot, links := links)];
  }

  // The nodes of `m'` store what they store in `m`.
  ghost predicate SameStored(m: Bm, m': Bm) {
    && m'.Keys <= m.Keys
    && forall n {:trigger m'[n]} :: n in m' ==> m'[n].slot == m[n].slot && m'[n].links == m[n].links && m'[n].h == m[n].h
  }

  lemma MirroredVia(m: Bm, m': Bm, hh: int)
    requires Mirrored(m, hh) && SameStored(m, m')
    ensures Mirrored(m', hh)
  {}

  // Two adjacent children of an internal node.
  ghost predicate Siblings(m: Bm, root: BtNode, p: BtNode, i: nat) {
    && Struct(m, root) && p in m && m[p].h > 0 && i < |m[p].slot| && |m[p].links| == |m[p].slot| + 1
    && m[p].links[i] in m && m[p].links[i + 1] in m
  }

  // ---------- Split ----------

  ghost function SplitStores(m: Bm, s: Site): Bm
    requires Cuttable(m, s)
  {
    var c := m[s.p].links[s.i];
    var v := m[c];
    m[s.r := RightHalf(v, s.k)]
     [c := v.(slot := v.slot[..s.k], links := if v.h == 0 then [] else v.links[..s.k + 1])]
     [s.p := m[s.p].(slot := Cutting.Ins(m[s.p].slot, s.i, v.slot[s.k]), links := Cutting.Ins(m[s.p].links, s.i + 1, s.r))]
  }

  lemma SplitIsCut(m: Bm, s: Site)
    requires Cuttable(m, s)
    ensures SameStored(SplitStores(m, s), Cut(m, s))
  {}

  lemma SplitMirrored(m: Bm, s: Site, hh: int)
    requires Cuttable(m, s) && Mirrored(SplitStores(m, s), hh)
    ensures Mirrored(Cut(m, s), hh)
  {
    SplitIsCut(m, s);
    MirroredVia(SplitStores(m, s), Cut(m, s), hh);
  }

  // The contents of the new node, and what is left in the old one.
  lemma SplitContents(m: Bm, root: BtNode, s: Site)
    requires Struct(m, root) && s.p in m && m[s.p].h > 0 && s.i < |m[s.p].links| && s.r !in m && s.k == MIN_DEGREE - 1
    requires m[s.p].links[s.i] in m && |m[m[s.p].links[s.i]].slot| == MAX_NODE_SLOTS
    ensures Cuttable(m, s)
    ensures var c := m[s.p].links[s.i]; var v := m[c];
      && c != s.p && v.h < m[s.p].h && s.i <= |m[s.p].slot| && |m[s.p].links| == |m[s.p].slot| + 1
      && RightHalf(v, s.k).slot == v.slot[MIN_DEGREE..]
      && (if v.links != [] then |v.links| == MAX_NODE_SLOTS + 1 && v.h > 0 && RightHalf(v, s.k).links == v.links[MIN_DEGREE..]
          else v.h == 0 && RightHalf(v, s.k).links == [])
  {
    assert NodeOk(m, root, s.p) && KidOk(m, s.p, s.i) && NodeOk(m, root, m[s.p].links[s.i]);
  }

  // bt_split_child_node
  method BtSplitChildNode(child: BtNode, parent: BtNode, pindex: nat, ghost m: Bm, ghost root: BtNode, ghost hh: int)
      returns (ghost m': Bm, ghost r: BtNode)
    requires Struct(m, root) && Mirrored(m, hh) && parent in m && 0 < m[parent].h <= hh
    requires pindex < |m[parent].links| && m[parent].links[pindex] == child && child in m && |m[child].slot| == MAX_NODE_SLOTS
    modifies parent, child
    ensures fresh(r) && r !in m && Cuttable(m, Site(parent, pindex, r, MIN_DEGREE - 1))
    ensures m' == Cut(m, Site(parent, pindex, r, MIN_DEGREE - 1)) && Mirrored(m', hh)
  {
    var n := new BtNode();
    r := n;
    ghost var s := Site(parent, pindex, n, MIN_DEGREE - 1);
    SplitContents(m, root, s);
    assert Look(child) && Look(parent);
    n.slot := child.slot[MIN_DEGREE..];
    if child.links != [] {
      n.links := child.links[MIN_DEGREE..];
    }
    ghost var m1 := m[n := RightHalf(m[child], MIN_DEGREE - 1)];
    assert Mirrored(m1, hh);
    var key := child.slot[MIN_DEGREE - 1];
    m' := Store(child, child.slot[..MIN_DEGREE - 1], if child.links != [] then child.links[..MIN_DEGREE] else [], m1, hh);
    m' := Store(parent, Cutting.Ins(parent.slot, pindex, key), Cutting.Ins(parent.links, pindex + 1, n), m', hh);
    assert m' == SplitStores(m, s);
    SplitMirrored(m, s, hh);
    m' := Cut(m, s);
  }

  // A new root above the old one; it has a single child until that child is split.
  ghost function Grow(m: Bm, root: BtNode, nr: BtNode): Bm
    requires root in m
  {
    m[root := m[root].(up := nr)][nr := Bn([], [root], null, -1, W, m[root].h + 1)]
  }

  lemma GrowStruct(m: Bm, root: BtNode, nr: BtNode)
    requires Struct(m, root) && nr !in m
    ensures Struct(Grow(m, root, nr), nr) && Keys(Grow(m, root, nr)) == Keys(m)
  {
    var m' := Grow(m, root, nr);
    assert NodeOk(m, root, root);
    forall n | n in m'
      ensures NodeOk(m', nr, n)
    {
      if n != nr {
        assert NodeOk(m, root, n);
        if m[n].h > 0 {
          forall i | 0 <= i < |m'[n].links|
            ensures KidOk(m', n, i)
          {
            assert KidOk(m, n, i);
          }
        }
      }
    }
    forall k | k in Keys(m)
      ensures k in Keys(m')
    {
      var n: BtNode :| n in m && k in m[n].slot;
      assert k in m'[n].slot;
    }
  }

  // ---------- Moves ----------

  ghost predicate Redividable(m: Bm, p: BtNode, i: nat, k: nat) {
    Mergeable(m, p, i) && Cuttable(Merge(m, p, i), Site(p, i, m[p].links[i + 1], k))
  }

  // The siblings at `i` and `i + 1` redivided so that the left one has `k` keys.
  ghost function Redivide(m: Bm, p: BtNode, i: nat, k: nat): Bm
    requires Redividable(m, p, i, k)
  {
    Cut(Merge(m, p, i), Site(p, i, m[p].links[i + 1], k))
  }

  lemma RedivideStruct(m: Bm, root: BtNode, p: BtNode, i: nat, k: nat)
    requires Siblings(m, root, p, i) && k <= |m[m[p].links[i]].slot| + |m[m[p].links[i + 1]].slot|
    ensures Redividable(m, p, i, k) && Struct(Redivide(m, p, i, k), root) && Keys(Redivide(m, p, i, k)) == Keys(m)
  {
    MergeStart(m, root, p, i);
    MergeStruct(m, root, p, i);
    MergeKeys(m, p, i);
    var m1 := Merge(m, p, i);
    var s := Site(p, i, m[p].links[i + 1], k);
    assert NodeOk(m1, root, p) && KidOk(m1, p, i) && NodeOk(m1, root, m1[p].links[i]);
    CutStruct(m1, root, s);
    CutKeys(m1, s);
  }

  lemma DelIns<T>(s: seq<T>, i: nat, x: T)
    requires i < |s|
    ensures Cutting.Ins(Merging.Del(s, i), i, x) == s[i := x]
  {}

  // What redividing stores: the two siblings share out their keys and the separator anew.
  lemma RedivideParent(m: Bm, p: BtNode, i: nat, k: nat)
    requires Redividable(m, p, i, k)
    ensures var l, r, m' := m[p].links[i], m[p].links[i + 1], Redivide(m, p, i, k);
      var joined := m[l].slot + [m[p].slot[i]] + m[r].slot;
      && p in m' && m'.Keys == m.Keys && k < |joined| && m'[p].h == m[p].h
      && m'[p].slot == m[p].slot[i := joined[k]] && m'[p].links == m[p].links
  {
    var l, r, m' := m[p].links[i], m[p].links[i + 1], Redivide(m, p, i, k);
    var joined := m[l].slot + [m[p].slot[i]] + m[r].slot;
    DelIns(m[p].slot, i, joined[k]);
    DelIns(m[p].links, i + 1, r);
  }

  lemma RedivideHalves(m: Bm, p: BtNode, i: nat, k: nat)
    requires Redividable(m, p, i, k)
    ensures var l, r, m' := m[p].links[i], m[p].links[i + 1], Redivide(m, p, i, k);
      var joined, kids := m[l].slot + [m[p].slot[i]] + m[r].slot, m[l].links + m[r].links;
      && l in m' && r in m' && k < |joined| && m'[l].h == m[l].h && m'[r].h == m[r].h
      && m'[l].slot == joined[..k] && m'[r].slot == joined[k + 1..]
      && m'[l].lo == m[l].lo && m'[l].hi == joined[k] && m'[r].lo == joined[k] && m'[r].hi == m[r].hi
      && (if m[l].h > 0 then k + 1 <= |kids| && m'[l].links == kids[..k + 1] && m'[r].links == kids[k + 1..]
          else m'[l].links == [] && m'[r].links == [])
  {}

  lemma RedivideOthers(m: Bm, p: BtNode, i: nat, k: nat, n: BtNode)
    requires Redividable(m, p, i, k) && n in m && n != p && n != m[p].links[i] && n != m[p].links[i + 1]
    ensures var m' := Redivide(m, p, i, k); n in m' && m'[n] == m[n].(up := m'[n].up)
  {}

  ghost function MoveStores(m: Bm, p: BtNode, i: nat, key: int, ls: seq<int>, ll: seq<BtNode>, rs: seq<int>, rl: seq<BtNode>): Bm
    requires Mergeable(m, p, i)
  {
    var l, r := m[p].links[i], m[p].links[i + 1];
    m[l := m[l].(slot := ls, links := ll)][r := m[r].(slot := rs, links := rl)]
     [p := m[p].(slot := m[p].slot[i := key])]
  }

  lemma MoveIsRedivide(m: Bm, p: BtNode, i: nat, k: nat, key: int, ls: seq<int>, ll: seq<BtNode>, rs: seq<int>, rl: seq<BtNode>)
    requires Redividable(m, p, i, k)
    requires var l, r := m[p].links[i], m[p].links[i + 1];
      var joined, kids := m[l].slot + [m[p].slot[i]] + m[r].slot, m[l].links + m[r].links;
      && k < |joined| && key == joined[k] && ls == joined[..k] && rs == joined[k + 1..]
      && (if m[l].h > 0 then k + 1 <= |kids| && ll == kids[..k + 1] && rl == kids[k + 1..] else ll == [] && rl == [])
    ensures SameStored(MoveStores(m, p, i, key, ls, ll, rs, rl), Redivide(m, p, i, k))
  {
    RedivideParent(m, p, i, k);
    RedivideHalves(m, p, i, k);
    var m1, m' := MoveStores(m, p, i, key, ls, ll, rs, rl), Redivide(m, p, i, k);
    forall n | n in m' && n != p && n != m[p].links[i] && n != m[p].links[i + 1]
      ensures m'[n].slot == m1[n].slot && m'[n].links == m1[n].links && m'[n].h == m1[n].h
    {
      RedivideOthers(m, p, i, k, n);
    }
  }

  // The stores of a move, for contents that have been computed.
  method MoveKeys(l: BtNode, r: BtNode, p: BtNode, i: nat, key: int, ls: seq<int>, ll: seq<BtNode>, rs: seq<int>, rl: seq<BtNode>,
                  ghost m: Bm, ghost k: nat, ghost hh: int) returns (ghost m': Bm)
    requires Mirrored(m, hh) && Redividable(m, p, i, k) && l == m[p].links[i] && r == m[p].links[i + 1] && m[p].h <= hh
    requires SameStored(MoveStores(m, p, i, key, ls, ll, rs, rl), Redivide(m, p, i, k))
    modifies l, r, p
    ensures m' == Redivide(m, p, i, k) && Mirrored(m', hh)
  {
    assert Look(p);
    var m1 := Store(l, ls, ll, m, hh);
    var m2 := Store(r, rs, rl, m1, hh);
    assert p.slot == m[p].slot && p.links == m[p].links;
    var m3 := Store(p, p.slot[i := key], p.links, m2, hh);
    m' := Redivide(m, p, i, k);
    MirroredVia(m3, m', hh);
  }

  lemma JoinedParts<T>(a: seq<T>, x: T, b: seq<T>)
    requires |b| > 0
    ensures var s, k := a + [x] + b, |a| + 1; s[k] == b[0] && s[..k] == a + [x] && s[k + 1..] == b[1..]
  {}

  lemma PairedParts<T>(a: seq<T>, b: seq<T>)
    requires |b| > 0
    ensures var s, k := a + b, |a|; s[..k + 1] == a + [b[0]] && s[k + 1..] == b[1..]
  {}

  lemma JoinedLast<T>(a: seq<T>, x: T, b: seq<T>, k: nat)
    requires k + 1 == |a|
    ensures var s := a + [x] + b; s[k] == a[k] && s[..k] == a[..k] && s[k + 1..] == [x] + b
  {}

  lemma PairedLast<T>(a: seq<T>, b: seq<T>, k: nat)
    requires k + 1 == |a|
    ensures var s := a + b; s[..k] == a[..k] && s[k..] == [a[k]] + b
  {}

  // The contents after a move to the left, and after a move to the right.
  lemma LeftContents(m: Bm, root: BtNode, p: BtNode, i: nat, k: nat)
    requires Siblings(m, root, p, i)
    requires var l, r := m[p].links[i], m[p].links[i + 1]; |m[r].slot| > 0 && k == |m[l].slot| + 1
    ensures Redividable(m, p, i, k)
    ensures var l, r := m[p].links[i], m[p].links[i + 1];
      && (m[r].links != [] <==> m[l].links != []) && l != r && l != p && r != p && m[l].h <= m[p].h && m[r].h <= m[p].h
      && SameStored(MoveStores(m, p, i, m[r].slot[0], m[l].slot + [m[p].slot[i]],
                               if m[r].links != [] then m[l].links + [m[r].links[0]] else m[l].links, m[r].slot[1..],
                               if m[r].links != [] then m[r].links[1..] else m[r].links),
                    Redivide(m, p, i, k))
  {
    MergeStart(m, root, p, i);
    RedivideStruct(m, root, p, i, k);
    var l, r := m[p].links[i], m[p].links[i + 1];
    JoinedParts(m[l].slot, m[p].slot[i], m[r].slot);
    if m[l].h > 0 { PairedParts(m[l].links, m[r].links); }
    MoveIsRedivide(m, p, i, k, m[r].slot[0], m[l].slot + [m[p].slot[i]],
                   if m[r].links != [] then m[l].links + [m[r].links[0]] else m[l].links, m[r].slot[1..],
                   if m[r].links != [] then m[r].links[1..] else m[r].links);
  }

  lemma RightContents(m: Bm, root: BtNode, p: BtNode, i: nat, k: nat)
    requires Siblings(m, root, p, i) && k + 1 == |m[m[p].links[i]].slot|
    ensures Redividable(m, p, i, k)
    ensures var l, r := m[p].links[i], m[p].links[i + 1];
      && (m[r].links != [] <==> m[l].links != []) && l != r && l != p && r != p && m[l].h <= m[p].h && m[r].h <= m[p].h
      && (m[r].links != [] ==> |m[l].links| == k + 2)
      && SameStored(MoveStores(m, p, i, m[l].slot[k], m[l].slot[..k],
                               if m[r].links != [] then m[l].links[..k + 1] else m[l].links, [m[p].slot[i]] + m[r].slot,
                               if m[r].links != [] then [m[l].links[k + 1]] + m[r].links else m[r].links),
                    Redivide(m, p, i, k))
  {
    MergeStart(m, root, p, i);
    RedivideStruct(m, root, p, i, k);
    var l, r := m[p].links[i], m[p].links[i + 1];
    JoinedLast(m[l].slot, m[p].slot[i], m[r].slot, k);
    if m[l].h > 0 { PairedLast(m[l].links, m[r].links, k + 1); }
    MoveIsRedivide(m, p, i, k, m[l].slot[k], m[l].slot[..k],
                   if m[r].links != [] then m[l].links[..k + 1] else m[l].links, [m[p].slot[i]] + m[r].slot,
                   if m[r].links != [] then [m[l].links[k + 1]] + m[r].links else m[r].links);
  }

  // bt_move_to_left: the separator goes to the left node, the first key of the right node replaces it.
  method BtMoveToLeft(parent: BtNode, idx: nat, ghost m: Bm, ghost root: BtNode, ghost k: nat, ghost hh: int) returns (ghost m': Bm)
    requires Siblings(m, root, parent, idx) && Mirrored(m, hh) && m[parent].h <= hh
    requires var l, r := m[parent].links[idx], m[parent].links[idx + 1]; |m[r].slot| > 0 && k == |m[l].slot| + 1
    modifies parent, m[parent].links[idx], m[parent].links[idx + 1]
    ensures Redividable(m, parent, idx, k) && m' == Redivide(m, parent, idx, k) && Mirrored(m', hh)
  {
    LeftContents(m, root, parent, idx, k);
    assert Look(parent);
    var l, r := parent.links[idx], parent.links[idx + 1];
    assert Look(l) && Look(r);
    var ls, rs := l.slot + [parent.slot[idx]], r.slot[1..];
    var ll, rl := l.links, r.links;
    if r.links != [] {
      ll, rl := l.links + [r.links[0]], r.links[1..];
    }
    m' := MoveKeys(l, r, parent, idx, r.slot[0], ls, ll, rs, rl, m, k, hh);
  }

  // bt_move_to_right: the separator goes to the right node, the last key of the left node replaces it.
  method BtMoveToRight(parent: BtNode, idx: nat, ghost m: Bm, ghost root: BtNode, ghost k: nat, ghost hh: int) returns (ghost m': Bm)
    requires Siblings(m, root, parent, idx) && Mirrored(m, hh) && m[parent].h <= hh
    requires k + 1 == |m[m[parent].links[idx]].slot|
    modifies parent, m[parent].links[idx], m[parent].links[idx + 1]
    ensures Redividable(m, parent, idx, k) && m' == Redivide(m, parent, idx, k) && Mirrored(m', hh)
  {
    RightContents(m, root, parent, idx, k);
    assert Look(parent);
    var l, r := parent.links[idx], parent.links[idx + 1];
    assert Look(l) && Look(r);
    var e := |l.slot| - 1;
    var ls, rs := l.slot[..e], [parent.slot[idx]] + r.slot;
    var ll, rl := l.links, r.links;
    if r.links != [] {
      ll, rl := l.links[..e + 1], [l.links[e + 1]] + r.links;
    }
    m' := MoveKeys(l, r, parent, idx, l.slot[e], ls, ll, rs, rl, m, k, hh);
  }

  // ---------- Merge ----------

  // The root has lost its last key: its only child takes its place.
  ghost function Collapse(m: Bm, root: BtNode): Bm
    requires root in m && |m[root].links| == 1 && m[root].links[0] in m
  {
    (m - {root})[m[root].links[0] := m[m[root].links[0]].(up := null)]
  }

  lemma CollapseNode(m: Bm, root: BtNode, n: BtNode)
    requires Struct(m, root) && m[root].h > 0 && |m[root].links| == 1 && n in m && n != root && m[root].links[0] in m
    requires m[n].slot != []
    ensures NodeOk(Collapse(m, root), m[root].links[0], n)
  {
    var c := m[root].links[0];
    assert NodeOk(m, root, root) && KidOk(m, root, 0) && NodeOk(m, root, n) && NodeOk(m, root, c);
    var m' := Collapse(m, root);
    if n != c {
      if m[n].h >= m[c].h {
        assert Inside(m[n], m[n].slot[0]);
        Nest(m, root, c, n, m[n].slot[0]);
      }
      var p, j := UpEdge(m, root, n);
    }
    if m[n].h > 0 {
      forall i | 0 <= i < |m'[n].links|
        ensures KidOk(m', n, i)
      {
        assert KidOk(m, n, i);
      }
    }
  }

  lemma CollapseStruct(m: Bm, root: BtNode)
    requires Struct(m, root) && m[root].h > 0 && m[root].slot == []
    requires forall n :: n in m && n != root ==> m[n].slot != []
    ensures |m[root].links| == 1 && m[root].links[0] in m && m[root].links[0] != root
    ensures Struct(Collapse(m, root), m[root].links[0]) && Keys(Collapse(m, root)) == Keys(m)
  {
    assert NodeOk(m, root, root) && KidOk(m, root, 0);
    var m' := Collapse(m, root);
    forall n | n in m'
      ensures NodeOk(m', m[root].links[0], n)
    {
      CollapseNode(m, root, n);
    }
    forall k | k in Keys(m)
      ensures k in Keys(m')
    {
      var n: BtNode :| n in m && k in m[n].slot;
      assert k in m'[n].slot;
    }
  }

  // The separator to merge around: the last one when the search ended behind it.
  function Adjust(idx: nat, len: nat): nat {
    if idx == len > 0 then idx - 1 else idx
  }

  // The picture after a merge, with the root replaced if it ran empty.
  ghost function Merged(m: Bm, root: BtNode, p: BtNode, i: nat): Bm
    requires Mergeable(m, p, i)
  {
    var m1 := Merge(m, p, i);
    if p == root && m1[p].slot == [] && |m1[p].links| == 1 && m1[p].links[0] in m1 then Collapse(m1, p) else m1
  }

  ghost function MergeStores(m: Bm, p: BtNode, i: nat): Bm
    requires Mergeable(m, p, i)
  {
    var l, r := m[p].links[i], m[p].links[i + 1];
    m[l := m[l].(slot := m[l].slot + [m[p].slot[i]] + m[r].slot, links := m[l].links + m[r].links)]
     [p := m[p].(slot := Merging.Del(m[p].slot, i), links := Merging.Del(m[p].links, i + 1))]
  }

  lemma MergeIsStores(m: Bm, p: BtNode, i: nat)
    requires Mergeable(m, p, i)
    ensures SameStored(MergeStores(m, p, i), Merge(m, p, i))
  {}

  // The stores of a merge of two nodes with the minimum of keys.
  method MergeNodes(p: BtNode, i: nat, ghost m: Bm, ghost root: BtNode, ghost hh: int) returns (n1: BtNode, ghost m': Bm)
    requires Siblings(m, root, p, i) && Mirrored(m, hh) && m[p].h <= hh
    requires |m[m[p].links[i]].slot| == MIN_NODE_SLOTS && |m[m[p].links[i + 1]].slot| == MIN_NODE_SLOTS
    modifies p, m[p].links[i]
    ensures Mergeable(m, p, i) && n1 == m[p].links[i] && m' == Merge(m, p, i) && Mirrored(m', hh)
  {
    assert Look(p);
    n1 := p.links[i];
    var n2 := p.links[i + 1];
    assert Look(n1) && Look(n2);
    MergeStart(m, root, p, i);
    var slot := n1.slot[..MIN_DEGREE - 1] + [p.slot[i]] + n2.slot[..MIN_NODE_SLOTS];
    var links := if n1.links != [] then n1.links[..MIN_DEGREE] + n2.links[..MIN_DEGREE] else [];
    assert slot == m[n1].slot + [m[p].slot[i]] + m[n2].slot && links == m[n1].links + m[n2].links;
    var m1 := Store(n1, slot, links, m, hh);
    assert p.slot == m[p].slot && p.links == m[p].links;
    var m2 := Store(p, Merging.Del(p.slot, i), Merging.Del(p.links, i + 1), m1, hh);
    m' := Merge(m, p, i);
    MergeIsStores(m, p, i);
    MirroredVia(m2, m', hh);
  }

  // bt_merge_siblings; an emptied root is replaced by the merged node.
  method BtMergeSiblings(t: BtRoot, parent: BtNode, idx: nat, ghost m: Bm, ghost i: nat, ghost hh: int) returns (n1: BtNode, ghost m': Bm)
    requires i == Adjust(idx, if parent in m then |m[parent].slot| else 0)
    requires Siblings(m, t.root, parent, i) && Mirrored(m, hh) && m[parent].h <= hh
    requires |m[m[parent].links[i]].slot| == MIN_NODE_SLOTS && |m[m[parent].links[i + 1]].slot| == MIN_NODE_SLOTS
    modifies t`root, parent, m[parent].links[i]
    ensures Mergeable(m, parent, i) && n1 == m[parent].links[i] && m' == Merged(m, old(t.root), parent, i) && Mirrored(m', hh)
    ensures t.root == if parent == old(t.root) && |m[parent].slot| == 1 then n1 else old(t.root)
  {
    assert Look(parent);
    var j := idx;
    if idx == |parent.slot| {
      j := idx - 1;
    }
    n1, m' := MergeNodes(parent, j, m, t.root, hh);
    assert Look(parent);
    if |parent.slot| == 0 && t.root == parent {
      assert m'[parent].links == [n1];
      t.root := n1;
      MirroredVia(m', Collapse(m', parent), hh);
      m' := Collapse(m', parent);
    }
  }
}
