/** Replacing a key of an internal node by its predecessor or successor, value level. */
module BTreeReplace {
  import opened Words
  import opened BTree
  import opened BTreeSteps

  function Shifted(x: int, s: int, s2: int): int {
    if x == s then s2 else x
  }

  // The key s becomes s2 wherever it stands, in a node or as the end of an interval.
  ghost function MoveKey(m: Bm, s: int, s2: int): Bm {
    map n | n in m ::
      m[n].(lo := Shifted(m[n].lo, s, s2), hi := Shifted(m[n].hi, s, s2),
            slot := seq(|m[n].slot|, i requires 0 <= i < |m[n].slot| => Shifted(m[n].slot[i], s, s2)))
  }

  // No key but s lies between s and s2, which is not a key itself.
  ghost predicate Alone(m: Bm, s: int, s2: int) {
    && -1 < s < W && -1 < s2 < W
    && forall k :: k in Keys(m) && k != s ==> (k < s && k < s2) || (k > s && k > s2)
  }

  lemma {:induction false} BoundsAreKeys(m: Bm, root: BtNode, n: BtNode)
    requires Struct(m, root) && n in m
    ensures (m[n].lo == -1 || m[n].lo in Keys(m)) && (m[n].hi == W || m[n].hi in Keys(m))
    decreases m[root].h - m[n].h
  {
    assert NodeOk(m, root, n);
    if n != root {
      var p, i := UpEdge(m, root, n);
      assert NodeOk(m, root, p);
      BoundsAreKeys(m, root, p);
      assert forall j :: 0 <= j < |m[p].slot| ==> m[p].slot[j] in m[p].slot;
      assert forall k :: k in m[p].slot ==> k in Keys(m);
    }
  }

  // The ends of an interval are keys of higher nodes.
  lemma {:induction false} BoundsAbove(m: Bm, root: BtNode, n: BtNode, b: int)
    requires Struct(m, root) && n in m && (b == m[n].lo || b == m[n].hi) && -1 < b < W
    ensures exists y, j :: y in m && m[y].h > m[n].h && 0 <= j < |m[y].slot| && m[y].slot[j] == b
    decreases m[root].h - m[n].h
  {
    assert NodeOk(m, root, n);
    if n != root {
      var p, i := UpEdge(m, root, n);
      assert NodeOk(m, root, p);
      if b == m[p].lo || b == m[p].hi {
        BoundsAbove(m, root, p, b);
      } else if b == m[n].lo {
        assert m[p].slot[i - 1] == b;
      } else {
        assert m[p].slot[i] == b;
      }
    }
  }

  // Nodes above the one that holds s do not notice.
  lemma MoveKeyAbove(m: Bm, root: BtNode, s: int, s2: int, sub: BtNode, i: nat, x: BtNode)
    requires Struct(m, root) && sub in m && i < |m[sub].slot| && m[sub].slot[i] == s && x in m && m[x].h > m[sub].h && -1 < s < W
    ensures MoveKey(m, s, s2)[x] == m[x]
  {
    if m[x].lo == s || m[x].hi == s {
      BoundsAbove(m, root, x, s);
      var y, j :| y in m && m[y].h > m[x].h && 0 <= j < |m[y].slot| && m[y].slot[j] == s;
      KeyOnce(m, root, sub, i, y, j);
    }
    MoveKeyStores(m, root, s, s2, sub, i, x);
  }

  lemma MoveKeySlots(m: Bm, root: BtNode, s: int, s2: int, n: BtNode)
    requires Struct(m, root) && n in m && Alone(m, s, s2)
    ensures SlotsOk(MoveKey(m, s, s2)[n])
  {
    BoundsAreKeys(m, root, n);
    assert NodeOk(m, root, n);
    assert forall j :: 0 <= j < |m[n].slot| ==> m[n].slot[j] in m[n].slot;
    assert forall k :: k in m[n].slot ==> k in Keys(m);
  }

  lemma MoveKeyStruct(m: Bm, root: BtNode, s: int, s2: int)
    requires Struct(m, root) && Alone(m, s, s2)
    ensures Struct(MoveKey(m, s, s2), root)
  {
    var m' := MoveKey(m, s, s2);
    forall n | n in m'
      ensures NodeOk(m', root, n)
    {
      assert NodeOk(m, root, n);
      MoveKeySlots(m, root, s, s2, n);
      if m[n].h > 0 {
        forall i | 0 <= i < |m'[n].links|
          ensures KidOk(m', n, i)
        {
          assert KidOk(m, n, i);
        }
      }
    }
  }

  lemma MoveKeyKeys(m: Bm, s: int, s2: int)
    requires s in Keys(m)
    ensures Keys(MoveKey(m, s, s2)) == Keys(m) - {s} + {s2}
  {
    var m' := MoveKey(m, s, s2);
    forall k | k in Keys(m)
      ensures Shifted(k, s, s2) in Keys(m')
    {
      var n: BtNode :| n in m && k in m[n].slot;
      var i :| 0 <= i < |m[n].slot| && m[n].slot[i] == k;
      assert m'[n].slot[i] == Shifted(k, s, s2);
      assert Shifted(k, s, s2) in m'[n].slot;
    }
    assert Shifted(s, s, s2) in Keys(m');
    assert forall k :: k in Keys(m) && k != s ==> Shifted(k, s, s2) == k;
    forall k | k in Keys(m')
      ensures k in Keys(m) - {s} + {s2}
    {
      var n: BtNode :| n in m' && k in m'[n].slot;
      var i :| 0 <= i < |m'[n].slot| && m'[n].slot[i] == k;
      assert m[n].slot[i] in m[n].slot;
    }
  }

  lemma MoveKeySizes(m: Bm, root: BtNode, s: int, s2: int)
    requires SizeOk(m, root)
    ensures SizeOk(MoveKey(m, s, s2), root)
  {
    var m' := MoveKey(m, s, s2);
    forall n | n in m'
      ensures |m'[n].slot| == |m[n].slot|
    {}
  }

  // All it stores is the new key in the one node that held the old one.
  lemma MoveKeyStores(m: Bm, root: BtNode, s: int, s2: int, sub: BtNode, i: nat, n: BtNode)
    requires Struct(m, root) && sub in m && i < |m[sub].slot| && m[sub].slot[i] == s && n in m
    ensures MoveKey(m, s, s2)[n].slot == if n == sub then m[sub].slot[i := s2] else m[n].slot
  {
    assert NodeOk(m, root, n) && NodeOk(m, root, sub);
    forall j | 0 <= j < |m[n].slot|
      ensures MoveKey(m, s, s2)[n].slot[j] == if n == sub && j == i then s2 else m[n].slot[j]
    {
      if m[n].slot[j] == s {
        if m[n].h <= m[sub].h { KeyOnce(m, root, n, j, sub, i); } else { KeyOnce(m, root, sub, i, n, j); }
      }
    }
  }

  // ---------- Predecessor and successor ----------

  // No key lies strictly between the last key of a leaf and the upper end of its interval.
  lemma LastAlone(m: Bm, root: BtNode, x: BtNode, k: int)
    requires Struct(m, root) && x in m && m[x].h == 0 && m[x].slot != [] && k in Keys(m)
    ensures !(m[x].slot[|m[x].slot| - 1] < k < m[x].hi)
    ensures !(m[x].lo < k < m[x].slot[0])
  {
    var y: BtNode :| y in m && k in m[y].slot;
    assert NodeOk(m, root, x) && NodeOk(m, root, y);
    if Inside(m[x], k) {
      if m[y].h == 0 {
        Nest(m, root, x, y, k);
      } else {
        NoDeeper(m, root, x, y, k);
      }
    }
  }

  // bt_max_node
  method BtMaxNode(n: BtNode, ghost m: Bm, ghost root: BtNode) returns (x: BtNode)
    requires Sound(m, root) && n in m && n != root && Mirrored(m, m[n].h)
    ensures x in m && m[x].h == 0 && x != root && m[x].hi == m[n].hi && m[n].lo <= m[x].lo && x.slot == m[x].slot != []
  {
    x := n;
    assert NodeOk(m, root, n) && Look(x);
    while x.links != []
      invariant x in m && Look(x) && 0 <= m[x].h <= m[n].h && x != root && m[x].hi == m[n].hi && m[n].lo <= m[x].lo
      decreases m[x].h
    {
      assert NodeOk(m, root, x) && KidOk(m, x, |m[x].slot|);
      x := x.links[|x.slot|];
      assert NodeOk(m, root, x) && Look(x);
    }
    assert NodeOk(m, root, x) && |m[x].slot| <= MAX_NODE_SLOTS;
  }

  // bt_min_node
  method BtMinNode(n: BtNode, ghost m: Bm, ghost root: BtNode) returns (x: BtNode)
    requires Sound(m, root) && n in m && n != root && Mirrored(m, m[n].h)
    ensures x in m && m[x].h == 0 && x != root && m[x].lo == m[n].lo && m[x].hi <= m[n].hi && x.slot == m[x].slot != []
  {
    x := n;
    assert NodeOk(m, root, n) && Look(x);
    while x.links != []
      invariant x in m && Look(x) && 0 <= m[x].h <= m[n].h && x != root && m[x].lo == m[n].lo && m[x].hi <= m[n].hi
      decreases m[x].h
    {
      assert NodeOk(m, root, x) && KidOk(m, x, 0);
      x := x.links[0];
      assert NodeOk(m, root, x) && Look(x);
    }
    assert NodeOk(m, root, x) && |m[x].slot| <= MAX_NODE_SLOTS;
  }

  // `s` is key `i` of `sub`, and `s2` the key next to it in child `c` of `sub`.
  ghost predicate Beside(m: Bm, root: BtNode, sub: BtNode, i: nat, c: BtNode, s2: int) {
    && Sound(m, root) && sub in m && i < |m[sub].slot| && c in m && m[c].h < m[sub].h && c != root
    && s2 in Keys(m) && Inside(m[c], s2) && -1 < s2 < W && -1 < m[sub].slot[i] < W
    && forall k :: k in Keys(m) && k != m[sub].slot[i] && k != s2 ==>
         (k < m[sub].slot[i] && k < s2) || (k > m[sub].slot[i] && k > s2)
  }

  lemma PrevBeside(m: Bm, root: BtNode, sub: BtNode, i: nat, x: BtNode)
    requires Sound(m, root) && sub in m && m[sub].h > 0 && i < |m[sub].slot| && |m[sub].links| == |m[sub].slot| + 1 && m[sub].links[i] in m
    requires x in m && m[x].h == 0 && m[x].slot != [] && m[x].hi == m[m[sub].links[i]].hi && m[m[sub].links[i]].lo <= m[x].lo
    ensures Beside(m, root, sub, i, m[sub].links[i], m[x].slot[|m[x].slot| - 1])
  {
    var c := m[sub].links[i];
    var s2 := m[x].slot[|m[x].slot| - 1];
    assert NodeOk(m, root, sub) && KidOk(m, sub, i) && NodeOk(m, root, x) && NodeOk(m, root, c);
    assert s2 in m[x].slot;
    forall k | k in Keys(m) && k != m[sub].slot[i] && k != s2
      ensures (k < m[sub].slot[i] && k < s2) || (k > m[sub].slot[i] && k > s2)
    {
      LastAlone(m, root, x, k);
    }
  }

  lemma NextBeside(m: Bm, root: BtNode, sub: BtNode, i: nat, x: BtNode)
    requires Sound(m, root) && sub in m && m[sub].h > 0 && i < |m[sub].slot| && |m[sub].links| == |m[sub].slot| + 1 && m[sub].links[i + 1] in m
    requires x in m && m[x].h == 0 && m[x].slot != [] && m[x].lo == m[m[sub].links[i + 1]].lo && m[x].hi <= m[m[sub].links[i + 1]].hi
    ensures Beside(m, root, sub, i, m[sub].links[i + 1], m[x].slot[0])
  {
    var c := m[sub].links[i + 1];
    var s2 := m[x].slot[0];
    assert NodeOk(m, root, sub) && KidOk(m, sub, i + 1) && NodeOk(m, root, x) && NodeOk(m, root, c);
    assert s2 in m[x].slot;
    forall k | k in Keys(m) && k != m[sub].slot[i] && k != s2
      ensures (k < m[sub].slot[i] && k < s2) || (k > m[sub].slot[i] && k > s2)
    {
      LastAlone(m, root, x, k);
    }
  }

  // `s2` has been removed from below and stands in for key `i` of `sub`: `s` is gone, everything else stays.
  lemma Replaced(m: Bm, m1: Bm, root: BtNode, sub: BtNode, i: nat, c: BtNode, s2: int)
    requires Beside(m, root, sub, i, c, s2) && Sound(m1, root) && Below(m, m1, m[c].h) && Keys(m1) == Keys(m) - {s2}
    ensures var s, m2 := m[sub].slot[i], MoveKey(m1, m[sub].slot[i], s2);
      && Sound(m2, root) && Keys(m2) == Keys(m) - {s} && m2.Keys == m1.Keys
      && sub in m1 && m1[sub] == m[sub] && m2[sub].slot == m[sub].slot[i := s2]
      && (forall n :: n in m1 ==> m2[n].h == m1[n].h && m2[n].links == m1[n].links && (n != sub ==> m2[n].slot == m1[n].slot))
      && Below(m, m2, m[sub].h)
  {
    var s := m[sub].slot[i];
    var m2 := MoveKey(m1, s, s2);
    assert s in m[sub].slot;
    assert s in Keys(m);
    SlotAway(m, root, sub, i, c, s2);
    assert Alone(m1, s, s2);
    MoveKeyStruct(m1, root, s, s2);
    MoveKeyKeys(m1, s, s2);
    MoveKeySizes(m1, root, s, s2);
    forall n | n in m1
      ensures m2[n].slot == if n == sub then m[sub].slot[i := s2] else m1[n].slot
    {
      MoveKeyStores(m1, root, s, s2, sub, i, n);
    }
    forall x | x in m && m[x].h > m[sub].h
      ensures m2[x] == m[x]
    {
      MoveKeyAbove(m1, root, s, s2, sub, i, x);
    }
  }

  // The two keys differ: one stands above the other.
  lemma SlotAway(m: Bm, root: BtNode, sub: BtNode, i: nat, c: BtNode, s2: int)
    requires Beside(m, root, sub, i, c, s2)
    ensures m[sub].slot[i] != s2
  {
    NoDeeperAt(m, root, c, sub, i);
  }

  lemma NoDeeperAt(m: Bm, root: BtNode, x: BtNode, y: BtNode, i: nat)
    requires Struct(m, root) && x in m && y in m && m[x].h < m[y].h && i < |m[y].slot|
    ensures !Inside(m[x], m[y].slot[i])
  {
    NoDeeper(m, root, x, y, m[y].slot[i]);
  }
}
