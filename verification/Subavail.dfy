/** fixup_subavail: the climb that finds each child position by key instead of by position mark. */
module Subavail {
  import opened Words
  import opened Node
  import opened Shape
  import opened Avail
  import opened Store
  import opened Tree
  import opened NodeSearch
  import opened Descend

  // Searching the parent for a key of `n` leads back to `n`.
  lemma SearchLeadsBack(m: Mem, root: Bpn, d: int, n: Bpn, key: int, cc: PosCC, pos: nat)
    requires Struct(m, root, d) && n in m && n != root && Holds(m[n], key)
    requires m[n].parent in m && Found(Keys(m[m[n].parent]), key, cc, pos)
    ensures var p := m[n].parent;
      InnerOk(m[p]) && n in m[p].subl && Holds(m[p], key) && NextKid(cc, pos) == KidIndex(m[p], n)
  {
    var p, i := UpEdge(m, root, d, n);
    var j := NextKid(cc, pos);
    NextKidHolds(m[p], key, cc, pos);
    assert NodeOk(m, root, d, p) && KidOk(m, p, j);
    Nest(m, root, d, n, m[p].subl[j], key);
    KidIndexUnique(m, root, d, p, j);
  }

  // The index under which the parent lists `n`, found by searching the parent for a key of `n`.
  method FindPos(t: BptRoot, n: Bpn, vaStart: int, ghost d: int) returns (parent: Bpn, pos: nat)
    requires Linked(t) && Struct(t.m, t.node, d) && SizeOk(t.m, t.node) && n in t.m && t.m[n].parent != null && Holds(t.m[n], vaStart)
    ensures parent == t.m[n].parent && parent in t.m && n in t.m[parent].subl && pos == KidIndex(t.m[parent], n)
    ensures Holds(t.m[parent], vaStart)
  {
    assert See(n);
    ParentOf(t.m, t.node, d, n);
    parent := n.parent;
    assert See(parent);
    SearchReady(t.m, t.node, d, parent);
    var cc;
    cc, pos := BinSearch(parent, vaStart, t.m[parent]);
    SearchLeadsBack(t.m, t.node, d, n, vaStart, cc, pos);
    if cc == EQ {
      pos := pos + 1;
    }
  }

  // The climb that ends in `goal` has reached `n`.
  ghost predicate SearchClimbing(m: Mem, root: Bpn, d: int, n: Bpn, key: int, goal: Mem) {
    && Struct(m, root, d) && SizeOk(m, root) && n in m && Holds(m[n], key) && m[n].h <= m[root].h
    && Fixup(m, root, d, n) == goal
  }

  lemma SearchRound(m: Mem, root: Bpn, d: int, n: Bpn, key: int, goal: Mem)
    requires SearchClimbing(m, root, d, n, key, goal)
    ensures m[n].parent == null ==> m == goal
    ensures m[n].parent != null && m[n].parent in m && n in m[m[n].parent].subl && Holds(m[m[n].parent], key) ==>
      var p, a := m[n].parent, MaxAvail(m[n]);
      var i := KidIndex(m[p], n);
      && i < |m[p].suba|
      && if m[p].suba[i] == a then m == goal
         else SearchClimbing(SetSuba(m, p, i, a), root, d, p, key, goal) && m[p].h == m[n].h + 1
  {
    FixupRound(m, root, d, n);
    if m[n].parent != null && m[n].parent in m && n in m[m[n].parent].subl {
      var m' := SetSuba(m, m[n].parent, KidIndex(m[m[n].parent], n), MaxAvail(m[n]));
      assert SameShape(m, m');
      SameShapeRest(m, m', root);
    }
  }

  method FixupSubavail(t: BptRoot, leaf: Bpn, vaStart: int, ghost d: int)
    requires Linked(t) && Struct(t.m, t.node, d) && SizeOk(t.m, t.node) && leaf in t.m && Holds(t.m[leaf], vaStart)
    modifies t`m, t.m.Keys
    ensures Linked(t) && t.m == Fixup(old(t.m), t.node, d, leaf)
  {
    var n: Bpn := leaf;
    assert See(n);
    ParentOf(t.m, t.node, d, n);
    ghost var goal := Fixup(t.m, t.node, d, leaf);
    while n.parent != null
      invariant Linked(t) && t.m.Keys <= old(t.m.Keys) && SearchClimbing(t.m, t.node, d, n, vaStart, goal) && See(n)
      decreases t.m[t.node].h - t.m[n].h
    {
      var parent, pos := FindPos(t, n, vaStart, d);
      SearchRound(t.m, t.node, d, n, vaStart, goal);
      var maxAvail := BpnMaxAvail(n, t.m[n]);
      assert See(parent);
      if parent.suba[pos] == maxAvail {
        return;
      }
      StoreSuba(t, parent, pos, maxAvail);
      n := parent;
    }
    SearchRound(t.m, t.node, d, n, vaStart, goal);
  }
}
