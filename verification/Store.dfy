/** The tree root, and the single stores from which the C functions are put together. Each store
    keeps the mirror `m` in step with the heap. */
module Store {
  import opened Words
  import opened Node

  /** `first` and `last` are the two ends of the leaf list. The ghost field `m` mirrors every node of
      the tree together with its interval and height. */
  class BptRoot {
    var node: Bpn
    var first: Bpn?
    var last: Bpn?
    ghost var m: Mem

    // bpt_root_init: an empty leaf, alone in the list.
    constructor ()
      ensures Linked(this) && fresh(node) && m == map[node := EmptyLeaf()]
    {
      var n := new Bpn(true);
      node, first, last := n, n, n;
      m := map[n := EmptyLeaf()];
    }
  }

  // The root of an empty tree covers all addresses.
  ghost function EmptyLeaf(): Nd {
    Nd(true, null, 0, [], [], [], [], null, null, 0, W, 0)
  }

  ghost predicate Linked(t: BptRoot)
    reads t, t.m.Keys
  {
    && Mirrors(t.m)
    && t.first != null && t.first in t.m && t.m[t.first].leaf && t.m[t.first].prev == null
    && t.last != null && t.last in t.m && t.m[t.last].leaf && t.m[t.last].next == null
  }

  ghost function SetSuba(m: Mem, n: Bpn, i: nat, a: int): Mem
    requires n in m && i < |m[n].suba|
  {
    m[n := m[n].(suba := m[n].suba[i := a])]
  }

  // n->SUB_AVAIL[i] = a
  method StoreSuba(t: BptRoot, n: Bpn, i: nat, a: int)
    requires Linked(t) && n in t.m && i < |t.m[n].suba|
    modifies t`m, t.m.Keys
    ensures Linked(t) && t.m == SetSuba(old(t.m), n, i, a)
  {
    assert See(n);
    n.suba := n.suba[i := a];
    t.m := SetSuba(t.m, n, i, a);
  }

  // n->info.ppos = i
  method StorePpos(t: BptRoot, n: Bpn, i: nat)
    requires Linked(t) && n in t.m
    modifies t`m, t.m.Keys
    ensures Linked(t) && t.m == old(t.m)[n := old(t.m)[n].(ppos := i)]
  {
    assert See(n);
    n.ppos := i;
    t.m := t.m[n := t.m[n].(ppos := i)];
  }

  // n->info.parent = p
  method StoreParent(t: BptRoot, n: Bpn, p: Bpn?)
    requires Linked(t) && n in t.m
    modifies t`m, t.m.Keys
    ensures Linked(t) && t.m == old(t.m)[n := old(t.m)[n].(parent := p)]
  {
    assert See(n);
    n.parent := p;
    t.m := t.m[n := t.m[n].(parent := p)];
  }

  ghost function SetParents(m: Mem, kids: seq<Bpn>, p: Bpn): Mem {
    map x | x in m :: if x in kids then m[x].(parent := p) else m[x]
  }

  // for (i = 0; i < r->entries + 1; i++) r->SUB_LINKS[i]->info.parent = p
  method StoreParents(t: BptRoot, kids: seq<Bpn>, p: Bpn)
    requires Linked(t) && forall x :: x in kids ==> x in t.m
    modifies t`m, t.m.Keys
    ensures Linked(t) && t.m == SetParents(old(t.m), kids, p)
  {
    for i := 0 to |kids|
      invariant Linked(t) && t.m.Keys <= old(t.m.Keys) && t.m == SetParents(old(t.m), kids[..i], p)
    {
      StoreParent(t, kids[i], p);
    }
    assert kids[..|kids|] == kids;
  }

  // The slot and link arrays of an internal node.
  method StoreInner(t: BptRoot, n: Bpn, slot: seq<int>, subl: seq<Bpn>, suba: seq<int>)
    requires Linked(t) && n in t.m
    modifies t`m, t.m.Keys
    ensures Linked(t) && t.m == old(t.m)[n := old(t.m)[n].(slot := slot, subl := subl, suba := suba)]
  {
    assert See(n);
    n.slot, n.subl, n.suba := slot, subl, suba;
    t.m := t.m[n := t.m[n].(slot := slot, subl := subl, suba := suba)];
  }

  // The records of a leaf.
  method StoreVas(t: BptRoot, n: Bpn, vas: seq<Range>)
    requires Linked(t) && n in t.m
    modifies t`m, t.m.Keys
    ensures Linked(t) && t.m == old(t.m)[n := old(t.m)[n].(vas := vas)]
  {
    assert See(n);
    n.vas := vas;
    t.m := t.m[n := t.m[n].(vas := vas)];
  }

  function BlankNd(leaf: bool): Nd {
    Nd(leaf, null, 0, [], [], [], [], null, null, 0, 0, 0)
  }

  // bpn_calloc_init
  method CallocInit(t: BptRoot, leaf: bool) returns (n: Bpn)
    requires Linked(t)
    modifies t`m
    ensures fresh(n) && n !in old(t.m) && Linked(t) && t.m == old(t.m)[n := BlankNd(leaf)]
  {
    n := new Bpn(leaf);
    t.m := t.m[n := BlankNd(leaf)];
  }

  // prev->next = l1 and next->prev = l2, where either may be the list head
  ghost function LinkM(m: Mem, prev: Bpn?, next: Bpn?, l1: Bpn?, l2: Bpn?): Mem {
    map x | x in m :: if x == prev then m[x].(next := l1) else if x == next then m[x].(prev := l2) else m[x]
  }

  // Repoints `prev` and whatever follows it, and the end of the list if nothing does.
  method ListLink(t: BptRoot, prev: Bpn, next: Bpn?, l1: Bpn?, l2: Bpn)
    requires Linked(t) && prev in t.m && prev != next && (next != null ==> next in t.m && next != t.first)
    requires if next == null then l2 in t.m && t.m[l2].leaf && (if l2 == prev then l1 else t.m[l2].next) == null
             else l1 != null && prev != t.last
    modifies t`m, t`last, t.m.Keys
    ensures Linked(t) && t.m == LinkM(old(t.m), prev, next, l1, l2) && t.last == if next == null then l2 else old(t.last)
  {
    ghost var m := t.m;
    assert See(prev) && (next != null ==> See(next));
    prev.next := l1;
    if next == null {
      t.last := l2;
    } else {
      next.prev := l2;
    }
    t.m := LinkM(m, prev, next, l1, l2);
  }

  // The links of `r` itself.
  method StoreLinks(t: BptRoot, r: Bpn, prev: Bpn?, next: Bpn?)
    requires Linked(t) && r in t.m && (r == t.first ==> prev == null) && (r == t.last ==> next == null)
    modifies t`m, t.m.Keys
    ensures Linked(t) && t.m == old(t.m)[r := old(t.m)[r].(prev := prev, next := next)]
  {
    assert See(r);
    r.prev, r.next := prev, next;
    t.m := t.m[r := t.m[r].(prev := prev, next := next)];
  }

  ghost function ListAddM(m: Mem, l: Bpn, r: Bpn): Mem
    requires l in m && r in m
  {
    LinkM(m[r := m[r].(prev := l, next := m[l].next)], l, m[l].next, r, r)
  }

  // list_add(&r->list, &l->list)
  method ListAdd(t: BptRoot, l: Bpn, r: Bpn)
    requires Linked(t) && l in t.m && r in t.m && l != r && t.m[r].leaf && t.m[r].prev == t.m[r].next == null
    requires t.m[l].next != l && t.m[l].next != r && (t.m[l].next != null ==> t.m[l].next in t.m && t.m[t.m[l].next].prev == l)
    requires r != t.first && r != t.last && (t.m[l].next == null ==> l == t.last)
    modifies t`m, t`last, t.m.Keys
    ensures Linked(t) && t.m == ListAddM(old(t.m), l, r)
  {
    assert See(l);
    var next := l.next;
    StoreLinks(t, r, l, next);
    ListLink(t, l, next, r, r);
  }

  ghost function ListDelM(m: Mem, r: Bpn): Mem
    requires r in m
  {
    LinkM(m, m[r].prev, m[r].next, m[r].next, m[r].prev)[r := m[r].(prev := null, next := null)]
  }

  // list_del(&r->list), for a leaf that has a predecessor
  method ListDel(t: BptRoot, r: Bpn)
    requires Linked(t) && r in t.m && t.m[r].prev != null && t.m[r].prev in t.m && t.m[r].prev != r && t.m[r].next != r
    requires t.m[r].prev != t.m[r].next && t.m[t.m[r].prev].leaf && t.m[t.m[r].prev].next == r
    requires if t.m[r].next == null then r == t.last else t.m[r].next in t.m && r != t.last && t.m[r].next != t.first
    modifies t`m, t`last, t.m.Keys
    ensures Linked(t) && t.m == ListDelM(old(t.m), r) && t.last != r && t.first != r
  {
    assert See(r);
    ListLink(t, r.prev, r.next, r.next, r.prev);
    StoreLinks(t, r, null, null);
  }

  // n->slot[i] = key in an internal node
  method StoreSlot(t: BptRoot, n: Bpn, i: nat, key: int)
    requires Linked(t) && n in t.m && i < |t.m[n].slot|
    modifies t`m, t.m.Keys
    ensures Linked(t) && t.m == old(t.m)[n := old(t.m)[n].(slot := old(t.m)[n].slot[i := key])]
  {
    assert See(n);
    n.slot := n.slot[i := key];
    t.m := t.m[n := t.m[n].(slot := n.slot)];
  }

  // free(r): the node leaves the picture
  ghost method Free(t: BptRoot, r: Bpn)
    requires Linked(t) && r in t.m && t.first != r && t.last != r
    modifies t`m
    ensures Linked(t) && t.m == old(t.m) - {r}
  {
    t.m := t.m - {r};
  }

  // The two pictures agree on everything that is stored.
  ghost predicate SameStores(m: Mem, m': Mem) {
    && m'.Keys == m.Keys
    && forall n {:trigger m'[n]} :: n in m ==> m'[n] == m[n].(lo := m'[n].lo, hi := m'[n].hi, h := m'[n].h)
  }

  // Intervals and heights are not stored, so they can be restated at any time.
  ghost method Remeasure(t: BptRoot, m: Mem)
    requires Linked(t) && SameStores(t.m, m)
    modifies t`m
    ensures Linked(t) && t.m == m
  {
    assert forall n :: n in t.m ==> See(n) && m[n].prev == t.m[n].prev && m[n].next == t.m[n].next;
    t.m := m;
  }
}
