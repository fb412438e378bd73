/** The heap objects of the tree and the value-level picture of the heap that the proofs reason about. */
module Node {
  import opened Words

  // A vmap_area: the half-open address range [start, end).
  datatype Range = Range(start: int, end: int)

  function Size(r: Range): int {
    r.end - r.start
  }

  /** A tree node. `slot` holds the separators of an internal node, `vas` the records of a leaf;
      the number of entries is the length of the one in use. A null `prev` or `next` stands for the
      list head kept in the tree root. */
  class Bpn {
    const leaf: bool
    var parent: Bpn?
    var ppos: nat
    var slot: seq<int>
    var subl: seq<Bpn>
    var suba: seq<int>
    var vas: seq<Range>
    var prev: Bpn?
    var next: Bpn?

    constructor (leaf: bool)
      ensures this.leaf == leaf
      ensures parent == null && ppos == 0 && prev == null && next == null
      ensures slot == [] && subl == [] && suba == [] && vas == []
    {
      this.leaf := leaf;
      parent, ppos, prev, next := null, 0, null, null;
      slot, subl, suba, vas := [], [], [], [];
    }
  }

  /** What the proofs know about one node: its fields, and three values no field stores, namely the
      key interval [lo, hi) that the separators above assign to it and its height above the leaves. */
  datatype Nd = Nd(leaf: bool, parent: Bpn?, ppos: nat,
                   slot: seq<int>, subl: seq<Bpn>, suba: seq<int>, vas: seq<Range>,
                   prev: Bpn?, next: Bpn?,
                   lo: int, hi: int, h: nat)

  type Mem = map<Bpn, Nd>

  ghost predicate Same(n: Bpn, v: Nd)
    reads n
  {
    && n.leaf == v.leaf && n.parent == v.parent && n.ppos == v.ppos
    && n.slot == v.slot && n.subl == v.subl && n.suba == v.suba && n.vas == v.vas
    && n.prev == v.prev && n.next == v.next
  }

  // Naming a node makes the verifier look at it.
  ghost predicate See(n: Bpn) {
    true
  }

  ghost predicate Mirrors(m: Mem)
    reads m.Keys
  {
    forall n {:trigger See(n)} :: See(n) && n in m ==> Same(n, m[n])
  }

  function Entries(v: Nd): nat {
    if v.leaf then |v.vas| else |v.slot|
  }

  // The records of the tree: the free ranges.
  ghost function Recs(m: Mem): set<Range> {
    set n: Bpn, x | n in m && x in m[n].vas :: x
  }
}
