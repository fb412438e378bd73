/** Unsigned 64-bit arithmetic as the C sources use it, and the order constants of the tree. */
module Words {
  // One past ULONG_MAX.
  const W: int := 0x1_0000_0000_0000_0000
  const PAGE_SIZE: int := 4096

  // Every statement below holds for any order of at least 4; vm.h instantiates it with 24.
  type Order = o: nat | 4 <= o witness 24
  const BPT_ORDER: Order
  const MAX_ENTRIES: nat := BPT_ORDER - 1
  const MIN_CHILDREN: nat := BPT_ORDER / 2
  const MIN_ENTRIES_EXTER: nat := MAX_ENTRIES / 2
  const MIN_ENTRIES_INTER: nat := MIN_CHILDREN - 1

  // Halve an index, rounding up.
  function Split(x: nat): nat {
    x / 2 + x % 2
  }

  // Two minimal siblings, plus the separator between internal ones, fit into one node.
  function MinEntries(leaf: bool): (r: nat)
    ensures 1 <= r && 2 * r + (if leaf then 0 else 1) <= MAX_ENTRIES
  {
    if leaf then MIN_ENTRIES_EXTER else MIN_ENTRIES_INTER
  }

  datatype Option<+T> = None | Some(value: T)

  // A full node splits into two halves that are at least minimal and not full.
  lemma SplitBounds(leaf: bool)
    ensures var k := MAX_ENTRIES - Split(MAX_ENTRIES);
      && 1 <= k < MAX_ENTRIES && MinEntries(leaf) <= k
      && MinEntries(leaf) <= MAX_ENTRIES - k - (if leaf then 0 else 1) < MAX_ENTRIES
  {}
}
