/** Searching inside a node (bpn_bin_search) and choosing the child to follow. */
module NodeSearch {
  import opened Words
  import opened Node
  import opened Shape

  datatype PosCC = EQ | LT | GT

  ghost function Keys(v: Nd): (s: seq<int>)
    ensures |s| == Entries(v)
  {
    if v.leaf then seq(|v.vas|, i requires 0 <= i < |v.vas| => v.vas[i].start) else v.slot
  }

  function GetKey(n: Bpn, i: nat): int
    requires i < if n.leaf then |n.vas| else |n.slot|
    reads n
  {
    if n.leaf then n.vas[i].start else n.slot[i]
  }

  // The position of `key` in the rising sequence `s`, with the position condition code.
  ghost predicate Found(s: seq<int>, key: int, cc: PosCC, pos: int) {
    && 0 <= pos <= |s|
    && (forall i :: 0 <= i < pos ==> s[i] < key)
    && (forall i :: pos <= i < |s| ==> key <= s[i])
    && (cc == EQ <==> pos < |s| && s[pos] == key)
    && (cc == GT <==> pos == |s|)
  }

  // Requires what check_bpn_geometry insists on.
  method BinSearch(n: Bpn, key: int, ghost v: Nd) returns (cc: PosCC, pos: nat)
    requires Same(n, v) && Rising(Keys(v))
    requires n.parent != null ==> Entries(v) >= MinEntries(n.leaf)
    ensures Found(Keys(v), key, cc, pos)
  {
    var entries := if n.leaf then |n.vas| else |n.slot|;
    var l, r := -1, entries;
    while l + 1 < r
      invariant -1 <= l < r <= entries
      invariant forall i :: 0 <= i <= l ==> Keys(v)[i] < key
      invariant forall i :: r <= i < entries ==> key <= Keys(v)[i]
    {
      var m := (l + r) / 2;
      if GetKey(n, m) < key {
        l := m;
      } else {
        r := m;
      }
    }
    pos := r;
    if r < entries {
      cc := if GetKey(n, r) == key then EQ else LT;
    } else {
      cc := GT;
    }
  }

  function NextKid(cc: PosCC, pos: nat): nat {
    if cc == EQ then pos + 1 else pos
  }

  lemma NextKidHolds(v: Nd, key: int, cc: PosCC, pos: nat)
    requires InnerOk(v) && Found(Keys(v), key, cc, pos) && Holds(v, key)
    ensures NextKid(cc, pos) <= |v.slot|
    ensures KLo(v, NextKid(cc, pos)) <= key < KHi(v, NextKid(cc, pos))
  {}
}
