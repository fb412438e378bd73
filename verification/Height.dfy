/** bpt_high, and how many free ranges a tree of a given height holds at least. */
module Height {
  import opened Words
  import opened Node
  import opened Shape
  import opened Store
  import opened Tree

  method BptHigh(t: BptRoot, n: Bpn, ghost d: int) returns (h: nat)
    requires Linked(t) && Struct(t.m, t.node, d) && n in t.m
    ensures h == t.m[n].h
  {
    var c := n;
    h := 0;
    assert NodeOk(t.m, t.node, d, c) && See(c);
    while !c.leaf
      invariant c in t.m && See(c) && h + t.m[c].h == t.m[n].h && NodeOk(t.m, t.node, d, c)
      decreases t.m[c].h
    {
      assert KidOk(t.m, c, 0);
      assert NodeOk(t.m, t.node, d, c.subl[0]);
      c := c.subl[0];
      h := h + 1;
      assert See(c);
    }
  }

  // The free ranges that start in [lo, hi).
  ghost function Within(m: Mem, lo: int, hi: int): set<Range> {
    set r | r in Recs(m) && lo <= r.start < hi
  }

  function Pow(b: nat, e: nat): nat {
    if e == 0 then 1 else b * Pow(b, e - 1)
  }

  // What a node of height `h` other than the root holds at least.
  function Least(h: nat): nat {
    Pow(MIN_CHILDREN, h) * MIN_ENTRIES_EXTER
  }

  lemma {:induction false} DistinctCard(s: seq<Range>)
    requires forall i, j :: 0 <= i < j < |s| ==> s[i].start < s[j].start
    ensures |set x | x in s| == |s|
    decreases |s|
  {
    if s != [] {
      var k := |s| - 1;
      DistinctCard(s[..k]);
      assert s == s[..k] + [s[k]];
      assert (set x | x in s) == (set x | x in s[..k]) + {s[k]};
      assert s[k] !in s[..k];
    }
  }

  lemma {:induction false} SubsetCard<T>(a: set<T>, b: set<T>)
    requires a <= b
    ensures |a| <= |b|
  {
    assert b == a + (b - a);
  }

  lemma LeastStep(h: nat, k: nat)
    requires h > 0 && k >= MIN_CHILDREN
    ensures k * Least(h - 1) >= Least(h)
  {
    var l := Least(h - 1);
    assert Least(h) == MIN_CHILDREN * l by {
      assert Pow(MIN_CHILDREN, h) == MIN_CHILDREN * Pow(MIN_CHILDREN, h - 1);
      MulAssoc(MIN_CHILDREN, Pow(MIN_CHILDREN, h - 1), MIN_ENTRIES_EXTER);
    }
    MulMono(MIN_CHILDREN, k, l);
  }

  lemma MulAssoc(a: nat, b: nat, c: nat)
    ensures (a * b) * c == a * (b * c)
  {}

  lemma MulMono(a: nat, b: nat, c: nat)
    requires a <= b
    ensures a * c <= b * c
  {}

  // A node below the root holds at least the minimum for its height.
  lemma {:induction false} NodeHolds(m: Mem, root: Bpn, d: int, n: Bpn)
    requires Struct(m, root, d) && SizeOk(m, root) && n in m && n != root
    ensures m[n].h >= 0 && |Within(m, m[n].lo, m[n].hi)| >= Least(m[n].h)
    decreases m[n].h, 0
  {
    assert NodeOk(m, root, d, n);
    assert Entries(m[n]) <= MAX_ENTRIES;
    if m[n].leaf {
      var s := m[n].vas;
      DistinctCard(s);
      assert forall x :: x in s ==> x in Recs(m);
      SubsetCard((set x | x in s), Within(m, m[n].lo, m[n].hi));
      assert Pow(MIN_CHILDREN, 0) == 1;
    } else {
      KidsHold(m, root, d, n, |m[n].subl|);
      LeastStep(m[n].h, |m[n].subl|);
    }
  }

  // The first `k` children of an internal node hold at least `k` times the minimum of one of them.
  lemma {:induction false} KidsHold(m: Mem, root: Bpn, d: int, n: Bpn, k: nat)
    requires Struct(m, root, d) && SizeOk(m, root) && n in m && !m[n].leaf && InnerOk(m[n]) && k <= |m[n].subl|
    ensures |Within(m, m[n].lo, if k == 0 then m[n].lo else KHi(m[n], k - 1))| >= k * Least(m[n].h - 1)
    decreases m[n].h - 1, k + 1
  {
    if k > 0 {
      assert NodeOk(m, root, d, n) && KidOk(m, n, k - 1);
      var c := m[n].subl[k - 1];
      assert NodeOk(m, root, d, c);
      KidsHold(m, root, d, n, k - 1);
      NodeHolds(m, root, d, c);
      var a, b := Within(m, m[n].lo, KLo(m[n], k - 1)), Within(m, m[c].lo, m[c].hi);
      assert a !! b;
      assert a + b == Within(m, m[n].lo, KHi(m[n], k - 1));
      KLoIs(m[n], k - 1);
      AddOne(k - 1, Least(m[n].h - 1));
    }
  }

  lemma KLoIs(v: Nd, k: nat)
    requires InnerOk(v) && k < |v.subl|
    ensures KLo(v, k) == if k == 0 then v.lo else KHi(v, k - 1)
  {}

  lemma AddOne(k: nat, l: nat)
    ensures (k + 1) * l == k * l + l
  {}

  /** A tree of height h >= 1 holds at least 2 * MIN_CHILDREN^(h - 1) * MIN_ENTRIES_EXTER free ranges. */
  lemma HeightBound(m: Mem, root: Bpn, d: int)
    requires Struct(m, root, d) && SizeOk(m, root) && m[root].h >= 1
    ensures |Recs(m)| >= 2 * (Pow(MIN_CHILDREN, m[root].h - 1) * MIN_ENTRIES_EXTER)
  {
    assert NodeOk(m, root, d, root);
    assert Entries(m[root]) <= MAX_ENTRIES;
    var k := |m[root].subl|;
    KidsHold(m, root, d, root, k);
    MulMono(2, k, Least(m[root].h - 1));
    SubsetCard(Within(m, m[root].lo, KHi(m[root], k - 1)), Recs(m));
  }
}
