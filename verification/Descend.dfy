/** Position marks and paths during a descent. */
module Descend {
  import opened Words
  import opened Node
  import opened Shape
  import opened Avail
  import opened Store
  import opened Tree
  import opened NodeSearch
  import opened Keeps
  import opened Rebalance

  // The path reaches one level further down.
  lemma PathBelow(m: Mem, m': Mem, root: Bpn, path: seq<Bpn>, c: Bpn)
    requires PathOk(m, root, path) && SameAbove(m, m', path[|path| - 1])
    requires c in m' && m'[c].h + 1 == m[path[|path| - 1]].h && Marked(m', path[|path| - 1], c)
    ensures PathOk(m', root, path + [c])
  {
    var q := path + [c];
    forall k | 0 <= k < |q|
      ensures q[k] in m' && m'[q[k]].h + k == m'[root].h
    {
      assert k < |path| ==> q[k] == path[k];
    }
    forall k | 0 <= k < |q| - 1
      ensures PathStep(m', q, k)
    {
      if k < |path| - 1 {
        assert PathStep(m, path, k);
        assert q[k] == path[k] && q[k + 1] == path[k + 1];
      }
    }
  }

  lemma MarkAvail(m: Mem, p: Bpn, j: nat)
    requires p in m && AvailOk(m, null)
    ensures AvailOk(m[p := m[p].(ppos := j)], null) && Los(m[p := m[p].(ppos := j)]) == Los(m)
  {
    var m' := m[p := m[p].(ppos := j)];
    forall x: Bpn, i | x in m' && 0 <= i < |m'[x].subl| == |m'[x].suba|
      ensures EdgeOk(m', x, i)
    {
      assert EdgeOk(m, x, i);
    }
    forall x | x in Los(m)
      ensures x in Los(m')
    {
      var q: Bpn :| q in m && m[q].lo == x;
      assert m'[q].lo == x;
    }
    forall x | x in Los(m')
      ensures x in Los(m)
    {
      var q: Bpn :| q in m' && m'[q].lo == x;
      assert m[q].lo == x;
    }
  }

  lemma PathPrefix(m: Mem, root: Bpn, path: seq<Bpn>, c: Bpn)
    requires path != [] && PathOk(m, root, path + [c])
    ensures PathOk(m, root, path)
  {
    var q := path + [c];
    forall k | 0 <= k < |path|
      ensures path[k] in m && m[path[k]].h + k == m[root].h
    {
      assert q[k] == path[k];
    }
    forall k | 0 <= k < |path| - 1
      ensures PathStep(m, path, k)
    {
      assert PathStep(m, q, k) && q[k] == path[k] && q[k + 1] == path[k + 1];
    }
  }

  // Following the mark into child `j`.
  lemma EnterChild(m: Mem, root: Bpn, d: int, path: seq<Bpn>, p: Bpn, j: nat, val: int)
    requires Sound(m, root, d) && p in m && Holds(m[p], val) && PathOk(m, root, path) && path[|path| - 1] == p
    requires !m[p].leaf && j <= |m[p].slot| && InnerOk(m[p]) && KLo(m[p], j) <= val < KHi(m[p], j)
    ensures var m' := m[p := m[p].(ppos := j)];
      var c := m[p].subl[j];
      && Sound(m', root, d) && SameRecords(m, m', val) && PathOk(m', root, path + [c]) && PathOk(m', root, path)
      && c in m' && Holds(m'[c], val) && m'[c].h + 1 == m[p].h && Marked(m', p, c) && c != root && c != p
  {
    var m' := m[p := m[p].(ppos := j)];
    assert NodeOk(m, root, d, p) && KidOk(m, p, j) && NodeOk(m, root, d, m[p].subl[j]);
    assert SameShape(m, m');
    SameShapeStruct(m, m', root, d);
    SameShapeRest(m, m', root);
    MarkAvail(m, p, j);
    PathBelow(m, m', root, path, m[p].subl[j]);
    PathPrefix(m', root, path, m[p].subl[j]);
  }

  // Keys of a node of the tree rise, and a node below another one is half full: bpn_bin_search may run.
  lemma SearchReady(m: Mem, root: Bpn, d: int, n: Bpn)
    requires Struct(m, root, d) && SizeOk(m, root) && n in m
    ensures Rising(Keys(m[n])) && (m[n].parent != null ==> Entries(m[n]) >= MinEntries(m[n].leaf))
    ensures if m[n].leaf then LeafOk(m[n], d) else InnerOk(m[n])
  {
    assert NodeOk(m, root, d, n);
    assert Entries(m[n]) <= MAX_ENTRIES;
  }

  ghost predicate HasKey(f: set<Range>, val: int) {
    exists x :: x in f && x.start == val
  }

  // The record found in the leaf is the only one with its key; if none is found there is none.
  lemma FoundInLeaf(m: Mem, root: Bpn, d: int, n: Bpn, val: int, cc: PosCC, pos: nat)
    requires Struct(m, root, d) && n in m && m[n].leaf && Holds(m[n], val) && Found(Keys(m[n]), val, cc, pos)
    ensures cc == EQ ==> pos < |m[n].vas| && m[n].vas[pos].start == val && m[n].vas[pos] in Recs(m)
    ensures cc == EQ <==> HasKey(Recs(m), val)
    ensures forall x, y :: x in Recs(m) && y in m[n].vas && x.start == y.start ==> x == y
  {
    assert NodeOk(m, root, d, n);
    if cc == EQ {
      assert m[n].vas[pos] in m[n].vas;
      assert m[n].vas[pos] in Recs(m);
    }
    forall x | x in Recs(m) && Holds(m[n], x.start)
      ensures x in m[n].vas
    {
      var q: Bpn :| q in m && x in m[q].vas;
      assert NodeOk(m, root, d, q);
      Nest(m, root, d, q, n, x.start);
    }
    if HasKey(Recs(m), val) {
      var x :| x in Recs(m) && x.start == val;
      var i :| 0 <= i < |m[n].vas| && m[n].vas[i] == x;
      assert Keys(m[n])[i] == val;
    }
  }
}
