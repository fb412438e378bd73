/** Changing the records of one leaf, and moving the separator between two adjacent leaves. */
module LeafOps {
  import opened Words
  import opened Node
  import opened Shape
  import opened Avail
  import opened Cutting
  import opened Merging

  ghost function SetVas(m: Mem, n: Bpn, vas: seq<Range>): Mem
    requires n in m
  {
    m[n := m[n].(vas := vas)]
  }

  lemma SetVasStruct(m: Mem, root: Bpn, d: int, d': int, n: Bpn, vas: seq<Range>)
    requires Struct(m, root, d) && n in m && m[n].leaf && RecordsOk(vas, m[n].lo, m[n].hi, d')
    requires d == -1 || d == d' || (d' == -1 && Holds(m[n], d))
    ensures Struct(SetVas(m, n, vas), root, d')
  {
    var m' := SetVas(m, n, vas);
    forall x | x in m'
      ensures NodeOk(m', root, d', x)
    {
      assert NodeOk(m, root, d, x);
      if x != n && m[x].leaf && d != d' && Holds(m[x], d) && Holds(m[n], d) {
        assert NodeOk(m, root, d, n);
        Nest(m, root, d, x, n, d);
      }
      if !m[x].leaf {
        forall i | 0 <= i < |m'[x].subl|
          ensures KidOk(m', x, i)
        {
          assert KidOk(m, x, i);
        }
      }
    }
  }

  // Swapping the contents of a leaf swaps them in the set of records: keys are unique in the tree.
  lemma SetVasRecords(m: Mem, root: Bpn, d: int, n: Bpn, vas: seq<Range>, x: Range)
    requires Struct(m, root, d) && n in m && m[n].leaf
    ensures x in Recs(SetVas(m, n, vas)) <==> x in vas || (x in Recs(m) && x !in m[n].vas)
  {
    var m' := SetVas(m, n, vas);
    if x in Recs(m) && x !in m[n].vas {
      var q: Bpn :| q in m && x in m[q].vas;
      assert x in m'[q].vas;
    }
    if x in vas {
      assert x in m'[n].vas;
    }
    if x in Recs(m') && x !in vas {
      var q: Bpn :| q in m' && x in m'[q].vas;
      if x in m[n].vas {
        assert NodeOk(m, root, d, n) && NodeOk(m, root, d, q);
        Nest(m, root, d, q, n, x.start);
      }
      assert x in m[q].vas;
    }
  }

  lemma SetVasAvail(m: Mem, root: Bpn, d: int, n: Bpn, vas: seq<Range>)
    requires Struct(m, root, d) && n in m && m[n].leaf && AvailOk(m, null)
    ensures AvailOk(SetVas(m, n, vas), n)
  {
    var m' := SetVas(m, n, vas);
    forall x: Bpn, i | x in m' && 0 <= i < |m'[x].subl| == |m'[x].suba| && m'[x].subl[i] != n
      ensures EdgeOk(m', x, i)
    {
      assert EdgeOk(m, x, i) && NodeOk(m, root, d, x);
    }
  }

  // The boundary s becomes s2 wherever it occurs; every other boundary stays.
  function Shifted(x: int, s: int, s2: int): int {
    if x == s then s2 else x
  }

  ghost function MoveCut(m: Mem, s: int, s2: int): Mem {
    map n | n in m ::
      m[n].(lo := Shifted(m[n].lo, s, s2), hi := Shifted(m[n].hi, s, s2),
            slot := seq(|m[n].slot|, i requires 0 <= i < |m[n].slot| => Shifted(m[n].slot[i], s, s2)))
  }

  // No boundary other than s lies between the outer ends of the two leaves that meet at s.
  ghost predicate Alone(m: Mem, s: int, a: int, b: int) {
    && a < s < b
    && (forall n :: n in m ==> !(a < m[n].lo < b) || m[n].lo == s)
    && (forall n :: n in m ==> !(a < m[n].hi < b) || m[n].hi == s)
    && (forall n :: n in m && !m[n].leaf ==> forall i :: 0 <= i < |m[n].slot| ==> !(a < m[n].slot[i] < b) || m[n].slot[i] == s)
  }

  lemma MoveCutNode(m: Mem, root: Bpn, s: int, s2: int, a: int, b: int, n: Bpn)
    requires Struct(m, root, -1) && n in m && Alone(m, s, a, b) && a < s2 < b && 0 <= a && b <= W
    requires m[n].leaf ==> RecordsOk(m[n].vas, Shifted(m[n].lo, s, s2), Shifted(m[n].hi, s, s2), -1)
    ensures NodeOk(MoveCut(m, s, s2), root, -1, n)
  {
    var m' := MoveCut(m, s, s2);
    assert NodeOk(m, root, -1, n);
    if !m[n].leaf {
      forall i | 0 <= i < |m'[n].subl|
        ensures KidOk(m', n, i)
      {
        assert KidOk(m, n, i);
      }
    }
  }

  lemma MoveCutStruct(m: Mem, root: Bpn, s: int, s2: int, a: int, b: int)
    requires Struct(m, root, -1) && Alone(m, s, a, b) && a < s2 < b && 0 <= a && b <= W
    requires forall n :: n in m && m[n].leaf ==> RecordsOk(m[n].vas, Shifted(m[n].lo, s, s2), Shifted(m[n].hi, s, s2), -1)
    ensures Struct(MoveCut(m, s, s2), root, -1)
  {
    forall n | n in MoveCut(m, s, s2)
      ensures NodeOk(MoveCut(m, s, s2), root, -1, n)
    {
      MoveCutNode(m, root, s, s2, a, b, n);
    }
  }
}
