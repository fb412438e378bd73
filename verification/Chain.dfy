/** The leaf list: forwards it visits exactly the leaves in key order, backwards in the opposite order. */
module Chain {
  import opened Words
  import opened Node
  import opened Shape
  import opened Store

  lemma Link(m: Mem, root: Bpn, d: int, n: Bpn)
    requires Struct(m, root, d) && n in m && m[n].leaf
    ensures 0 <= m[n].lo < m[n].hi <= W && m[n].h == 0
    ensures m[n].next != null ==> m[n].next in m && m[m[n].next].leaf && m[m[n].next].lo == m[n].hi && m[m[n].next].prev == n
    ensures m[n].prev != null ==> m[n].prev in m && m[m[n].prev].leaf && m[m[n].prev].hi == m[n].lo && m[m[n].prev].next == n
    ensures (m[n].next == null <==> m[n].hi == W) && (m[n].prev == null <==> m[n].lo == 0)
    ensures m[n].prev != null ==> 0 <= m[m[n].prev].lo < m[n].lo
  {
    assert NodeOk(m, root, d, n);
    if m[n].prev != null { assert NodeOk(m, root, d, m[n].prev); }
  }

  // The leaves met from `n` on along `next`.
  ghost function Forward(m: Mem, root: Bpn, d: int, n: Bpn): (s: seq<Bpn>)
    requires Struct(m, root, d) && n in m && m[n].leaf
    ensures |s| > 0 && s[0] == n && forall x :: x in s ==> x in m && m[x].leaf
    decreases W - m[n].lo
  {
    Link(m, root, d, n);
    [n] + if m[n].next == null then [] else Forward(m, root, d, m[n].next)
  }

  // The leaves met from `n` on along `prev`.
  ghost function Backward(m: Mem, root: Bpn, d: int, n: Bpn): seq<Bpn>
    requires Struct(m, root, d) && n in m && m[n].leaf
    decreases m[n].lo
  {
    Link(m, root, d, n);
    [n] + if m[n].prev == null then [] else Backward(m, root, d, m[n].prev)
  }

  ghost function Reverse<T>(s: seq<T>): seq<T> {
    if s == [] then [] else Reverse(s[1..]) + [s[0]]
  }

  // Forwards: in key order, and no leaf from `n` on is missed.
  lemma {:induction false} ForwardExact(m: Mem, root: Bpn, d: int, n: Bpn)
    requires Struct(m, root, d) && n in m && m[n].leaf
    ensures var s := Forward(m, root, d, n);
      && (forall i, j :: 0 <= i < j < |s| ==> m[s[i]].hi <= m[s[j]].lo)
      && (forall x :: x in m && m[x].leaf && m[x].lo >= m[n].lo ==> x in s)
      && (forall x :: x in s ==> m[x].lo >= m[n].lo)
    decreases W - m[n].lo
  {
    Link(m, root, d, n);
    var s := Forward(m, root, d, n);
    if m[n].next != null {
      ForwardExact(m, root, d, m[n].next);
    }
    forall x | x in m && m[x].leaf && m[x].lo >= m[n].lo
      ensures x in s
    {
      Link(m, root, d, x);
      if m[x].lo < m[n].hi {
        Nest(m, root, d, x, n, m[x].lo);
        assert s[0] == n;
      } else {
        assert x in Forward(m, root, d, m[n].next);
      }
    }
  }

  lemma {:induction false} ReverseAppend<T>(s: seq<T>, x: T)
    ensures Reverse([x] + s) == Reverse(s) + [x]
  {
    assert ([x] + s)[1..] == s;
  }

  lemma ForwardStep(m: Mem, root: Bpn, d: int, n: Bpn)
    requires Struct(m, root, d) && n in m && m[n].leaf
    ensures m[n].next != null ==> m[n].next in m && m[m[n].next].leaf && Forward(m, root, d, n)[1..] == Forward(m, root, d, m[n].next)
    ensures Forward(m, root, d, n) == [n] + Forward(m, root, d, n)[1..]
  {
    Link(m, root, d, n);
  }

  lemma BackwardStep(m: Mem, root: Bpn, d: int, n: Bpn)
    requires Struct(m, root, d) && n in m && m[n].leaf
    ensures m[n].prev == null ==> Reverse(Backward(m, root, d, n)) == [n]
    ensures m[n].prev != null ==> m[n].prev in m && m[m[n].prev].leaf
    ensures m[n].prev != null ==> Reverse(Backward(m, root, d, n)) == Reverse(Backward(m, root, d, m[n].prev)) + [n]
  {
    Link(m, root, d, n);
    if m[n].prev != null {
      ReverseAppend(Backward(m, root, d, m[n].prev), n);
    } else {
      ReverseAppend([], n);
    }
  }

  lemma Rejoin<T>(r: seq<T>, n: T, f: seq<T>)
    requires |f| > 0 && f[0] == n
    ensures r + [n] + f[1..] == r + f
  {}

  lemma MeetFirst(m: Mem, root: Bpn, d: int, n: Bpn, first: Bpn)
    requires Struct(m, root, d) && n in m && m[n].leaf && m[n].prev == null && first in m && m[first].leaf && m[first].prev == null
    ensures n == first
  {
    Link(m, root, d, n);
    Link(m, root, d, first);
    Nest(m, root, d, n, first, 0);
  }

  // What lies behind `n` reversed, followed by what lies ahead, is the whole list.
  lemma {:induction false} Meet(m: Mem, root: Bpn, d: int, n: Bpn, first: Bpn)
    requires Struct(m, root, d) && n in m && m[n].leaf && first in m && m[first].leaf && m[first].prev == null
    ensures Reverse(Backward(m, root, d, n)) + Forward(m, root, d, n)[1..] == Forward(m, root, d, first)
    decreases m[n].lo
  {
    Link(m, root, d, n);
    BackwardStep(m, root, d, n);
    var f := Forward(m, root, d, n);
    if m[n].prev == null {
      MeetFirst(m, root, d, n, first);
      Rejoin([], n, f);
    } else {
      var p := m[n].prev;
      Meet(m, root, d, p, first);
      ForwardStep(m, root, d, p);
      Rejoin(Reverse(Backward(m, root, d, p)), n, f);
    }
  }

  /** From the head, the list visits every leaf once, in key order; from the tail, the same in reverse. */
  lemma LeafList(m: Mem, root: Bpn, d: int, first: Bpn, last: Bpn)
    requires Struct(m, root, d) && first in m && m[first].leaf && m[first].prev == null
    requires last in m && m[last].leaf && m[last].next == null
    ensures var s := Forward(m, root, d, first);
      && (forall x :: x in s <==> x in m && m[x].leaf)
      && (forall i, j :: 0 <= i < j < |s| ==> m[s[i]].hi <= m[s[j]].lo)
      && Reverse(Backward(m, root, d, last)) == s
  {
    ForwardExact(m, root, d, first);
    Link(m, root, d, first);
    Meet(m, root, d, last, first);
    assert Forward(m, root, d, last) == [last];
    forall x | x in m && m[x].leaf
      ensures x in Forward(m, root, d, first)
    {
      Link(m, root, d, x);
    }
  }
}
