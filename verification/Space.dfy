/** Sets of address ranges, without a tree: what an allocator over them is meant to do. */
module Space {
  import opened Words
  import opened Node

  // Non-empty ranges, no two of which overlap or abut.
  ghost predicate Gapped(f: set<Range>) {
    && (forall x :: x in f ==> 0 <= x.start < x.end < W)
    && (forall x, y :: x in f && y in f && x != y ==> x.end < y.start || y.end < x.start)
  }

  // `va` overlaps no range of `f`.
  ghost predicate Clear(f: set<Range>, va: Range) {
    forall x :: x in f ==> x.end <= va.start || va.end <= x.start
  }

  ghost predicate Covers(f: set<Range>, a: int) {
    exists x :: x in f && x.start <= a < x.end
  }

  ghost function Ending(f: set<Range>, a: int): set<Range> {
    set x | x in f && x.end == a
  }

  ghost function Starting(f: set<Range>, a: int): set<Range> {
    set x | x in f && x.start == a
  }

  // Where the free space that `va` becomes part of begins and ends.
  ghost function LeftEdge(f: set<Range>, va: Range): int {
    if Ending(f, va.start) == {} then va.start else var x :| x in Ending(f, va.start); x.start
  }

  ghost function RightEdge(f: set<Range>, va: Range): int {
    if Starting(f, va.end) == {} then va.end else var x :| x in Starting(f, va.end); x.end
  }

  /** Returning `va` to the free ranges: it is joined with the ranges that abut on it. */
  ghost function Coalesce(f: set<Range>, va: Range): set<Range> {
    f - Ending(f, va.start) - Starting(f, va.end) + {Range(LeftEdge(f, va), RightEdge(f, va))}
  }

  // At most one range abuts on each side.
  lemma OneNeighbour(f: set<Range>, va: Range, x: Range)
    requires Gapped(f) && x in f
    ensures x.end == va.start ==> Ending(f, va.start) == {x} && LeftEdge(f, va) == x.start
    ensures x.start == va.end ==> Starting(f, va.end) == {x} && RightEdge(f, va) == x.end
  {
    assert forall y :: y in f && y.end == x.end ==> y == x;
    assert forall y :: y in f && y.start == x.start ==> y == x;
  }

  lemma Edges(f: set<Range>, va: Range)
    requires Gapped(f) && Clear(f, va) && 0 <= va.start < va.end < W
    ensures 0 <= LeftEdge(f, va) <= va.start && va.end <= RightEdge(f, va) < W
    ensures forall x :: x in f && x !in Ending(f, va.start) && x !in Starting(f, va.end) ==>
              x.end < LeftEdge(f, va) || RightEdge(f, va) < x.start
  {
    if x :| x in f && x.end == va.start { OneNeighbour(f, va, x); }
    if x :| x in f && x.start == va.end { OneNeighbour(f, va, x); }
  }

  // Coalescing spelled out by the two neighbours.
  lemma CoalesceIs(f: set<Range>, va: Range, l: Option<Range>, r: Option<Range>)
    requires Gapped(f)
    requires if l.Some? then l.value in f && l.value.end == va.start else Ending(f, va.start) == {}
    requires if r.Some? then r.value in f && r.value.start == va.end else Starting(f, va.end) == {}
    ensures Coalesce(f, va) ==
      f - (if l.Some? then {l.value} else {}) - (if r.Some? then {r.value} else {})
        + {Range(if l.Some? then l.value.start else va.start, if r.Some? then r.value.end else va.end)}
  {
    if l.Some? { OneNeighbour(f, va, l.value); }
    if r.Some? { OneNeighbour(f, va, r.value); }
  }

  // Absorbing one neighbour first and coalescing then comes to the same.
  lemma AbsorbLeft(f: set<Range>, va: Range, l: Range)
    requires Gapped(f) && Clear(f, va) && 0 <= va.start < va.end < W && l in f && l.end == va.start
    ensures var g, x := f - {l}, Range(l.start, va.end);
      Gapped(g) && Clear(g, x) && Ending(g, x.start) == {} && Coalesce(g, x) == Coalesce(f, va)
  {
    var g, x := f - {l}, Range(l.start, va.end);
    OneNeighbour(f, va, l);
    if r :| r in f && r.start == va.end {
      CoalesceIs(f, va, Some(l), Some(r));
      CoalesceIs(g, x, None, Some(r));
    } else {
      CoalesceIs(f, va, Some(l), None);
      CoalesceIs(g, x, None, None);
    }
  }

  lemma AbsorbRight(f: set<Range>, va: Range, r: Range)
    requires Gapped(f) && Clear(f, va) && 0 <= va.start < va.end < W && r in f && r.start == va.end
    ensures var g, x := f - {r}, Range(va.start, r.end);
      Gapped(g) && Clear(g, x) && Starting(g, x.end) == {} && Coalesce(g, x) == Coalesce(f, va)
  {
    var g, x := f - {r}, Range(va.start, r.end);
    OneNeighbour(f, va, r);
    if l :| l in f && l.end == va.start {
      CoalesceIs(f, va, Some(l), Some(r));
      CoalesceIs(g, x, Some(l), None);
    } else {
      CoalesceIs(f, va, None, Some(r));
      CoalesceIs(g, x, None, None);
    }
  }

  // Coalescing is maximal: nothing abuts afterwards.
  lemma CoalesceGapped(f: set<Range>, va: Range)
    requires Gapped(f) && Clear(f, va) && 0 <= va.start < va.end < W
    ensures Gapped(Coalesce(f, va))
  {
    Edges(f, va);
  }

  // Coalescing adds exactly the addresses of `va`.
  lemma CoalesceCovers(f: set<Range>, va: Range, a: int)
    requires Gapped(f) && Clear(f, va) && 0 <= va.start < va.end < W
    ensures Covers(Coalesce(f, va), a) <==> Covers(f, a) || va.start <= a < va.end
  {
    Edges(f, va);
    var g := Coalesce(f, va);
    var j := Range(LeftEdge(f, va), RightEdge(f, va));
    if Covers(g, a) {
      var x :| x in g && x.start <= a < x.end;
      if x == j {
        JoinedCovers(f, va, a);
      }
    }
    if Covers(f, a) {
      var x :| x in f && x.start <= a < x.end;
      if x.end == va.start || x.start == va.end {
        OneNeighbour(f, va, x);
        assert j in g;
      } else {
        assert x in g;
      }
    } else if va.start <= a < va.end {
      assert j in g;
    }
  }

  lemma JoinedCovers(f: set<Range>, va: Range, a: int)
    requires Gapped(f) && 0 <= va.start < va.end < W && LeftEdge(f, va) <= a < RightEdge(f, va)
    ensures Covers(f, a) || va.start <= a < va.end
  {
    if Ending(f, va.start) != {} && a < va.start {
      var x :| x in Ending(f, va.start);
      OneNeighbour(f, va, x);
    } else if Starting(f, va.end) != {} && a >= va.end {
      var x :| x in Starting(f, va.end);
      OneNeighbour(f, va, x);
    }
  }

  // ---------- Runs ----------

  ghost predicate Inside(a: Range, r: Range) {
    r.start <= a.start < a.end <= r.end
  }

  /** Granting `a` out of the free range `r`: what is left of `r` stays free. */
  ghost function Clipped(f: set<Range>, r: Range, a: Range): set<Range> {
    f - {r} + (if r.start < a.start then {Range(r.start, a.start)} else {})
            + (if a.end < r.end then {Range(a.end, r.end)} else {})
  }

  ghost predicate Disjoint(b: set<Range>) {
    && (forall x :: x in b ==> x.start < x.end)
    && (forall x, y :: x in b && y in b && x != y ==> x.end <= y.start || y.end <= x.start)
  }

  /** Free ranges and outstanding areas share out the managed space: they are disjoint, they cover it
      exactly, and no two free ranges overlap or abut. */
  ghost predicate Conserved(f: set<Range>, b: set<Range>, space: Range) {
    && Gapped(f) && Disjoint(b) && (forall x :: x in b ==> Clear(f, x))
    && (forall a :: Covers(f, a) || Covers(b, a) <==> space.start <= a < space.end)
  }

  datatype Step = Grant(r: Range, a: Range) | Return(a: Range)

  // One allocation that succeeds, or one area that is given back.
  ghost predicate Legal(f: set<Range>, b: set<Range>, s: Step, f': set<Range>, b': set<Range>) {
    match s
    case Grant(r, a) => r in f && Inside(a, r) && f' == Clipped(f, r, a) && b' == b + {a}
    case Return(a) => a in b && f' == Coalesce(f, a) && b' == b - {a}
  }

  lemma ClippedCovers(f: set<Range>, r: Range, a: Range, x: int)
    requires r in f && Inside(a, r) && Gapped(f)
    ensures Covers(f, x) <==> Covers(Clipped(f, r, a), x) || a.start <= x < a.end
  {
    var g := Clipped(f, r, a);
    if Covers(f, x) {
      var y :| y in f && y.start <= x < y.end;
      if y != r {
        assert y in g;
      } else if x < a.start {
        assert Range(r.start, a.start) in g;
      } else if x >= a.end {
        assert Range(a.end, r.end) in g;
      }
    }
    if Covers(g, x) {
      var y :| y in g && y.start <= x < y.end;
      assert y in f || r.start <= x < r.end;
    }
  }

  lemma ClippedGapped(f: set<Range>, r: Range, a: Range)
    requires r in f && Inside(a, r) && Gapped(f)
    ensures Gapped(Clipped(f, r, a)) && Clear(Clipped(f, r, a), a)
  {}

  lemma ClippedClear(f: set<Range>, r: Range, a: Range, b: Range)
    requires r in f && Inside(a, r) && b.start < b.end && Clear(f, b)
    ensures Clear(Clipped(f, r, a), b) && (b.end <= a.start || a.end <= b.start)
  {}

  lemma CoversWithout(b: set<Range>, a: Range, x: int)
    requires Disjoint(b) && a in b
    ensures Covers(b, x) <==> Covers(b - {a}, x) || a.start <= x < a.end
  {
    if Covers(b, x) {
      var y :| y in b && y.start <= x < y.end;
      assert y == a || y in b - {a};
    }
    if Covers(b - {a}, x) {
      var y :| y in b - {a} && y.start <= x < y.end;
      assert y in b;
    }
  }

  lemma GrantConserves(f: set<Range>, b: set<Range>, space: Range, r: Range, a: Range)
    requires Conserved(f, b, space) && r in f && Inside(a, r)
    ensures Conserved(Clipped(f, r, a), b + {a}, space) && a !in b
  {
    var g, b' := Clipped(f, r, a), b + {a};
    ClippedGapped(f, r, a);
    forall y | y in b
      ensures Clear(g, y) && (y.end <= a.start || a.end <= y.start)
    {
      ClippedClear(f, r, a, y);
    }
    assert a !in b;
    assert b' - {a} == b;
    forall x
      ensures Covers(g, x) || Covers(b', x) <==> space.start <= x < space.end
    {
      ClippedCovers(f, r, a, x);
      CoversWithout(b', a, x);
    }
  }

  lemma ReturnConserves(f: set<Range>, b: set<Range>, space: Range, a: Range)
    requires Conserved(f, b, space) && a in b && 0 <= a.start && a.end < W
    ensures Conserved(Coalesce(f, a), b - {a}, space)
  {
    var g, b' := Coalesce(f, a), b - {a};
    CoalesceGapped(f, a);
    forall y | y in b'
      ensures Clear(g, y)
    {
      CoalesceClear(f, a, y);
    }
    forall x
      ensures Covers(g, x) || Covers(b', x) <==> space.start <= x < space.end
    {
      CoalesceCovers(f, a, x);
      CoversWithout(b, a, x);
    }
  }

  lemma CoalesceClear(f: set<Range>, a: Range, y: Range)
    requires Gapped(f) && Clear(f, a) && Clear(f, y) && 0 <= a.start < a.end < W && y.start < y.end
    requires y.end <= a.start || a.end <= y.start
    ensures Clear(Coalesce(f, a), y)
  {
    Edges(f, a);
    if x :| x in f && x.end == a.start { OneNeighbour(f, a, x); }
    if x :| x in f && x.start == a.end { OneNeighbour(f, a, x); }
  }

  /** A run: free ranges and outstanding areas before the first step, between any two, and after the last. */
  datatype State = State(free: set<Range>, busy: set<Range>)

  ghost predicate IsRun(states: seq<State>, steps: seq<Step>, space: Range) {
    && |states| == |steps| + 1 && states[0] == State({space}, {})
    && forall i :: 0 <= i < |steps| ==>
         Legal(states[i].free, states[i].busy, steps[i], states[i + 1].free, states[i + 1].busy)
  }

  // Every run from the initial state keeps the managed space together, and keeps it coalesced.
  lemma {:induction false} RunConserves(states: seq<State>, steps: seq<Step>, space: Range)
    requires IsRun(states, steps, space) && 0 <= space.start < space.end < W
    ensures forall i :: 0 <= i < |states| ==> Conserved(states[i].free, states[i].busy, space)
    decreases |steps|
  {
    if steps == [] {
      StartConserved(space);
    } else {
      var k := |steps| - 1;
      assert states[..k + 1][0] == states[0];
      RunConserves(states[..k + 1], steps[..k], space);
      assert states[..k + 1][k] == states[k];
      assert Legal(states[k].free, states[k].busy, steps[k], states[k + 1].free, states[k + 1].busy);
      StepConserves(states[k], steps[k], states[k + 1], space);
      forall i | 0 <= i < |states|
        ensures Conserved(states[i].free, states[i].busy, space)
      {
        if i <= k { assert states[..k + 1][i] == states[i]; }
      }
    }
  }

  lemma StartConserved(space: Range)
    requires 0 <= space.start < space.end < W
    ensures Conserved({space}, {}, space)
  {
    forall a
      ensures Covers({space}, a) || Covers({}, a) <==> space.start <= a < space.end
    {
      assert space in {space};
    }
  }

  lemma StepConserves(s: State, step: Step, s': State, space: Range)
    requires Conserved(s.free, s.busy, space) && Legal(s.free, s.busy, step, s'.free, s'.busy)
    requires 0 <= space.start && space.end < W
    ensures Conserved(s'.free, s'.busy, space)
  {
    match step
    case Grant(r, a) => GrantConserves(s.free, s.busy, space, r, a);
    case Return(a) =>
      BusyWithin(s.free, s.busy, space, a);
      ReturnConserves(s.free, s.busy, space, a);
  }

  lemma BusyWithin(f: set<Range>, b: set<Range>, space: Range, a: Range)
    requires Conserved(f, b, space) && a in b
    ensures space.start <= a.start < a.end <= space.end
  {
    assert Covers(b, a.start) && Covers(b, a.end - 1);
  }
}
