/** lookup_smallest_va and lin_lookup_smallest_va: both find the lowest range that can serve a request. */
module Lookup {
  import opened Words
  import opened Node
  import opened Shape
  import opened Avail
  import opened Store
  import opened Tree
  import opened Keeps
  import opened Rebalance
  import opened Space
  import opened Neighbours
  import opened Augment
  import opened Fit
  import opened Search

  // What a range must hold to be looked at: alignments above a page are budgeted for in advance.
  function Length(size: int, align: int): int {
    if align > PAGE_SIZE then (size + align - 1) % W else size
  }

  // A range the search is meant to find.
  ghost predicate Candidate(r: Range, size: int, align: int, vstart: int)
    requires align > 0
  {
    Size(r) >= Length(size, align) && CanServe(r, size, align, vstart)
  }

  // `r` is accepted, and no candidate lies below it.
  ghost predicate Lowest(f: set<Range>, size: int, align: int, vstart: int, r: Range)
    requires align > 0
  {
    && r in f && IsWithin(r, size, align, vstart)
    && forall c :: c in f && Candidate(c, size, align, vstart) ==> r.start <= c.start
  }

  // Every range of the required length from the start of the search on can serve the request: the
  // length includes the worst misalignment, or there is no misalignment.
  ghost predicate Decisive(f: set<Range>, size: int, align: int) {
    if align > PAGE_SIZE then size + align - 1 < W
    else 0 < align && forall r :: r in f ==> r.start % align == 0
  }

  lemma Decided(f: set<Range>, size: int, align: int, vs: int, r: Range)
    requires Decisive(f, size, align) && Request(size, align, vs) && r in f && 0 <= r.start < r.end < W
    requires vs <= r.start && Size(r) >= Length(size, align)
    ensures IsWithin(r, size, align, vs)
  {
    if align > PAGE_SIZE {
      BigEnough(r, size, align, vs);
    } else {
      AlignedStart(r, size, align, vs);
    }
  }

  // ---------- The result ----------

  // `va` is the lowest of these ranges that is_within_this_va accepts, if there is one.
  ghost predicate LowestWithin(s: seq<Range>, size: int, align: int, vs: int, va: Option<Range>)
    requires align > 0
  {
    match va
    case None => forall c :: c in s ==> !IsWithin(c, size, align, vs)
    case Some(r) => r in s && IsWithin(r, size, align, vs) && forall c :: c in s && IsWithin(c, size, align, vs) ==> r.start <= c.start
  }

  // `va` is the lowest of these ranges that can serve the request, if there is one.
  ghost predicate LowestServing(s: seq<Range>, size: int, align: int, vstart: int, va: Option<Range>)
    requires align > 0
  {
    match va
    case None => forall c :: c in s ==> !CanServe(c, size, align, vstart)
    case Some(r) =>
      r in s && CanServe(r, size, align, vstart) && forall c :: c in s && CanServe(c, size, align, vstart) ==> r.start <= c.start
  }

  // `r` is the lowest range of the required length that starts at `lo` or later.
  ghost predicate LowestLarge(f: set<Range>, length: int, lo: int, r: Range) {
    r in f && r.start >= lo && Size(r) >= length && forall x :: x in f && x.start >= lo && Size(x) >= length ==> r.start <= x.start
  }

  ghost predicate SecondLeaf(m: Mem, n: Bpn, length: int, lo: int, r: Range) {
    n in m && m[n].leaf && r in m[n].vas && LowestLarge(Recs(m), length, lo, r)
  }

  /** What lookup_smallest_va returns: the lowest range accepted in the leaf that the first descent enters; if
      there is none, the lowest range able to serve the request in the leaf of the next range of the required
      length, if there is such a range. */
  ghost predicate Exact(m: Mem, root: Bpn, size: int, align: int, vstart: int, va: Option<Range>)
    requires Sound(m, root, -1) && align > 0
  {
    var length := Length(size, align);
    var n := Entered(m, root, root, length, vstart);
    if !LowestWithin(m[n].vas, size, align, vstart, None) then LowestWithin(m[n].vas, size, align, vstart, va)
    else if SmallBetween(Recs(m), m[n].hi, W, length) then va == None
    else exists q, r {:trigger SecondLeaf(m, q, length, m[n].hi, r)} ::
      q in m && SecondLeaf(m, q, length, m[n].hi, r) && LowestServing(m[q].vas, size, align, vstart, va)
  }

  lemma FirstIsLowest(v: Nd, size: int, align: int, vs: int, i: nat)
    requires LeafOk(v, -1) && align > 0 && FirstWithin(v, size, align, vs, i)
    ensures LowestWithin(v.vas, size, align, vs, if i < |v.vas| then Some(v.vas[i]) else None)
  {
    forall c | c in v.vas && IsWithin(c, size, align, vs)
      ensures i < |v.vas| && v.vas[i].start <= c.start
    {
      var j :| 0 <= j < |v.vas| && v.vas[j] == c;
      InOrder(v, -1, i, j);
    }
  }

  // Beyond the start of the search the test is right about every range.
  lemma WithinServes(c: Range, size: int, align: int, vstart: int, vs: int)
    requires Request(size, align, vstart) && vstart < vs <= c.start < c.end < W
    ensures IsWithin(c, size, align, vs) <==> CanServe(c, size, align, vstart)
  {
    IsWithinExact(c, size, align, vs);
    if CanServe(c, size, align, vstart) {
      var a :| FitsAt(c, size, align, vstart, a);
      assert FitsAt(c, size, align, vs, a);
    }
    if CanServe(c, size, align, vs) {
      var a :| FitsAt(c, size, align, vs, a);
      assert FitsAt(c, size, align, vstart, a);
    }
  }

  // ---------- One pass ----------

  // The first record of the leaf that is_within_this_va accepts.
  ghost predicate FirstWithin(v: Nd, size: int, align: int, vs: int, i: nat)
    requires align > 0
  {
    && i <= |v.vas| && (forall j :: 0 <= j < i ==> !IsWithin(v.vas[j], size, align, vs))
    && (i < |v.vas| ==> IsWithin(v.vas[i], size, align, vs))
  }

  // leaf_get_va_cond
  method LeafGetVaCond(n: Bpn, ghost v: Nd, size: int, align: int, vs: int) returns (i: nat)
    requires Same(n, v) && align > 0
    ensures FirstWithin(v, size, align, vs, i)
  {
    i := 0;
    while i < |n.vas|
      invariant i <= |n.vas| && forall j :: 0 <= j < i ==> !IsWithin(n.vas[j], size, align, vs)
    {
      if IsWithin(n.vas[i], size, align, vs) {
        return;
      }
      i := i + 1;
    }
  }

  // The first pass has accepted nothing, and the next range of the required length starts at `vs` or later.
  ghost predicate FirstPassFailed(m: Mem, root: Bpn, size: int, align: int, vstart: int, vs: int)
    requires Sound(m, root, -1) && align > 0
  {
    var n := Entered(m, root, root, Length(size, align), vstart);
    && LowestWithin(m[n].vas, size, align, vstart, None) && m[n].hi <= vs
    && SmallBetween(Recs(m), m[n].hi, vs, Length(size, align))
  }

  // How far the search has come when pass `i` begins at `vs`.
  ghost predicate PassState(m: Mem, root: Bpn, size: int, align: int, vstart: int, i: int, vs: int)
    requires align > 0
  {
    && vstart <= vs < W
    && (i == 0 ==> vs == vstart)
    && (i == 1 ==> vs > vstart && StartsAt(m, root, Length(size, align), vs)
                   && forall c :: c in Recs(m) && Candidate(c, size, align, vstart) ==> vs <= c.start)
    && (i >= 1 ==> Sound(m, root, -1))
    && (i == 1 ==> FirstPassFailed(m, root, size, align, vstart, vs))
    && (i == 2 ==> !Decisive(Recs(m), size, align) && Exact(m, root, size, align, vstart, None))
  }

  lemma {:induction false} LowestRecord(s: set<Range>) returns (r: Range)
    requires s != {}
    ensures r in s && forall x :: x in s ==> r.start <= x.start
    decreases |s|
  {
    r :| r in s;
    var rest := s - {r};
    if rest != {} {
      var q := LowestRecord(rest);
      if q.start < r.start { r := q; }
    }
  }

  lemma LeadExists(m: Mem, root: Bpn, length: int, vs: int) returns (q: Bpn, r: Range)
    requires Sound(m, root, -1) && StartsAt(m, root, length, vs)
    ensures Leads(m, q, r, length, vs)
  {
    q :| q in m && q != root && m[q].lo == vs && MaxAvail(m[q]) >= length;
    HasSpace(m, root, -1, q);
    var r0 := AvailAttained(m, root, -1, q);
    var s := set x | x in Recs(m) && x.start >= vs && Size(x) >= length;
    assert r0 in s;
    r := LowestRecord(s);
  }

  // The second pass ends at the leaf of the lowest large range, and nothing in that leaf lies before `vs`.
  lemma SecondPassHome(m0: Mem, m: Mem, root: Bpn, path: seq<Bpn>, n: Bpn, length: int, vs: int) returns (r: Range)
    requires Sound(m0, root, -1) && Reached(m0, m, root, path, n, length, vs) && m[n].leaf && StartsAt(m0, root, length, vs)
    ensures r in Recs(m0) && r in m[n].vas && vs <= m[n].lo <= r.start && Size(r) >= length
    ensures forall x :: x in Recs(m0) && x.start >= vs && Size(x) >= length ==> r.start <= x.start
  {
    var q: Bpn;
    q, r := LeadExists(m0, root, length, vs);
    assert Leads(m0, q, r, length, vs) && Holds(m[n], r.start);
    assert NodeOk(m0, root, -1, n) && NodeOk(m0, root, -1, q);
    HomeLeaf(m0, root, -1, n, r);
    Nest(m0, root, -1, n, q, r.start);
  }

  lemma CandidateWithin(c: Range, size: int, align: int, vstart: int, vs: int)
    requires Request(size, align, vstart) && 0 <= c.start < c.end < W && CanServe(c, size, align, vstart)
    ensures c.end > vstart
    ensures vs == vstart || vstart <= vs <= c.start ==> IsWithin(c, size, align, vs)
  {
    var a :| FitsAt(c, size, align, vstart, a);
    if vs == vstart || vstart <= vs <= c.start {
      NvaServes(c, size, align, vs, a);
    }
  }

  // The state in the middle of a pass: the descent has reached leaf `n` and looked through it.
  ghost predicate Looked(m0: Mem, m: Mem, root: Bpn, path: seq<Bpn>, n: Bpn, size: int, align: int, vstart: int, i: int, vs: int, k: nat) {
    && Request(size, align, vstart) && Sound(m0, root, -1) && Gapped(Recs(m0)) && 0 <= i < 2
    && PassState(m0, root, size, align, vstart, i, vs) && Reached(m0, m, root, path, n, Length(size, align), vs)
    && m[n].leaf && FirstWithin(m[n], size, align, vs, k)
    && (i == 0 ==> n == Entered(m0, root, root, Length(size, align), vstart))
  }

  // The leaf of the second pass, seen from the first.
  lemma SecondPassLeaf(m0: Mem, m: Mem, root: Bpn, path: seq<Bpn>, n: Bpn, size: int, align: int, vstart: int, vs: int, k: nat)
    requires Looked(m0, m, root, path, n, size, align, vstart, 1, vs, k)
    ensures var va, l := if k < |m[n].vas| then Some(m[n].vas[k]) else None, Length(size, align);
      var lo := m0[Entered(m0, root, root, l, vstart)].hi;
      && LowestServing(m0[n].vas, size, align, vstart, va) && n in m0 && !SmallBetween(Recs(m0), lo, W, l)
      && exists r :: SecondLeaf(m0, n, l, lo, r)
  {
    var l := Length(size, align);
    var lo := m0[Entered(m0, root, root, l, vstart)].hi;
    var r := SecondPassHome(m0, m, root, path, n, l, vs);
    assert NodeOk(m0, root, -1, n);
    forall x | x in Recs(m0) && x.start >= lo && Size(x) >= l
      ensures r.start <= x.start
    {
      assert x.start >= vs;
    }
    assert SecondLeaf(m0, n, l, lo, r);
    FirstIsLowest(m0[n], size, align, vs, k);
    forall c | c in m0[n].vas
      ensures IsWithin(c, size, align, vs) <==> CanServe(c, size, align, vstart)
    {
      assert c in Recs(m0);
      WithinServes(c, size, align, vstart, vs);
    }
  }

  // What either pass finds, or does not find, is the answer.
  lemma LookedExact(m0: Mem, m: Mem, root: Bpn, path: seq<Bpn>, n: Bpn, size: int, align: int, vstart: int, i: int, vs: int, k: nat)
    requires Looked(m0, m, root, path, n, size, align, vstart, i, vs, k)
    ensures k < |m[n].vas| ==> Exact(m0, root, size, align, vstart, Some(m[n].vas[k]))
    ensures k == |m[n].vas| && (i == 1 || SmallBetween(Recs(m0), m[n].hi, W, Length(size, align))) ==>
              Exact(m0, root, size, align, vstart, None)
  {
    if i == 0 {
      assert NodeOk(m0, root, -1, n);
      FirstIsLowest(m0[n], size, align, vs, k);
    } else {
      SecondPassLeaf(m0, m, root, path, n, size, align, vstart, vs, k);
      var l := Length(size, align);
      var r :| SecondLeaf(m0, n, l, m0[Entered(m0, root, root, l, vstart)].hi, r);
    }
  }

  // No candidate lies before the leaf, nor in the leaf before position `k`.
  lemma CandidateAfter(m0: Mem, m: Mem, root: Bpn, path: seq<Bpn>, n: Bpn, size: int, align: int, vstart: int, i: int, vs: int, k: nat, c: Range)
    requires Looked(m0, m, root, path, n, size, align, vstart, i, vs, k)
    requires c in Recs(m0) && Candidate(c, size, align, vstart)
    ensures c.start >= m[n].hi || exists j :: k <= j < |m[n].vas| && m[n].vas[j] == c
  {
    CandidateWithin(c, size, align, vstart, vs);
    if i == 1 {
      var r := SecondPassHome(m0, m, root, path, n, Length(size, align), vs);
    }
    assert m[n].lo <= c.start;
    if c.start < m[n].hi {
      HomeLeaf(m0, root, -1, n, c);
      var j :| 0 <= j < |m[n].vas| && m[n].vas[j] == c;
    }
  }

  lemma FoundWithin(m0: Mem, m: Mem, root: Bpn, path: seq<Bpn>, n: Bpn, size: int, align: int, vstart: int, i: int, vs: int, k: nat)
    requires Looked(m0, m, root, path, n, size, align, vstart, i, vs, k) && k < |m[n].vas|
    ensures m[n].vas[k] in Recs(m0) && IsWithin(m[n].vas[k], size, align, vstart)
  {
    InRecs(m0, n, k);
    if i == 1 {
      var r := SecondPassHome(m0, m, root, path, n, Length(size, align), vs);
      assert NodeOk(m0, root, -1, n);
      LaterStart(m[n].vas[k], size, align, vstart, vs);
    }
  }

  lemma FoundLowest(m0: Mem, m: Mem, root: Bpn, path: seq<Bpn>, n: Bpn, size: int, align: int, vstart: int, i: int, vs: int, k: nat)
    requires Looked(m0, m, root, path, n, size, align, vstart, i, vs, k) && k < |m[n].vas|
    ensures Lowest(Recs(m0), size, align, vstart, m[n].vas[k])
  {
    FoundWithin(m0, m, root, path, n, size, align, vstart, i, vs, k);
    assert NodeOk(m0, root, -1, n);
    forall c | c in Recs(m0) && Candidate(c, size, align, vstart)
      ensures m[n].vas[k].start <= c.start
    {
      CandidateAfter(m0, m, root, path, n, size, align, vstart, i, vs, k, c);
      if c.start < m[n].hi {
        var j :| k <= j < |m[n].vas| && m[n].vas[j] == c;
        InOrder(m[n], -1, k, j);
      }
    }
  }

  // The second pass cannot fail when the request is decisive.
  lemma SecondPassDecides(m0: Mem, m: Mem, root: Bpn, path: seq<Bpn>, n: Bpn, size: int, align: int, vstart: int, vs: int)
    requires n in m && Looked(m0, m, root, path, n, size, align, vstart, 1, vs, |m[n].vas|)
    ensures !Decisive(Recs(m0), size, align)
  {
    if Decisive(Recs(m0), size, align) {
      var r := SecondPassHome(m0, m, root, path, n, Length(size, align), vs);
      Decided(Recs(m0), size, align, vs, r);
    }
  }

  // The first pass has found nothing, but there is a range of the required length further on.
  lemma FirstPass(m0: Mem, m: Mem, root: Bpn, path: seq<Bpn>, n: Bpn, size: int, align: int, vstart: int, vs': int)
    requires n in m && Looked(m0, m, root, path, n, size, align, vstart, 0, vstart, |m[n].vas|)
    requires vs' > vstart && StartsAt(m0, root, Length(size, align), vs') && SmallBetween(Recs(m0), m[n].hi, vs', Length(size, align))
    requires m[n].hi <= vs'
    ensures PassState(m0, root, size, align, vstart, 1, vs')
  {
    var q :| q in m0 && q != root && m0[q].lo == vs' && MaxAvail(m0[q]) >= Length(size, align);
    assert NodeOk(m0, root, -1, q) && NodeOk(m0, root, -1, n);
    FirstIsLowest(m0[n], size, align, vstart, |m[n].vas|);
    forall c | c in Recs(m0) && Candidate(c, size, align, vstart)
      ensures vs' <= c.start
    {
      CandidateAfter(m0, m, root, path, n, size, align, vstart, 0, vstart, |m[n].vas|, c);
    }
  }

  lemma NextPass(m0: Mem, m: Mem, root: Bpn, path: seq<Bpn>, n: Bpn, size: int, align: int, vstart: int, i: int, vs: int, vs': int)
    requires n in m && Looked(m0, m, root, path, n, size, align, vstart, i, vs, |m[n].vas|)
    requires vs' > vs && StartsAt(m0, root, Length(size, align), vs') && SmallBetween(Recs(m0), m[n].hi, vs', Length(size, align))
    requires m[n].hi <= vs'
    ensures PassState(m0, root, size, align, vstart, i + 1, vs')
  {
    if i == 1 {
      var q :| q in m0 && q != root && m0[q].lo == vs' && MaxAvail(m0[q]) >= Length(size, align);
      assert NodeOk(m0, root, -1, q);
      SecondPassDecides(m0, m, root, path, n, size, align, vstart, vs);
      LookedExact(m0, m, root, path, n, size, align, vstart, i, vs, |m[n].vas|);
    } else {
      FirstPass(m0, m, root, path, n, size, align, vstart, vs');
    }
  }

  lemma NothingFound(m0: Mem, m: Mem, root: Bpn, path: seq<Bpn>, n: Bpn, size: int, align: int, vstart: int, i: int, vs: int)
    requires n in m && Looked(m0, m, root, path, n, size, align, vstart, i, vs, |m[n].vas|)
    requires SmallBetween(Recs(m0), m[n].hi, W, Length(size, align)) && Decisive(Recs(m0), size, align)
    ensures forall c :: c in Recs(m0) ==> !Candidate(c, size, align, vstart)
  {
    forall c | c in Recs(m0)
      ensures !Candidate(c, size, align, vstart)
    {
      if Candidate(c, size, align, vstart) {
        CandidateAfter(m0, m, root, path, n, size, align, vstart, i, vs, |m[n].vas|, c);
      }
    }
  }

  // What a pass has reached does not depend on the marks it started from.
  lemma Rebase(m0: Mem, m1: Mem, m: Mem, root: Bpn, path: seq<Bpn>, n: Bpn, length: int, vs: int)
    requires Sound(m0, root, -1) && SameButMarks(m0, m1) && Reached(m1, m, root, path, n, length, vs)
    ensures Reached(m0, m, root, path, n, length, vs)
  {
    MarksKeep(m0, m1, root);
    forall q, r | q in m0 && Leads(m0, q, r, length, vs)
      ensures Holds(m[n], r.start)
    {
      assert Leads(m1, q, r, length, vs);
    }
  }

  // What the search returns: the lowest range that will do, and where it is; or nothing.
  ghost predicate Answer(m0: Mem, m: Mem, root: Bpn, size: int, align: int, vstart: int, va: Option<Range>, n: Bpn, k: nat, path: seq<Bpn>)
    requires align > 0
  {
    && Sound(m, root, -1) && SameButMarks(m0, m)
    && Sound(m0, root, -1) && Exact(m0, root, size, align, vstart, va)
    && (va.Some? ==> Lowest(Recs(m0), size, align, vstart, va.value) && Handle(m, root, va.value, n, k, path))
    && (va.None? && Decisive(Recs(m0), size, align) ==>
          forall c :: c in Recs(m0) ==> !Candidate(c, size, align, vstart))
  }

  // Record `k` of leaf `n` is `r`, and the position marks lead there.
  ghost predicate Handle(m: Mem, root: Bpn, r: Range, n: Bpn, k: nat, path: seq<Bpn>) {
    PathOk(m, root, path) && path[|path| - 1] == n && m[n].leaf && k < |m[n].vas| && m[n].vas[k] == r
  }

  lemma Answered(m0: Mem, m: Mem, root: Bpn, path: seq<Bpn>, n: Bpn, size: int, align: int, vstart: int, i: int, vs: int, k: nat)
    requires Looked(m0, m, root, path, n, size, align, vstart, i, vs, k)
    ensures k < |m[n].vas| ==> Answer(m0, m, root, size, align, vstart, Some(m[n].vas[k]), n, k, path)
    ensures k == |m[n].vas| && SmallBetween(Recs(m0), m[n].hi, W, Length(size, align)) ==>
              Answer(m0, m, root, size, align, vstart, None, n, k, path)
  {
    LookedExact(m0, m, root, path, n, size, align, vstart, i, vs, k);
    if k < |m[n].vas| {
      FoundLowest(m0, m, root, path, n, size, align, vstart, i, vs, k);
    } else if SmallBetween(Recs(m0), m[n].hi, W, Length(size, align)) && Decisive(Recs(m0), size, align) {
      NothingFound(m0, m, root, path, n, size, align, vstart, i, vs);
    }
  }

  // The first half of a pass: down to a leaf, and through its records.
  method LookInLeaf(t: BptRoot, size: int, align: int, length: int, ghost vstart: int, ghost i: int, vs: int, ghost m0: Mem)
      returns (n: Bpn, k: nat, ghost path: seq<Bpn>)
    requires Linked(t) && Sound(m0, t.node, -1) && SameButMarks(m0, t.m) && Gapped(Recs(m0)) && Request(size, align, vstart)
    requires length == Length(size, align) && 0 <= i < 2 && PassState(m0, t.node, size, align, vstart, i, vs)
    requires i == 0 ==> t.m == m0
    modifies t`m, t.m.Keys
    ensures Linked(t) && t.m.Keys <= old(t.m.Keys) && Looked(m0, t.m, t.node, path, n, size, align, vstart, i, vs, k)
    ensures k < |t.m[n].vas| ==> Answer(m0, t.m, t.node, size, align, vstart, Some(t.m[n].vas[k]), n, k, path)
  {
    ghost var m1 := t.m;
    MarksKeep(m0, m1, t.node);
    n, path := BptLookupLowestLeaf(t, length, vs);
    Rebase(m0, m1, t.m, t.node, path, n, length, vs);
    assert See(n);
    k := LeafGetVaCond(n, t.m[n], size, align, vs);
    Answered(m0, t.m, t.node, path, n, size, align, vstart, i, vs, k);
  }

  // The second half of a pass that has found nothing: where the next subtree with enough space begins.
  method LookFurther(t: BptRoot, n: Bpn, size: int, align: int, length: int, ghost vstart: int, ghost i: int, vs: int,
                     ghost path: seq<Bpn>, ghost m0: Mem) returns (found: bool, next: int)
    requires Linked(t) && length == Length(size, align) && n in t.m
    requires Looked(m0, t.m, t.node, path, n, size, align, vstart, i, vs, |t.m[n].vas|)
    ensures if found then PassState(m0, t.node, size, align, vstart, i + 1, next)
            else Answer(m0, t.m, t.node, size, align, vstart, None, n, |t.m[n].vas|, path)
  {
    MarksKeep(m0, t.m, t.node);
    Answered(m0, t.m, t.node, path, n, size, align, vstart, i, vs, |t.m[n].vas|);
    found, next := FirstNextSubAvail(t, n, length, vs, path);
    if found {
      StartsAtStill(m0, t.m, t.node, length, next);
      NextPass(m0, t.m, t.node, path, n, size, align, vstart, i, vs, next);
    }
  }

  lemma LastPassed(m0: Mem, m: Mem, root: Bpn, size: int, align: int, vstart: int, vs: int, n: Bpn, k: nat, path: seq<Bpn>)
    requires Sound(m0, root, -1) && SameButMarks(m0, m) && align > 0 && PassState(m0, root, size, align, vstart, 2, vs)
    ensures Answer(m0, m, root, size, align, vstart, None, n, k, path)
  {
    MarksKeep(m0, m, root);
  }

  // lookup_smallest_va: at most two passes.
  method LookupSmallestVa(t: BptRoot, size: int, align: int, vstart: int)
      returns (va: Option<Range>, n: Bpn, k: nat, ghost path: seq<Bpn>)
    requires Linked(t) && Sound(t.m, t.node, -1) && Gapped(Recs(t.m)) && Request(size, align, vstart)
    modifies t`m, t.m.Keys
    ensures Linked(t) && Answer(old(t.m), t.m, t.node, size, align, vstart, va, n, k, path)
  {
    var length := if align > PAGE_SIZE then (size + align - 1) % W else size;
    ghost var m0 := t.m;
    var vs := vstart;
    va, n, k, path := None, t.node, 0, [];
    for i := 0 to 2
      invariant Linked(t) && t.m.Keys <= old(t.m.Keys) && SameButMarks(m0, t.m) && va == None
      invariant PassState(m0, t.node, size, align, vstart, i, vs) && (i == 0 ==> t.m == m0)
    {
      n, k, path := LookInLeaf(t, size, align, length, vstart, i, vs, m0);
      assert See(n);
      if k < |n.vas| {
        va := Some(n.vas[k]);
        return;
      }
      var found, next := LookFurther(t, n, size, align, length, vstart, i, vs, path, m0);
      if !found {
        return;
      }
      vs := next;
    }
    LastPassed(m0, t.m, t.node, size, align, vstart, vs, n, k, path);
  }

  lemma StartsAtStill(m0: Mem, m: Mem, root: Bpn, length: int, vs: int)
    requires SameButMarks(m0, m) && StartsAt(m, root, length, vs)
    ensures StartsAt(m0, root, length, vs)
  {
    var q :| q in m && q != root && m[q].lo == vs && MaxAvail(m[q]) >= length;
    assert m0[q].lo == vs && MaxAvail(m0[q]) >= length;
  }
}
