/** Whether a free range can serve a request: ALIGN and is_within_this_va with their 64-bit wrap-around. */
module Fit {
  import opened Words
  import opened Node

  // The divisors of 2^64 are the powers of two.
  predicate Alignment(a: int) {
    0 < a < W && W % a == 0
  }

  // ALIGN(x, a); clearing the low bits of a word rounds it down to a multiple of a power of two.
  function Align(x: int, a: int): int
    requires a > 0
  {
    var y := (x + a - 1) % W;
    y - y % a
  }

  // The address a request would get from `va`.
  function NvaStart(va: Range, align: int, vstart: int): int
    requires align > 0
  {
    if va.start > vstart then Align(va.start, align) else Align(vstart, align)
  }

  // is_within_this_va
  predicate IsWithin(va: Range, size: int, align: int, vstart: int)
    requires align > 0
  {
    var nva := NvaStart(va, align, vstart);
    if (nva + size) % W < nva || nva < vstart then false else (nva + size) % W <= va.end
  }

  // An aligned block of `size` bytes at `a` lies inside `va` and not before `vstart`.
  ghost predicate FitsAt(va: Range, size: int, align: int, vstart: int, a: int)
    requires align > 0
  {
    a % align == 0 && vstart <= a && va.start <= a && a + size <= va.end
  }

  ghost predicate CanServe(va: Range, size: int, align: int, vstart: int)
    requires align > 0
  {
    exists a :: FitsAt(va, size, align, vstart, a)
  }

  // The request makes sense for the machine.
  predicate Request(size: int, align: int, vstart: int) {
    0 < size < W && Alignment(align) && 0 <= vstart < W
  }

  lemma DivFacts(x: int, a: int)
    requires a > 0
    ensures x == x / a * a + x % a && 0 <= x % a < a
  {}

  lemma MulOrder(p: int, q: int, a: int)
    requires a > 0 && p <= q
    ensures p * a <= q * a
  {}

  // Multiples of `a` are `a` apart.
  lemma MultiplesApart(x: int, y: int, a: int)
    requires a > 0 && x % a == 0 && y % a == 0 && x > y - a
    ensures x >= y
  {
    DivFacts(x, a);
    DivFacts(y, a);
    if x / a < y / a {
      MulOrder(x / a + 1, y / a, a);
    } else {
      MulOrder(y / a, x / a, a);
    }
  }

  lemma MulMod(q: int, a: int)
    requires a > 0
    ensures (q * a) % a == 0
  {
    DivFacts(q * a, a);
    var r := q * a / a;
    if r < q {
      MulOrder(r + 1, q, a);
    } else if r > q {
      MulOrder(q + 1, r, a);
    }
  }

  lemma RoundedDown(y: int, a: int)
    requires a > 0 && y >= 0
    ensures (y - y % a) % a == 0 && y - a < y - y % a <= y
    ensures y < a ==> y - y % a == 0
  {
    DivFacts(y, a);
    MulMod(y / a, a);
    if y < a { SmallMod(y, a); }
  }

  lemma SmallMod(y: int, a: int)
    requires 0 <= y < a
    ensures y % a == y
  {
    DivFacts(y, a);
    if y / a >= 1 {
      MulOrder(1, y / a, a);
    } else if y / a <= -1 {
      MulOrder(y / a, -1, a);
    }
  }

  // ALIGN yields the least multiple from x on, or 0 when there is none below 2^64.
  lemma AlignMeaning(x: int, a: int)
    requires Alignment(a) && 0 <= x < W
    ensures x + a <= W ==> Align(x, a) % a == 0 && x <= Align(x, a) < x + a
    ensures x + a > W ==> Align(x, a) == 0
  {
    var y := (x + a - 1) % W;
    RoundedDown(y, a);
    assert y == if x + a <= W then x + a - 1 else x + a - 1 - W;
  }

  lemma AlignLeast(x: int, a: int, b: int)
    requires Alignment(a) && 0 <= x <= b && b % a == 0
    ensures x + a <= W ==> Align(x, a) <= b
    ensures x + a > W ==> W <= b
  {
    if x + a <= W {
      AlignMeaning(x, a);
      MultiplesApart(b, Align(x, a), a);
    } else {
      MultiplesApart(b, W, a);
    }
  }

  // The rounding wrapped to 0 and the wrap goes unnoticed.
  predicate WrapsUnnoticed(va: Range, size: int, align: int, vstart: int) {
    vstart == 0 && va.start + align > W && size <= va.end
  }

  // Where the rounding starts from.
  function Base(va: Range, vstart: int): int {
    if va.start > vstart then va.start else vstart
  }

  // If anything fits, the address that is computed does, and it is the lowest.
  lemma NvaServes(va: Range, size: int, align: int, vstart: int, a: int)
    requires Request(size, align, vstart) && 0 <= va.start < va.end < W && FitsAt(va, size, align, vstart, a)
    ensures FitsAt(va, size, align, vstart, NvaStart(va, align, vstart)) && NvaStart(va, align, vstart) <= a
    ensures IsWithin(va, size, align, vstart) && !WrapsUnnoticed(va, size, align, vstart)
  {
    AlignMeaning(Base(va, vstart), align);
    AlignLeast(Base(va, vstart), align, a);
  }

  // What is accepted fits, unless the rounding wrapped unnoticed.
  lemma NvaAccepted(va: Range, size: int, align: int, vstart: int)
    requires Request(size, align, vstart) && 0 <= va.start < va.end < W && IsWithin(va, size, align, vstart)
    ensures FitsAt(va, size, align, vstart, NvaStart(va, align, vstart)) || WrapsUnnoticed(va, size, align, vstart)
    ensures 0 <= NvaStart(va, align, vstart) && NvaStart(va, align, vstart) + size <= va.end
  {
    AlignMeaning(Base(va, vstart), align);
  }

  // is_within_this_va is right about a range exactly when the rounding does not wrap unnoticed.
  lemma IsWithinExact(va: Range, size: int, align: int, vstart: int)
    requires Request(size, align, vstart) && 0 <= va.start < va.end < W
    ensures (IsWithin(va, size, align, vstart) <==> CanServe(va, size, align, vstart))
            <==> !WrapsUnnoticed(va, size, align, vstart)
  {
    if a :| FitsAt(va, size, align, vstart, a) {
      NvaServes(va, size, align, vstart, a);
    }
    if IsWithin(va, size, align, vstart) {
      NvaAccepted(va, size, align, vstart);
    }
    if WrapsUnnoticed(va, size, align, vstart) {
      AlignMeaning(va.start, align);
    }
  }

  // A range of 50 bytes near the top of memory passes for one that can serve a request for 60 bytes.
  lemma IsWithinWraps()
    ensures Request(60, PAGE_SIZE, 0)
    ensures IsWithin(Range(W - 100, W - 50), 60, PAGE_SIZE, 0)
    ensures !CanServe(Range(W - 100, W - 50), 60, PAGE_SIZE, 0)
  {
    assert W % PAGE_SIZE == 0;
    assert Align(W - 100, PAGE_SIZE) == 0;
  }

  // A range that starts on a multiple of the alignment is judged correctly.
  lemma AlignedStart(va: Range, size: int, align: int, vstart: int)
    requires Request(size, align, vstart) && 0 <= va.start < va.end < W && va.start % align == 0
    ensures !WrapsUnnoticed(va, size, align, vstart)
    ensures vstart <= va.start && size <= Size(va) ==> IsWithin(va, size, align, vstart)
  {
    if va.start + align > W {
      MultiplesApart(va.start, W, align);
    }
    if vstart <= va.start && size <= Size(va) {
      NvaServes(va, size, align, vstart, va.start);
    }
  }

  // A range with room for the worst misalignment can serve the request.
  lemma BigEnough(va: Range, size: int, align: int, vstart: int)
    requires Request(size, align, vstart) && 0 <= va.start < va.end < W && vstart <= va.start && Size(va) >= size + align - 1
    ensures IsWithin(va, size, align, vstart) && !WrapsUnnoticed(va, size, align, vstart)
  {
    AlignMeaning(va.start, align);
    NvaServes(va, size, align, vstart, Align(va.start, align));
  }

  // The position from which the search starts may move up to the range itself.
  lemma LaterStart(va: Range, size: int, align: int, vstart: int, later: int)
    requires Request(size, align, vstart) && Request(size, align, later) && vstart <= later <= va.start < va.end < W
    requires IsWithin(va, size, align, later)
    ensures IsWithin(va, size, align, vstart)
  {}
}
