/** The array helpers on which all node surgery rests, on real arrays: a node's buffer is the first
    `entries` elements. */
module Arrays {
  import opened Cutting
  import opened Merging

  // array_move: memmove of the elements from `j` to the end down or up to `i`.
  method ArrayMove<T>(a: array<T>, i: nat, j: nat, entries: nat)
    requires j <= entries <= a.Length && i + entries - j <= a.Length
    modifies a
    ensures a[..] == old(a[..i]) + old(a[j..entries]) + old(a[i + entries - j..])
  {
    forall k | 0 <= k < entries - j {
      a[i + k] := a[j + k];
    }
  }

  // array_insert
  method ArrayInsert<T>(a: array<T>, pos: nat, entries: nat, val: T)
    requires pos <= entries < a.Length
    modifies a
    ensures a[..entries + 1] == Ins(old(a[..entries]), pos, val) && a[entries + 1..] == old(a[entries + 1..])
  {
    ghost var s := a[..entries];
    if pos < entries {
      ArrayMove(a, pos + 1, pos, entries);
      assert a[..entries + 1] == s[..pos + 1] + s[pos..];
    }
    a[pos] := val;
  }

  // array_remove
  method ArrayRemove<T>(a: array<T>, pos: nat, entries: nat)
    requires pos < entries <= a.Length
    modifies a
    ensures a[..entries - 1] == Del(old(a[..entries]), pos) && a[entries..] == old(a[entries..])
  {
    if pos + 1 < entries {
      ArrayMove(a, pos, pos + 1, entries);
    }
  }

  // array_copy to position `i` of another array
  method ArrayCopy<T>(dst: array<T>, i: nat, src: array<T>, j: nat, n: nat)
    requires dst != src && i + n <= dst.Length && j + n <= src.Length
    modifies dst
    ensures dst[..] == old(dst[..i]) + src[j..j + n] + old(dst[i + n..])
  {
    forall k | 0 <= k < n {
      dst[i + k] := src[j + k];
    }
  }

  // Removing what was inserted, and inserting what was removed, restores the buffer.
  lemma InsertRemove<T>(s: seq<T>, i: nat, x: T)
    requires i <= |s|
    ensures Del(Ins(s, i, x), i) == s
    ensures i < |s| ==> Ins(Del(s, i), i, s[i]) == s
  {
    assert Ins(s, i, x)[..i] == s[..i];
    if i < |s| {
      assert Del(s, i)[..i] == s[..i] && Del(s, i)[i..] == s[i + 1..];
    }
  }
}
