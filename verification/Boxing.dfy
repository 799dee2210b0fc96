/** Boxed integers: a word is kept inline in 49 bits of a box. A host function that
    boxes a longer one directly, instead of spilling it to a heap cell, loses the
    rest (hostabi/hostabi.go). */
module Boxing {
  const INLINE_MIN: int := -0x1_0000_0000_0000
  const INLINE_MAX: int := 0xFFFF_FFFF_FFFF

  predicate Inline(x: int) {
    INLINE_MIN <= x <= INLINE_MAX
  }

  predicate AllInline(xs: seq<int>) {
    forall k :: 0 <= k < |xs| ==> Inline(xs[k])
  }

  /** What a box holds of a word: its low 49 bits, sign-extended. */
  function Boxed(x: int): (r: int)
    ensures Inline(r)
    ensures r == x <==> Inline(x)
  {
    (x - INLINE_MIN) % 0x2_0000_0000_0000 + INLINE_MIN
  }
}
