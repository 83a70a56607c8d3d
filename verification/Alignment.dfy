/** Size rounding of the two bump allocators: the mask arithmetic of
    `MemoryPool::align_size`, over 64-bit unsigned integers written as naturals
    below `WORD`. */
module Alignment {
  import opened Bits
  import opened Common

  const WORD: nat := 0x1_0000_0000_0000_0000
  const SIZE_MAX: nat := WORD - 1

  /** Bitwise complement in a 64-bit word. */
  function Not(x: nat): nat
    requires x <= SIZE_MAX
  {
    SIZE_MAX - x
  }

  /** The code: reject a bad alignment, reject an overflowing sum, mask. */
  function AlignSize(bytes: nat, alignment: nat): Option<nat>
    requires bytes <= SIZE_MAX && alignment <= SIZE_MAX
  {
    if alignment == 0 || And(alignment, alignment - 1) != 0 then None
    else if bytes > SIZE_MAX - (alignment - 1) then None
    else Some(And(bytes + alignment - 1, Not(alignment - 1)))
  }

  /** ceil(bytes / alignment) * alignment. */
  function RoundUp(bytes: nat, alignment: nat): nat
    requires alignment > 0
  {
    (bytes + alignment - 1) / alignment * alignment
  }

  lemma RoundUpIsMultiple(bytes: nat, alignment: nat)
    requires alignment > 0
    ensures var x := bytes + alignment - 1;
            RoundUp(bytes, alignment) == x - x % alignment
    ensures RoundUp(bytes, alignment) % alignment == 0
    ensures bytes <= RoundUp(bytes, alignment) < bytes + alignment
  {
    var x := bytes + alignment - 1;
    var q := x / alignment;
    assert q * alignment == x - x % alignment;
    assert q * alignment == alignment * q + 0;
    DivModUnique(q * alignment, alignment, q, 0);
  }

  /** `align_size` accepts exactly the power-of-two alignments whose sum does not
      overflow, and its mask computes the least multiple of the alignment that
      holds the request. */
  lemma AlignSizeExact(bytes: nat, alignment: nat)
    requires bytes <= SIZE_MAX && alignment <= SIZE_MAX
    ensures AlignSize(bytes, alignment).Some?
            <==> IsPowerOfTwo(alignment) && bytes + alignment - 1 <= SIZE_MAX
    ensures AlignSize(bytes, alignment).Some? ==>
              var a := AlignSize(bytes, alignment).value;
              && alignment > 0
              && a == RoundUp(bytes, alignment)
              && a % alignment == 0
              && bytes <= a < bytes + alignment
              && a <= SIZE_MAX
  {
    if alignment == 0 {
      assert forall k: nat :: Pow2(k) != 0;
    } else {
      PowerOfTwoTest(alignment);
      if AlignSize(bytes, alignment).Some? {
        var k: nat :| alignment == Pow2(k);
        Pow2Word();
        Pow2StrictlyMonotone(k, 64);
        var x := bytes + alignment - 1;
        MaskClearsLowBits(x, k, 64);
        assert Not(alignment - 1) == Pow2(64) - Pow2(k);
        RoundUpIsMultiple(bytes, alignment);
      }
    }
  }
}
