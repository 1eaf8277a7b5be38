/** Why `Aer` may write the codec's masks, shifts and ors as remainders, quotients and sums. */
module Bits {
  import Aer
  import opened Machine

  lemma MasksAreArithmetic(v: bv64)
    ensures v & 0x7f == v % 128
    ensures (v & 0x7f) | 0x80 == v % 128 + 128
    ensures v >> 7 == v / 128
  {
  }

  lemma OrIsPlus(a: bv64, b: bv64)
    requires a & b == 0
    ensures a | b == a + b
  {
  }

  /** While the accumulator holds fewer than `shift` bits, or-ing in a shifted payload is adding it. */
  lemma AccumulatorOrIsPlus(result: bv64, b: bv64, shift: bv64)
    requires shift <= 63 && result >> shift == 0
    ensures result | ((b & 0x7f) << shift) == result + ((b & 0x7f) << shift)
  {
    assert result & ((b & 0x7f) << shift) == 0;
    OrIsPlus(result, (b & 0x7f) << shift);
  }

  /** The shift count at turn `i` of the reading loop. */
  function Shift(i: nat): bv64
    requires i <= 9
  {
    if i == 0 then 0 else if i == 1 then 7 else if i == 2 then 14 else if i == 3 then 21 else if i == 4 then 28
    else if i == 5 then 35 else if i == 6 then 42 else if i == 7 then 49 else if i == 8 then 56 else 63
  }

  /** The first number that needs more than `7 * i` bits, as a word. */
  function Limit(i: nat): bv64
    requires i <= 9
  {
    if i == 0 then 1 else if i == 1 then 0x80 else if i == 2 then 0x4000 else if i == 3 then 0x20_0000
    else if i == 4 then 0x1000_0000 else if i == 5 then 0x8_0000_0000 else if i == 6 then 0x400_0000_0000
    else if i == 7 then 0x2_0000_0000_0000 else if i == 8 then 0x100_0000_0000_0000 else 0x8000_0000_0000_0000
  }

  /** The same as a number. */
  function Bound(i: nat): nat
    requires i <= 9
  {
    if i == 0 then 1 else if i == 1 then 0x80 else if i == 2 then 0x4000 else if i == 3 then 0x20_0000
    else if i == 4 then 0x1000_0000 else if i == 5 then 0x8_0000_0000 else if i == 6 then 0x400_0000_0000
    else if i == 7 then 0x2_0000_0000_0000 else if i == 8 then 0x100_0000_0000_0000 else 0x8000_0000_0000_0000
  }

  lemma BoundIsPower(i: nat)
    requires i <= 9
    ensures Bound(i) == Aer.Pow128(i)
  {
    if i > 0 {
      BoundIsPower(i - 1);
    }
  }

  lemma BelowLimit(result: bv64, i: nat)
    requires i <= 9 && result as nat < Bound(i)
    ensures result < Limit(i)
  {
  }

  lemma LimitFits(result: bv64, i: nat)
    requires i <= 9 && result < Limit(i)
    ensures result >> Shift(i) == 0 && Shift(i) <= 63
  {
  }

  lemma ShiftIsSeven(i: nat)
    requires i <= 9
    ensures Shift(i) as nat == 7 * i
  {
  }

  /**
   * At each turn of the reading loop the accumulator is as small as `AccumulatorOrIsPlus` asks, so the reader's or
   * is the sum that `Aer` writes.
   */
  lemma ReaderAccumulatorFits(bytes: seq<Byte>, i: nat, result: bv64)
    requires i <= |bytes| && i <= 9 && result as nat == Aer.Leb(bytes[..i])
    ensures Shift(i) as nat == 7 * i && Shift(i) <= 63 && result >> Shift(i) == 0
  {
    Aer.LebBound(bytes[..i]);
    BoundIsPower(i);
    ShiftIsSeven(i);
    hide *;
    BelowLimit(result, i);
    LimitFits(result, i);
  }
}
