/**
  Bit surgery on 32-bit register words.

  Both drivers treat their memory-mapped registers as `bv32` words and change
  them with read-modify-write sequences. This module names the few shapes
  those sequences take, so that contracts elsewhere can say "these bits are
  now clear and every other bit is as it was" without spelling out the
  masks again. Bits are named by masks (a one-bit mask is `1 << k`), so that
  a register's bit positions stay constants.
 */
module Bits {

  /** Whether any bit of `mask` is set in `w`; for a one-bit mask, whether that bit is set. */
  predicate IsSet(w: bv32, mask: bv32)
  {
    w & mask != 0
  }

  /** `a` and `b` agree on every bit that is not in `mask`. */
  predicate AgreeOutside(a: bv32, b: bv32, mask: bv32)
  {
    a & !mask == b & !mask
  }

  /** `w` with every bit of `mask` cleared, the `r & !mask` idiom. */
  function ClearMask(w: bv32, mask: bv32): (r: bv32)
    ensures r & mask == 0
    ensures AgreeOutside(r, w, mask)
  {
    w & !mask
  }

  /** `w` with every bit of `mask` set, the `r | mask` idiom. */
  function SetMask(w: bv32, mask: bv32): (r: bv32)
    ensures r & mask == mask
    ensures AgreeOutside(r, w, mask)
  {
    w | mask
  }

  /** Setting bits that are already set changes nothing. */
  lemma SetMaskIdle(w: bv32, mask: bv32)
    requires w & mask == mask
    ensures SetMask(w, mask) == w
  {
  }

  /** Words that agree outside `mask` agree on every bit of `other` disjoint from it. */
  lemma AgreeOutsideOn(a: bv32, b: bv32, mask: bv32, other: bv32)
    requires AgreeOutside(a, b, mask)
    requires mask & other == 0
    ensures a & other == b & other
    ensures IsSet(a, other) == IsSet(b, other)
  {
  }

  /** Two words that agree outside `mask` and on `mask` are equal. */
  lemma AgreeEverywhere(a: bv32, b: bv32, mask: bv32)
    requires AgreeOutside(a, b, mask)
    requires a & mask == b & mask
    ensures a == b
  {
  }

  /** Agreement outside a mask implies agreement outside any larger mask. */
  lemma AgreeOutsideWiden(a: bv32, b: bv32, m1: bv32, m2: bv32)
    requires AgreeOutside(a, b, m1)
    requires m1 & !m2 == 0
    ensures AgreeOutside(a, b, m2)
  {
  }

  lemma AgreeOutsideTrans(a: bv32, b: bv32, c: bv32, mask: bv32)
    requires AgreeOutside(a, b, mask)
    requires AgreeOutside(b, c, mask)
    ensures AgreeOutside(a, c, mask)
  {
  }
}
