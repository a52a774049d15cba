/** Bit-field extraction on 32-bit words, as used by the instruction decoder. */
module Bits {

  /** The word whose low `nbit` bits are set and whose other bits are clear. */
  function Mask(nbit: bv32): bv32
    requires nbit < 32
  {
    ((1 as bv32) << nbit) - 1
  }

  /** `retrieve(x, shift, nbit)`: the field x[shift+nbit-1 : shift], moved down to bit 0.
      Rust's `u32` shifts overflow for amounts of 32 or more, so both amounts stay below 32. */
  function Retrieve(x: bv32, shift: bv32, nbit: bv32): (r: bv32)
    requires shift < 32 && nbit < 32
    ensures r < (1 as bv32) << nbit
  {
    (x >> shift) & (((1 as bv32) << nbit) - 1)
  }

  /** Put back at its original position, the retrieved field is exactly the bits
      of `x` selected by a mask of `nbit` ones starting at bit `shift`. */
  lemma RetrieveIsField(x: bv32, shift: bv32, nbit: bv32)
    requires shift < 32 && nbit < 32
    ensures Retrieve(x, shift, nbit) << shift == x & (Mask(nbit) << shift)
  {
    RetrieveShiftedBack(x, shift, nbit);
    ShiftBackUnderMask(x, shift, nbit);
  }

  /** `x` with its bits below `s` cleared, then cut by a mask of `n` ones starting at bit `s`. */
  function ClearedBelow(x: bv32, s: bv32, n: bv32): bv32
    requires s < 32 && n < 32
  {
    ((x >> s) << s) & (Mask(n) << s)
  }

  /** The bits of `x` under a mask of `n` ones starting at bit `s`, left in place. */
  function InPlace(x: bv32, s: bv32, n: bv32): bv32
    requires s < 32 && n < 32
  {
    x & (Mask(n) << s)
  }

  /** The two sides of a left shift distributing over `&`, named so that the proof of
      `RetrieveIsField` can chain equalities between whole terms. */
  function ShiftOfAnd(a: bv32, b: bv32, s: bv32): bv32
    requires s < 32
  {
    (a & b) << s
  }

  function AndOfShifts(a: bv32, b: bv32, s: bv32): bv32
    requires s < 32
  {
    (a << s) & (b << s)
  }

  /** The retrieved field shifted back is `x` cleared below `shift`, under the shifted mask. */
  lemma RetrieveShiftedBack(x: bv32, s: bv32, n: bv32)
    requires s < 32 && n < 32
    ensures Retrieve(x, s, n) << s == ClearedBelow(x, s, n)
  {
    ShiftDistributesOverAnd(x >> s, Mask(n), s);
  }

  /** A left shift distributes over `&`; splitting on the shift amount keeps the solver's search small. */
  lemma ShiftDistributesOverAnd(a: bv32, b: bv32, s: bv32)
    requires s < 32
    ensures ShiftOfAnd(a, b, s) == AndOfShifts(a, b, s)
  {
    if s < 8 {
    } else if s < 16 {
    } else if s < 24 {
    } else {
    }
  }

  /** Shifting down and back up clears only bits below `s`, which a mask shifted by `s` drops anyway. */
  lemma ShiftBackUnderMask(x: bv32, s: bv32, n: bv32)
    requires s < 32 && n < 32
    ensures ClearedBelow(x, s, n) == InPlace(x, s, n)
  {
  }

  /** When the field fits in the word, it is the only value below 2^nbit with that
      property, so the contracts of `Retrieve` and `RetrieveIsField` pin the result down completely. */
  lemma FieldIsUnique(x: bv32, shift: bv32, nbit: bv32, v: bv32)
    requires shift < 32 && nbit < 32 && shift + nbit <= 32
    requires v < (1 as bv32) << nbit
    requires v << shift == x & (Mask(nbit) << shift)
    ensures v == Retrieve(x, shift, nbit)
  {
  }
}
