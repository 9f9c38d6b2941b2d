/**
 * Three places where the code of the `bitbuf` crate (`src/lib.rs`) does
 * not do what it evidently means to do. Each is written out here as the
 * code has it, next to an input on which it goes wrong; the rest of the
 * model uses the corrected forms (`FitMask` and `FitByte` in `Engine`, `FitReadByte` in
 * `Engine`, and `CanWriteBits` / `CanReadBits` of `BitBuf`).
 *
 * Shifts and subtractions on `u8` are taken as an optimised build computes
 * them: a subtraction wraps modulo 256 and a shift by `k` shifts by
 * `k % 8`. A debug build stops with an overflow error on the same inputs.
 */
module Findings {
  import opened BitStream
  import opened Engine
  import opened Outcomes
  import opened Buffer

  /** `x << k` on a `u8` in an optimised build. */
  function WrappingShl(x: bv8, k: bv8): bv8
  {
    x << (k % 8)
  }

  /** `x >> k` on a `u8` in an optimised build. */
  function WrappingShr(x: bv8, k: bv8): bv8
  {
    x >> (k % 8)
  }

  // ---------------------------------------------------------------------
  // The mask of a write that ends inside its byte.
  // ---------------------------------------------------------------------

  /**
   * The mask of a write that starts at bit `used` of a byte and ends
   * inside it, as written: `(0xFF >> bits_free) | (0xFF << (8 - bits_left))`.
   * For a field that ends exactly at the end of the byte, `bits_left` is 0
   * and the second shift is by 8.
   */
  function FitMaskAsWritten(used: bv8, n: bv8): bv8
    requires 1 <= used <= 7 && 1 <= n <= 8 - used
  {
    var free := 8 - used;
    var left := free - n;
    (0xFF >> free) | WrappingShl(0xFF, 8 - left)
  }

  /** The byte a write that ends inside byte `b` leaves, with the mask as written. */
  function FitByteAsWritten(b: bv8, value: bv8, used: bv8, n: bv8): bv8
    requires 1 <= used <= 7 && 1 <= n <= 8 - used
  {
    (b & FitMaskAsWritten(used, n)) | ((value & (0xFF >> (8 - n))) << used)
  }

  /**
   * Writing the 4-bit field 0 at bit 4 of the byte `0xF0` keeps the old
   * bits of the field: the mask as written keeps all eight bits, so the
   * byte stays `0xF0` and the field reads back as 15. The corrected mask
   * keeps only bits 0 to 3.
   */
  lemma FitMaskCounterexample()
    ensures FitMaskAsWritten(4, 4) == 0xFF && FitMask(4, 4) == 0x0F
    ensures FitByteAsWritten(0xF0, 0, 4, 4) == 0xF0
    ensures BitOf(FitByteAsWritten(0xF0, 0, 4, 4), 4)
  {
    assert (0xFF as bv8) >> 4 == 0x0F;
    assert WrappingShl(0xFF, 8) == 0xFF;
  }

  // ---------------------------------------------------------------------
  // The remainder of a read.
  // ---------------------------------------------------------------------

  /**
   * The byte a read of `bits` bits from bit `used` of `b0` (and `b1`
   * after it) returns, as written: `remainder` is the `u8` difference
   * `bits - (8 - bits_used)`, which is negative, and so wraps, whenever the
   * field ends inside its byte.
   */
  function ReadByteAsWritten(b0: bv8, b1: bv8, used: bv8, bits: bv8): bv8
    requires used <= 7 && 1 <= bits <= 8
  {
    if used == 0 && bits == 8 then
      b0
    else
      var first := b0 >> used;
      var remainder := bits - (8 - used);
      if remainder < 1 then
        first & WrappingShr(0xFF, 8 - bits)
      else
        var second := b1 & WrappingShr(0xFF, 8 - remainder);
        first | WrappingShl(second, bits - remainder)
  }

  /**
   * Reading 4 bits from the start of the bytes `[0x3F, 0x00]` returns
   * `0x3F` instead of 15: the remainder wraps to 252, the read takes the
   * branch for a field that runs into the next byte, and the bits above
   * the field are not cleared. The corrected read returns a byte whose
   * bit 4 is clear.
   */
  lemma ReadByteCounterexample()
    ensures ReadByteAsWritten(0x3F, 0x00, 0, 4) == 0x3F
    ensures BitOf(ReadByteAsWritten(0x3F, 0x00, 0, 4), 4)
  {
    assert (4 as bv8) - 8 == 252;
    assert WrappingShr(0xFF, 8 - 252) == 0x0F;
  }

  // ---------------------------------------------------------------------
  // Whether a field fits.
  // ---------------------------------------------------------------------

  /**
   * `can_write_bits` and `can_read_bits` as written, with the undefined
   * name `bit_size` read as the parameter `bit_count`: the field must end
   * strictly before the end of the buffer.
   */
  function CanWriteBitsAsWritten(pos: nat, size: nat, bitCount: nat): bool
  {
    bitCount + pos < size
  }

  /**
   * The corrected check on the same buffer: on a fresh one-byte buffer a
   * `u8` fits, and writing it succeeds, where the check as written says
   * it does not fit.
   */
  method FillOneByte() returns (fits: bool, o: Outcome)
    ensures fits && o == Pass && !CanWriteBitsAsWritten(0, 8, 8)
  {
    var buf := new BitBuf.WithLen(1);
    fits := buf.CanWriteBits(8);
    o := buf.WriteU8(211);
  }
}
