/**
 * The byte expressions of the primitive engine (`in_write_byte` and
 * `in_read_byte`), one method per branch, each specified by which bit of
 * its result comes from where.
 *
 * The proofs go in layers. A kernel lemma, stated on `bv8` offsets only,
 * is settled by the bit-vector solver and gives the layout of the result
 * byte: a predicate quantified over the eight bit positions, with every
 * offset precomputed as a `bv8` parameter. A numbering lemma restates one
 * bit of that layout at a numeric index in terms of `ByteBits`, which is
 * how the stream view speaks about bytes; it does not see the byte
 * expression itself, and it relates bit positions to numbers through one
 * ordering fact and one offset fact per bit.
 */
module Engine {
  import opened Bits
  import opened BitStream

  // ---------------------------------------------------------------------
  // The byte expressions.
  // ---------------------------------------------------------------------

  /**
   * The field a write stores: the low `bits` bits of `value` with the
   * bits above cleared, `value & (0xFF >> (8 - bits))`. An aligned write
   * (`bits_used == 0`) stores it as the whole byte.
   */
  function Masked(value: bv8, bits: nat): (x: bv8)
    requires 1 <= bits <= 8
    ensures ByteBits(x, 8) == ByteBits(value, bits) + Zeros(8 - bits)
  {
    AlignedRange(bits);
    var n := BitIndex(bits);
    var x := value & (0xFF >> (8 - n));
    AlignedBits(value, n, x);
    AlignedNumbered(value, bits, x);
    x
  }

  /**
   * An unaligned write that ends inside byte `b` (`bits_left >= 0`):
   * bits `used .. used + bits` of `b` are replaced by the field, the
   * others are kept.
   */
  method FitByte(b: bv8, value: bv8, used: nat, bits: nat) returns (x: bv8)
    requires 1 <= used <= 7 && 1 <= bits <= 8 - used
    ensures forall r | 0 <= r < 8 :: (ByteBits(x, 8)[r] ==
      if used <= r < used + bits then ByteBits(value, bits)[r - used] else ByteBits(b, 8)[r])
  {
    FitRange(used, bits);
    var u, n := BitIndex(used), BitIndex(bits);
    x := (b & FitMask(u, n)) | ((value & (0xFF >> (8 - n))) << u);
    FitBits(b, value, u, n, x);
    FitNumbered(b, value, used, bits, x);
  }

  /**
   * An unaligned write that spans two bytes (`bits_left < 0`): the field's
   * first `8 - used` bits go to the top of `b0`, the remaining ones to the
   * bottom of `b1`; all other bits are kept.
   */
  method SpanBytes(b0: bv8, b1: bv8, value: bv8, used: nat, bits: nat) returns (x0: bv8, x1: bv8)
    requires 1 <= used <= 7 && 8 - used < bits <= 8
    ensures SpanStored(b0, b1, ByteBits(value, bits), used, x0, x1)
  {
    SpanRange(used, bits);
    var u, n := BitIndex(used), BitIndex(bits);
    var v := value & (0xFF >> (8 - n));
    x0 := (b0 & (0xFF >> (8 - u))) | (v << u);
    x1 := (b1 & (0xFF << (n - (8 - u)))) | (v >> (8 - u));
    SpanLowBits(b0, value, u, n, x0);
    SpanHighBits(b1, value, u, n, x1);
    SpanLowNumbered(b0, value, used, bits, x0);
    SpanHighNumbered(b1, value, used, bits, x1);
  }

  /**
   * A read that ends inside byte `b` (`remainder < 1`): the `bits` bits
   * from bit `used` on, moved to the bottom, with the bits above cleared.
   */
  method FitReadByte(b: bv8, used: nat, bits: nat) returns (x: bv8)
    requires used <= 7 && 1 <= bits <= 8 - used
    ensures forall r | 0 <= r < 8 :: ByteBits(x, 8)[r] == (r < bits && ByteBits(b, 8)[used + r])
  {
    FitReadRange(used, bits);
    var u, n := BitIndex(used), BitIndex(bits);
    x := (b >> u) & (0xFF >> (8 - n));
    FitReadBits(b, u, n, x);
    FitReadNumbered(b, used, bits, x);
  }

  /**
   * A read from bit `used` of `b0` on that runs `bits - (8 - used)` bits,
   * the remainder, into `b1`.
   */
  method SpanReadByte(b0: bv8, b1: bv8, used: nat, bits: nat) returns (x: bv8)
    requires 1 <= used <= 7 && 8 - used < bits <= 8
    ensures forall r | 0 <= r < 8 :: (ByteBits(x, 8)[r] == (r < bits &&
      if used + r < 8 then ByteBits(b0, 8)[used + r] else ByteBits(b1, 8)[used + r - 8]))
  {
    SpanRange(used, bits);
    var u, n := BitIndex(used), BitIndex(bits);
    var m := n - (8 - u);
    x := (b0 >> u) | ((b1 & (0xFF >> (8 - m))) << (n - m));
    SpanReadBits(b0, b1, u, n, m, x);
    SpanReadNumbered(b0, b1, used, bits, x);
  }

  // ---------------------------------------------------------------------
  // Where each bit of a result byte comes from, on bv8 offsets.
  // ---------------------------------------------------------------------

  /** The low `n` bits of `value`, the others clear. */
  ghost predicate AlignedLayout(value: bv8, n: bv8, x: bv8)
  {
    forall i: bv8 | i < 8 :: BitOf(x, i) == (i < n && BitOf(value, i))
  }

  /** Bits `lo .. hi` from the bottom of `value`, the others from `b`. */
  ghost predicate FitLayout(b: bv8, value: bv8, lo: bv8, hi: bv8, x: bv8)
  {
    forall i: bv8 | i < 8 :: (BitOf(x, i) ==
      if lo <= i < hi then BitOf(value, i - lo) else BitOf(b, i))
  }

  /** Bits from `lo` up from the bottom of `value`, the ones below from `b0`. */
  ghost predicate SpanLowLayout(b0: bv8, value: bv8, lo: bv8, x0: bv8)
  {
    forall i: bv8 | i < 8 :: (BitOf(x0, i) ==
      if lo <= i then BitOf(value, i - lo) else BitOf(b0, i))
  }

  /** Bits below `h` from `value`, from its bit `s` on; the others from `b1`. */
  ghost predicate SpanHighLayout(b1: bv8, value: bv8, h: bv8, s: bv8, x1: bv8)
  {
    forall i: bv8 | i < 8 :: (BitOf(x1, i) ==
      if i < h then i + s < 8 && BitOf(value, i + s) else BitOf(b1, i))
  }

  /** The `n` bits of `b` from bit `u` on, moved to the bottom. */
  ghost predicate FitReadLayout(b: bv8, u: bv8, n: bv8, x: bv8)
  {
    forall i: bv8 | i < 8 :: BitOf(x, i) == (i < n && i + u < 8 && BitOf(b, i + u))
  }

  /**
   * The `n` bits from bit `u` of `b0` on, the `s` lowest of them from
   * `b0` and the rest from the bottom of `b1`, moved to the bottom.
   */
  ghost predicate SpanReadLayout(b0: bv8, b1: bv8, u: bv8, s: bv8, n: bv8, x: bv8)
  {
    forall i: bv8 | i < 8 :: (BitOf(x, i) ==
      (i < n && if i < s then i + u < 8 && BitOf(b0, i + u) else BitOf(b1, i - s)))
  }

  // ---------------------------------------------------------------------
  // Kernels: the byte expressions have those layouts.
  // ---------------------------------------------------------------------

  lemma AlignedKernel(value: bv8, n: bv8, x: bv8, i: bv8)
    requires 1 <= n <= 8 && i < 8
    requires x == value & (0xFF >> (8 - n))
    ensures BitOf(x, i) == (i < n && BitOf(value, i))
  {
  }

  lemma AlignedBits(value: bv8, n: bv8, x: bv8)
    requires 1 <= n <= 8
    requires x == value & (0xFF >> (8 - n))
    ensures AlignedLayout(value, n, x)
  {
    forall i: bv8 | i < 8
      ensures BitOf(x, i) == (i < n && BitOf(value, i))
    {
      AlignedKernel(value, n, x, i);
    }
  }

  lemma FitKernel(b: bv8, value: bv8, u: bv8, n: bv8, x: bv8, i: bv8)
    requires 1 <= u <= 7 && 1 <= n <= 8 - u && i < 8
    requires x == (b & FitMask(u, n)) | ((value & (0xFF >> (8 - n))) << u)
    ensures BitOf(x, i) == if u <= i < u + n then BitOf(value, i - u) else BitOf(b, i)
  {
    assert BitOf(FitMask(u, n), i) == (i < u || i >= u + n);
  }

  lemma FitBits(b: bv8, value: bv8, u: bv8, n: bv8, x: bv8)
    requires 1 <= u <= 7 && 1 <= n <= 8 - u
    requires x == (b & FitMask(u, n)) | ((value & (0xFF >> (8 - n))) << u)
    ensures FitLayout(b, value, u, u + n, x)
  {
    forall i: bv8 | i < 8
      ensures BitOf(x, i) == if u <= i < u + n then BitOf(value, i - u) else BitOf(b, i)
    {
      FitKernel(b, value, u, n, x, i);
    }
  }

  lemma SpanLowKernel(b0: bv8, value: bv8, u: bv8, n: bv8, x0: bv8, i: bv8)
    requires 1 <= u <= 7 && 8 - u < n <= 8 && i < 8
    requires x0 == (b0 & (0xFF >> (8 - u))) | ((value & (0xFF >> (8 - n))) << u)
    ensures BitOf(x0, i) == if u <= i then BitOf(value, i - u) else BitOf(b0, i)
  {
  }

  lemma SpanLowBits(b0: bv8, value: bv8, u: bv8, n: bv8, x0: bv8)
    requires 1 <= u <= 7 && 8 - u < n <= 8
    requires x0 == (b0 & (0xFF >> (8 - u))) | ((value & (0xFF >> (8 - n))) << u)
    ensures SpanLowLayout(b0, value, u, x0)
  {
    forall i: bv8 | i < 8
      ensures BitOf(x0, i) == if u <= i then BitOf(value, i - u) else BitOf(b0, i)
    {
      SpanLowKernel(b0, value, u, n, x0, i);
    }
  }

  lemma SpanHighKernel(b1: bv8, value: bv8, u: bv8, n: bv8, x1: bv8, i: bv8)
    requires 1 <= u <= 7 && 8 - u < n <= 8 && i < 8
    requires x1 == (b1 & (0xFF << (n - (8 - u)))) | ((value & (0xFF >> (8 - n))) >> (8 - u))
    ensures BitOf(x1, i) ==
      if i < u + n - 8 then i + (8 - u) < 8 && BitOf(value, i + (8 - u)) else BitOf(b1, i)
  {
  }

  lemma SpanHighBits(b1: bv8, value: bv8, u: bv8, n: bv8, x1: bv8)
    requires 1 <= u <= 7 && 8 - u < n <= 8
    requires x1 == (b1 & (0xFF << (n - (8 - u)))) | ((value & (0xFF >> (8 - n))) >> (8 - u))
    ensures SpanHighLayout(b1, value, u + n - 8, 8 - u, x1)
  {
    forall i: bv8 | i < 8
      ensures BitOf(x1, i) ==
        if i < u + n - 8 then i + (8 - u) < 8 && BitOf(value, i + (8 - u)) else BitOf(b1, i)
    {
      SpanHighKernel(b1, value, u, n, x1, i);
    }
  }

  lemma FitReadKernel(b: bv8, u: bv8, n: bv8, x: bv8, i: bv8)
    requires u <= 7 && 1 <= n <= 8 - u && i < 8
    requires x == (b >> u) & (0xFF >> (8 - n))
    ensures BitOf(x, i) == (i < n && i + u < 8 && BitOf(b, i + u))
  {
  }

  lemma FitReadBits(b: bv8, u: bv8, n: bv8, x: bv8)
    requires u <= 7 && 1 <= n <= 8 - u
    requires x == (b >> u) & (0xFF >> (8 - n))
    ensures FitReadLayout(b, u, n, x)
  {
    forall i: bv8 | i < 8
      ensures BitOf(x, i) == (i < n && i + u < 8 && BitOf(b, i + u))
    {
      FitReadKernel(b, u, n, x, i);
    }
  }

  lemma SpanReadKernel(b0: bv8, b1: bv8, u: bv8, n: bv8, m: bv8, x: bv8, i: bv8)
    requires 1 <= u <= 7 && 8 - u < n <= 8 && m == n - (8 - u) && i < 8
    requires x == (b0 >> u) | ((b1 & (0xFF >> (8 - m))) << (n - m))
    ensures BitOf(x, i) ==
      (i < n && if i < 8 - u then i + u < 8 && BitOf(b0, i + u) else BitOf(b1, i - (8 - u)))
  {
  }

  lemma SpanReadBits(b0: bv8, b1: bv8, u: bv8, n: bv8, m: bv8, x: bv8)
    requires 1 <= u <= 7 && 8 - u < n <= 8 && m == n - (8 - u)
    requires x == (b0 >> u) | ((b1 & (0xFF >> (8 - m))) << (n - m))
    ensures SpanReadLayout(b0, b1, u, 8 - u, n, x)
  {
    forall i: bv8 | i < 8
      ensures BitOf(x, i) ==
        (i < n && if i < 8 - u then i + u < 8 && BitOf(b0, i + u) else BitOf(b1, i - (8 - u)))
    {
      SpanReadKernel(b0, b1, u, n, m, x, i);
    }
  }

  // ---------------------------------------------------------------------
  // The offsets each branch computes, as bit positions.
  // ---------------------------------------------------------------------

  lemma AlignedRange(bits: nat)
    requires 1 <= bits <= 8
    ensures 1 <= BitIndex(bits) <= 8
  {
    IndexBound(bits);
    IndexLess(0, bits);
  }

  lemma FitRange(used: nat, bits: nat)
    requires 1 <= used <= 7 && 1 <= bits <= 8 - used
    ensures 1 <= BitIndex(used) <= 7 && 1 <= BitIndex(bits) <= 8 - BitIndex(used)
    ensures BitIndex(used) + BitIndex(bits) == BitIndex(used + bits)
  {
    IndexAdd(used, bits);
    IndexBound(used + bits);
    IndexLess(0, used);
    IndexLess(0, bits);
    IndexLess(used, 8);
    IndexEight();
  }

  lemma SpanRange(used: nat, bits: nat)
    requires 1 <= used <= 7 && 8 - used < bits <= 8
    ensures 1 <= BitIndex(used) <= 7 && 8 - BitIndex(used) < BitIndex(bits) <= 8
    ensures BitIndex(used) + BitIndex(bits) - 8 == BitIndex(used + bits - 8)
    ensures 8 - BitIndex(used) == BitIndex(8 - used)
  {
    IndexLess(0, used);
    IndexLess(used, 8);
    IndexBound(bits);
    IndexEight();
    IndexSub(8, used);
    IndexLess(8 - used, bits);
    IndexAdd(used, bits - (8 - used));
    IndexSub(bits, 8 - used);
  }

  lemma FitReadRange(used: nat, bits: nat)
    requires used <= 7 && 1 <= bits <= 8 - used
    ensures BitIndex(used) <= 7 && 1 <= BitIndex(bits) <= 8 - BitIndex(used)
  {
    IndexAdd(used, bits);
    IndexBound(used + bits);
    IndexLess(0, bits);
    IndexLess(used, 8);
    IndexEight();
  }

  // ---------------------------------------------------------------------
  // From bit positions to numbered bits.
  // ---------------------------------------------------------------------

  // ---------------------------------------------------------------------
  // One bit of each layout, on bv8 positions.
  // ---------------------------------------------------------------------

  lemma AlignedAtIn(value: bv8, n: bv8, x: bv8, i: bv8)
    requires AlignedLayout(value, n, x) && i < 8 && i < n
    ensures BitOf(x, i) == BitOf(value, i)
  {
  }

  lemma AlignedAtAbove(value: bv8, n: bv8, x: bv8, i: bv8)
    requires AlignedLayout(value, n, x) && i < 8 && n <= i
    ensures !BitOf(x, i)
  {
  }

  lemma FitAtIn(b: bv8, value: bv8, lo: bv8, hi: bv8, x: bv8, i: bv8, j: bv8)
    requires FitLayout(b, value, lo, hi, x) && i < 8 && lo <= i && i < hi && j == i - lo
    ensures j < 8 && BitOf(x, i) == BitOf(value, j)
  {
  }

  lemma FitAtBelow(b: bv8, value: bv8, lo: bv8, hi: bv8, x: bv8, i: bv8)
    requires FitLayout(b, value, lo, hi, x) && i < 8 && i < lo
    ensures BitOf(x, i) == BitOf(b, i)
  {
  }

  lemma FitAtAbove(b: bv8, value: bv8, lo: bv8, hi: bv8, x: bv8, i: bv8)
    requires FitLayout(b, value, lo, hi, x) && i < 8 && hi <= i
    ensures BitOf(x, i) == BitOf(b, i)
  {
  }

  lemma SpanLowAtIn(b0: bv8, value: bv8, lo: bv8, x0: bv8, i: bv8, j: bv8)
    requires SpanLowLayout(b0, value, lo, x0) && i < 8 && lo <= i && j == i - lo
    ensures j < 8 && BitOf(x0, i) == BitOf(value, j)
  {
  }

  lemma SpanLowAtBelow(b0: bv8, value: bv8, lo: bv8, x0: bv8, i: bv8)
    requires SpanLowLayout(b0, value, lo, x0) && i < 8 && i < lo
    ensures BitOf(x0, i) == BitOf(b0, i)
  {
  }

  lemma SpanHighAtIn(b1: bv8, value: bv8, h: bv8, s: bv8, x1: bv8, i: bv8, j: bv8)
    requires SpanHighLayout(b1, value, h, s, x1) && i < 8 && i < h && j == i + s && j < 8
    ensures BitOf(x1, i) == BitOf(value, j)
  {
  }

  lemma SpanHighAtAbove(b1: bv8, value: bv8, h: bv8, s: bv8, x1: bv8, i: bv8)
    requires SpanHighLayout(b1, value, h, s, x1) && i < 8 && h <= i
    ensures BitOf(x1, i) == BitOf(b1, i)
  {
  }

  lemma FitReadAtIn(b: bv8, u: bv8, n: bv8, x: bv8, i: bv8, j: bv8)
    requires FitReadLayout(b, u, n, x) && i < 8 && i < n && j == i + u && j < 8
    ensures BitOf(x, i) == BitOf(b, j)
  {
  }

  lemma FitReadAtAbove(b: bv8, u: bv8, n: bv8, x: bv8, i: bv8)
    requires FitReadLayout(b, u, n, x) && i < 8 && n <= i
    ensures !BitOf(x, i)
  {
  }

  lemma SpanReadAtLow(b0: bv8, b1: bv8, u: bv8, s: bv8, n: bv8, x: bv8, i: bv8, j: bv8)
    requires SpanReadLayout(b0, b1, u, s, n, x) && i < 8 && i < n && i < s && j == i + u && j < 8
    ensures BitOf(x, i) == BitOf(b0, j)
  {
  }

  lemma SpanReadAtHigh(b0: bv8, b1: bv8, u: bv8, s: bv8, n: bv8, x: bv8, i: bv8, j: bv8)
    requires SpanReadLayout(b0, b1, u, s, n, x) && i < 8 && i < n && s <= i && j == i - s
    ensures j < 8 && BitOf(x, i) == BitOf(b1, j)
  {
  }

  lemma SpanReadAtAbove(b0: bv8, b1: bv8, u: bv8, s: bv8, n: bv8, x: bv8, i: bv8)
    requires SpanReadLayout(b0, b1, u, s, n, x) && i < 8 && n <= i
    ensures !BitOf(x, i)
  {
  }

  // ---------------------------------------------------------------------
  // Numbers as bit positions, one fact at a time.
  // ---------------------------------------------------------------------

  lemma IndexBelow(r: nat, k: nat)
    requires r < 8 && r < k <= 16
    ensures BitIndex(r) < 8 && BitIndex(r) < BitIndex(k)
  {
    IndexBound(r);
    IndexLess(r, k);
  }

  lemma IndexAtLeast(k: nat, r: nat)
    requires k <= r < 8
    ensures BitIndex(r) < 8 && BitIndex(k) <= BitIndex(r)
  {
    IndexBound(r);
    IndexLe(k, r);
  }

  lemma IndexDiff(r: nat, k: nat)
    requires k <= r < 8
    ensures BitIndex(r - k) == BitIndex(r) - BitIndex(k)
  {
    IndexSub(r, k);
  }

  lemma IndexSum(r: nat, k: nat)
    requires r + k < 8
    ensures BitIndex(r + k) < 8 && BitIndex(r + k) == BitIndex(r) + BitIndex(k)
  {
    IndexBound(r + k);
    IndexAdd(r, k);
  }

  // ---------------------------------------------------------------------
  // From bit positions to numbered bits.
  // ---------------------------------------------------------------------

  /** Bit `r` of `x` and bit `s` of `y` agree when their bit positions do. */
  lemma Transfer(x: bv8, r: nat, y: bv8, s: nat, n: nat)
    requires r < 8 && s < n <= 8
    requires BitIndex(r) < 8 && BitIndex(s) < 8 && BitOf(x, BitIndex(r)) == BitOf(y, BitIndex(s))
    ensures ByteBits(x, 8)[r] == ByteBits(y, n)[s]
  {
    BitOfByte(x, 8, r);
    BitOfByte(y, n, s);
  }

  /** Bit `r` of `x` is clear when its bit position is. */
  lemma TransferClear(x: bv8, r: nat)
    requires r < 8
    requires BitIndex(r) < 8 && !BitOf(x, BitIndex(r))
    ensures !ByteBits(x, 8)[r]
  {
    BitOfByte(x, 8, r);
  }

  lemma AlignedIn(value: bv8, bits: nat, x: bv8, r: nat)
    requires r < bits <= 8
    requires AlignedLayout(value, BitIndex(bits), x)
    ensures ByteBits(x, 8)[r] == ByteBits(value, bits)[r]
  {
    IndexBelow(r, bits);
    AlignedAtIn(value, BitIndex(bits), x, BitIndex(r));
    Transfer(x, r, value, r, bits);
  }

  lemma AlignedAbove(value: bv8, bits: nat, x: bv8, r: nat)
    requires bits <= r < 8
    requires AlignedLayout(value, BitIndex(bits), x)
    ensures !ByteBits(x, 8)[r]
  {
    IndexAtLeast(bits, r);
    AlignedAtAbove(value, BitIndex(bits), x, BitIndex(r));
    TransferClear(x, r);
  }

  lemma AlignedNumbered(value: bv8, bits: nat, x: bv8)
    requires 1 <= bits <= 8
    requires AlignedLayout(value, BitIndex(bits), x)
    ensures ByteBits(x, 8) == ByteBits(value, bits) + Zeros(8 - bits)
  {
    forall r | 0 <= r < 8
      ensures ByteBits(x, 8)[r] == (ByteBits(value, bits) + Zeros(8 - bits))[r]
    {
      if r < bits {
        AlignedIn(value, bits, x, r);
      } else {
        AlignedAbove(value, bits, x, r);
      }
    }
  }

  lemma FitInBit(b: bv8, value: bv8, used: nat, bits: nat, x: bv8, r: nat)
    requires 1 <= used <= r < used + bits <= 8
    requires FitLayout(b, value, BitIndex(used), BitIndex(used + bits), x)
    ensures BitIndex(r) < 8 && BitIndex(r - used) < 8 && BitOf(x, BitIndex(r)) == BitOf(value, BitIndex(r - used))
  {
    IndexAtLeast(used, r);
    IndexBelow(r, used + bits);
    IndexDiff(r, used);
    FitAtIn(b, value, BitIndex(used), BitIndex(used + bits), x, BitIndex(r), BitIndex(r - used));
  }

  lemma FitIn(b: bv8, value: bv8, used: nat, bits: nat, x: bv8, r: nat)
    requires 1 <= used <= r < used + bits <= 8
    requires FitLayout(b, value, BitIndex(used), BitIndex(used + bits), x)
    ensures ByteBits(x, 8)[r] == ByteBits(value, bits)[r - used]
  {
    FitInBit(b, value, used, bits, x, r);
    Transfer(x, r, value, r - used, bits);
  }

  lemma FitBelow(b: bv8, value: bv8, used: nat, bits: nat, x: bv8, r: nat)
    requires r < used <= 7 && bits <= 8 - used
    requires FitLayout(b, value, BitIndex(used), BitIndex(used + bits), x)
    ensures ByteBits(x, 8)[r] == ByteBits(b, 8)[r]
  {
    IndexBelow(r, used);
    FitAtBelow(b, value, BitIndex(used), BitIndex(used + bits), x, BitIndex(r));
    Transfer(x, r, b, r, 8);
  }

  lemma FitAbove(b: bv8, value: bv8, used: nat, bits: nat, x: bv8, r: nat)
    requires used + bits <= r < 8
    requires FitLayout(b, value, BitIndex(used), BitIndex(used + bits), x)
    ensures ByteBits(x, 8)[r] == ByteBits(b, 8)[r]
  {
    IndexAtLeast(used + bits, r);
    FitAtAbove(b, value, BitIndex(used), BitIndex(used + bits), x, BitIndex(r));
    Transfer(x, r, b, r, 8);
  }

  lemma FitNumbered(b: bv8, value: bv8, used: nat, bits: nat, x: bv8)
    requires 1 <= used <= 7 && 1 <= bits <= 8 - used
    requires FitLayout(b, value, BitIndex(used), BitIndex(used + bits), x)
    ensures forall r | 0 <= r < 8 :: (ByteBits(x, 8)[r] ==
      if used <= r < used + bits then ByteBits(value, bits)[r - used] else ByteBits(b, 8)[r])
  {
    forall r | 0 <= r < 8
      ensures ByteBits(x, 8)[r] ==
        if used <= r < used + bits then ByteBits(value, bits)[r - used] else ByteBits(b, 8)[r]
    {
      if r < used {
        FitBelow(b, value, used, bits, x, r);
      } else if r < used + bits {
        FitIn(b, value, used, bits, x, r);
      } else {
        FitAbove(b, value, used, bits, x, r);
      }
    }
  }

  lemma SpanLowIn(b0: bv8, value: bv8, used: nat, bits: nat, x0: bv8, r: nat)
    requires 1 <= used <= r < 8 && 8 - used < bits <= 8
    requires SpanLowLayout(b0, value, BitIndex(used), x0)
    ensures ByteBits(x0, 8)[r] == ByteBits(value, bits)[r - used]
  {
    IndexAtLeast(used, r);
    IndexDiff(r, used);
    SpanLowAtIn(b0, value, BitIndex(used), x0, BitIndex(r), BitIndex(r - used));
    Transfer(x0, r, value, r - used, bits);
  }

  lemma SpanLowBelow(b0: bv8, value: bv8, used: nat, x0: bv8, r: nat)
    requires r < used <= 7
    requires SpanLowLayout(b0, value, BitIndex(used), x0)
    ensures ByteBits(x0, 8)[r] == ByteBits(b0, 8)[r]
  {
    IndexBelow(r, used);
    SpanLowAtBelow(b0, value, BitIndex(used), x0, BitIndex(r));
    Transfer(x0, r, b0, r, 8);
  }

  lemma SpanLowNumbered(b0: bv8, value: bv8, used: nat, bits: nat, x0: bv8)
    requires 1 <= used <= 7 && 8 - used < bits <= 8
    requires SpanLowLayout(b0, value, BitIndex(used), x0)
    ensures forall r | 0 <= r < 8 :: (ByteBits(x0, 8)[r] ==
      if used <= r then ByteBits(value, bits)[r - used] else ByteBits(b0, 8)[r])
  {
    forall r | 0 <= r < 8
      ensures ByteBits(x0, 8)[r] ==
        if used <= r then ByteBits(value, bits)[r - used] else ByteBits(b0, 8)[r]
    {
      if used <= r {
        SpanLowIn(b0, value, used, bits, x0, r);
      } else {
        SpanLowBelow(b0, value, used, x0, r);
      }
    }
  }

  lemma SpanHighInBit(b1: bv8, value: bv8, used: nat, bits: nat, x1: bv8, r: nat)
    requires 1 <= used <= 7 && 8 - used < bits <= 8 && 8 + r < used + bits
    requires SpanHighLayout(b1, value, BitIndex(used + bits - 8), BitIndex(8 - used), x1)
    ensures BitIndex(r) < 8 && BitIndex(r + (8 - used)) < 8 && BitOf(x1, BitIndex(r)) == BitOf(value, BitIndex(r + (8 - used)))
  {
    IndexBelow(r, used + bits - 8);
    IndexSum(r, 8 - used);
    SpanHighAtIn(b1, value, BitIndex(used + bits - 8), BitIndex(8 - used), x1, BitIndex(r), BitIndex(r + (8 - used)));
  }

  lemma SpanHighIn(b1: bv8, value: bv8, used: nat, bits: nat, x1: bv8, r: nat)
    requires 1 <= used <= 7 && 8 - used < bits <= 8 && 8 + r < used + bits
    requires SpanHighLayout(b1, value, BitIndex(used + bits - 8), BitIndex(8 - used), x1)
    ensures ByteBits(x1, 8)[r] == ByteBits(value, bits)[8 + r - used]
  {
    SpanHighInBit(b1, value, used, bits, x1, r);
    Transfer(x1, r, value, r + (8 - used), bits);
  }

  lemma SpanHighAbove(b1: bv8, value: bv8, used: nat, bits: nat, x1: bv8, r: nat)
    requires 1 <= used <= 7 && 8 - used < bits <= 8 && used + bits <= 8 + r < 16
    requires SpanHighLayout(b1, value, BitIndex(used + bits - 8), BitIndex(8 - used), x1)
    ensures ByteBits(x1, 8)[r] == ByteBits(b1, 8)[r]
  {
    IndexAtLeast(used + bits - 8, r);
    SpanHighAtAbove(b1, value, BitIndex(used + bits - 8), BitIndex(8 - used), x1, BitIndex(r));
    Transfer(x1, r, b1, r, 8);
  }

  lemma SpanHighNumbered(b1: bv8, value: bv8, used: nat, bits: nat, x1: bv8)
    requires 1 <= used <= 7 && 8 - used < bits <= 8
    requires SpanHighLayout(b1, value, BitIndex(used + bits - 8), BitIndex(8 - used), x1)
    ensures forall r | 0 <= r < 8 :: (ByteBits(x1, 8)[r] ==
      if 8 + r < used + bits then ByteBits(value, bits)[8 + r - used] else ByteBits(b1, 8)[r])
  {
    forall r | 0 <= r < 8
      ensures ByteBits(x1, 8)[r] ==
        if 8 + r < used + bits then ByteBits(value, bits)[8 + r - used] else ByteBits(b1, 8)[r]
    {
      if 8 + r < used + bits {
        SpanHighIn(b1, value, used, bits, x1, r);
      } else {
        SpanHighAbove(b1, value, used, bits, x1, r);
      }
    }
  }

  lemma FitReadInBit(b: bv8, used: nat, bits: nat, x: bv8, r: nat)
    requires used <= 7 && r < bits <= 8 - used
    requires FitReadLayout(b, BitIndex(used), BitIndex(bits), x)
    ensures BitIndex(r) < 8 && BitIndex(r + used) < 8 && BitOf(x, BitIndex(r)) == BitOf(b, BitIndex(r + used))
  {
    IndexBelow(r, bits);
    IndexSum(r, used);
    FitReadAtIn(b, BitIndex(used), BitIndex(bits), x, BitIndex(r), BitIndex(r + used));
  }

  lemma FitReadIn(b: bv8, used: nat, bits: nat, x: bv8, r: nat)
    requires used <= 7 && r < bits <= 8 - used
    requires FitReadLayout(b, BitIndex(used), BitIndex(bits), x)
    ensures ByteBits(x, 8)[r] == ByteBits(b, 8)[used + r]
  {
    FitReadInBit(b, used, bits, x, r);
    Transfer(x, r, b, r + used, 8);
  }

  lemma FitReadAbove(b: bv8, used: nat, bits: nat, x: bv8, r: nat)
    requires used <= 7 && bits <= r < 8
    requires FitReadLayout(b, BitIndex(used), BitIndex(bits), x)
    ensures !ByteBits(x, 8)[r]
  {
    IndexAtLeast(bits, r);
    FitReadAtAbove(b, BitIndex(used), BitIndex(bits), x, BitIndex(r));
    TransferClear(x, r);
  }

  lemma FitReadNumbered(b: bv8, used: nat, bits: nat, x: bv8)
    requires used <= 7 && 1 <= bits <= 8 - used
    requires FitReadLayout(b, BitIndex(used), BitIndex(bits), x)
    ensures forall r | 0 <= r < 8 :: ByteBits(x, 8)[r] == (r < bits && ByteBits(b, 8)[used + r])
  {
    forall r | 0 <= r < 8
      ensures ByteBits(x, 8)[r] == (r < bits && ByteBits(b, 8)[used + r])
    {
      if r < bits {
        FitReadIn(b, used, bits, x, r);
      } else {
        FitReadAbove(b, used, bits, x, r);
      }
    }
  }

  lemma SpanReadLowBit(b0: bv8, b1: bv8, used: nat, bits: nat, x: bv8, r: nat)
    requires 1 <= used <= 7 && r < bits <= 8 && used + r < 8
    requires SpanReadLayout(b0, b1, BitIndex(used), BitIndex(8 - used), BitIndex(bits), x)
    ensures BitIndex(r) < 8 && BitIndex(r + used) < 8 && BitOf(x, BitIndex(r)) == BitOf(b0, BitIndex(r + used))
  {
    IndexBelow(r, bits);
    IndexBelow(r, 8 - used);
    IndexSum(r, used);
    SpanReadAtLow(b0, b1, BitIndex(used), BitIndex(8 - used), BitIndex(bits), x, BitIndex(r), BitIndex(r + used));
  }

  lemma SpanReadLow(b0: bv8, b1: bv8, used: nat, bits: nat, x: bv8, r: nat)
    requires 1 <= used <= 7 && r < bits <= 8 && used + r < 8
    requires SpanReadLayout(b0, b1, BitIndex(used), BitIndex(8 - used), BitIndex(bits), x)
    ensures ByteBits(x, 8)[r] == ByteBits(b0, 8)[used + r]
  {
    SpanReadLowBit(b0, b1, used, bits, x, r);
    Transfer(x, r, b0, r + used, 8);
  }

  lemma SpanReadHigh(b0: bv8, b1: bv8, used: nat, bits: nat, x: bv8, r: nat)
    requires 1 <= used <= 7 && r < bits <= 8 && 8 <= used + r
    requires SpanReadLayout(b0, b1, BitIndex(used), BitIndex(8 - used), BitIndex(bits), x)
    ensures ByteBits(x, 8)[r] == ByteBits(b1, 8)[used + r - 8]
  {
    var k := used + r - 8;
    HighIndex(used, bits, r);
    SpanReadAtHigh(b0, b1, BitIndex(used), BitIndex(8 - used), BitIndex(bits), x, BitIndex(r), BitIndex(k));
    Transfer(x, r, b1, k, 8);
  }

  /** Bit `r` of a read lies in the second byte, at its bit `used + r - 8`. */
  lemma HighIndex(used: nat, bits: nat, r: nat)
    requires 1 <= used <= 7 && r < bits <= 8 && 8 <= used + r
    ensures BitIndex(r) < 8 && BitIndex(r) < BitIndex(bits) && BitIndex(8 - used) <= BitIndex(r)
    ensures BitIndex(used + r - 8) == BitIndex(r) - BitIndex(8 - used)
  {
    IndexBelow(r, bits);
    IndexAtLeast(8 - used, r);
    IndexDiff(r, 8 - used);
  }

  lemma SpanReadAbove(b0: bv8, b1: bv8, used: nat, bits: nat, x: bv8, r: nat)
    requires 1 <= used <= 7 && bits <= r < 8
    requires SpanReadLayout(b0, b1, BitIndex(used), BitIndex(8 - used), BitIndex(bits), x)
    ensures !ByteBits(x, 8)[r]
  {
    IndexAtLeast(bits, r);
    SpanReadAtAbove(b0, b1, BitIndex(used), BitIndex(8 - used), BitIndex(bits), x, BitIndex(r));
    TransferClear(x, r);
  }

  lemma SpanReadNumbered(b0: bv8, b1: bv8, used: nat, bits: nat, x: bv8)
    requires 1 <= used <= 7 && bits <= 8
    requires SpanReadLayout(b0, b1, BitIndex(used), BitIndex(8 - used), BitIndex(bits), x)
    ensures forall r | 0 <= r < 8 :: (ByteBits(x, 8)[r] == (r < bits &&
      if used + r < 8 then ByteBits(b0, 8)[used + r] else ByteBits(b1, 8)[used + r - 8]))
  {
    forall r | 0 <= r < 8
      ensures ByteBits(x, 8)[r] == (r < bits &&
        if used + r < 8 then ByteBits(b0, 8)[used + r] else ByteBits(b1, 8)[used + r - 8])
    {
      if bits <= r {
        SpanReadAbove(b0, b1, used, bits, x, r);
      } else if used + r < 8 {
        SpanReadLow(b0, b1, used, bits, x, r);
      } else {
        SpanReadHigh(b0, b1, used, bits, x, r);
      }
    }
  }
}
