/**
 * Fixed-width integers as the buffer sees them.
 *
 * A signed field is stored by reinterpreting its two's complement bit
 * pattern as the unsigned type of the same width (`value as u16` for an
 * `i16`), and read back by the opposite reinterpretation. No sign is ever
 * extended.
 */
module Ints {
  import opened Bits

  /** The unsigned types wider than a byte (a `u8` is a `bv8`). */
  type U16 = x: nat | x < Pow2(16)
  type U32 = x: nat | x < Pow2(32)
  type U64 = x: nat | x < Pow2(64)

  /** The signed types. */
  type I8 = x: int | InSigned(x, 8)
  type I16 = x: int | InSigned(x, 16)
  type I32 = x: int | InSigned(x, 32)
  type I64 = x: int | InSigned(x, 64)

  /** The widths of the integer types as powers of two. */
  lemma Widths()
    ensures Pow2(7) == 0x80 && Pow2(8) == 0x100
    ensures Pow2(15) == 0x8000 && Pow2(16) == 0x1_0000
    ensures Pow2(31) == 0x8000_0000 && Pow2(32) == 0x1_0000_0000
    ensures Pow2(63) == 0x8000_0000_0000_0000 && Pow2(64) == 0x1_0000_0000_0000_0000
  {
    assert Pow2(4) == 16;
    Pow2Product(7, 8, 0x80, 0x100);
    Pow2Product(8, 8, 0x100, 0x100);
    Pow2Product(15, 16, 0x8000, 0x1_0000);
    Pow2Product(16, 16, 0x1_0000, 0x1_0000);
    Pow2Product(31, 32, 0x8000_0000, 0x1_0000_0000);
    Pow2Product(32, 32, 0x1_0000_0000, 0x1_0000_0000);
  }

  /** Whether `v` is a value of the signed type of width `w`. */
  predicate InSigned(v: int, w: nat)
    requires 1 <= w
  {
    -(Pow2(w - 1) as int) <= v < Pow2(w - 1)
  }

  /** The unsigned reading of the `w`-bit two's complement pattern of `v`. */
  function ToUnsigned(v: int, w: nat): (u: nat)
    requires 1 <= w && InSigned(v, w)
    ensures u < Pow2(w)
    ensures v < 0 ==> u == v + Pow2(w)
    ensures 0 <= v ==> u == v
  {
    if v < 0 then v + Pow2(w) else v
  }

  /** The pattern is the value modulo `2^w`. */
  lemma PatternIsMod(v: int, w: nat)
    requires 1 <= w && InSigned(v, w)
    ensures ToUnsigned(v, w) == v % Pow2(w)
  {
    var m := Pow2(w);
    if v < 0 {
      DivModUnique(v, m, -1, v + m);
    } else {
      DivModUnique(v, m, 0, v);
    }
  }

  /** The signed reading of the `w`-bit pattern `u`. */
  function FromUnsigned(u: nat, w: nat): (v: int)
    requires 1 <= w && u < Pow2(w)
    ensures InSigned(v, w)
    ensures u >= Pow2(w - 1) ==> v == u - Pow2(w)
    ensures u < Pow2(w - 1) ==> v == u
  {
    if u >= Pow2(w - 1) then u - Pow2(w) else u
  }

  /** The high part of a field: `v >> a` of an `a + b`-bit value has `b` bits. */
  lemma HighPart(v: nat, a: nat, b: nat)
    requires v < Pow2(a + b)
    ensures Shr(v, a) < Pow2(b)
  {
    var d, e := Pow2(a), Pow2(b);
    Pow2Add(a, b);
    BelowQuotient(v, d, e);
  }

  lemma BelowQuotient(v: nat, d: nat, e: nat)
    requires d >= 1 && v < d * e
    ensures v / d < e
  {
    var q := v / d;
    assert d * q <= v;
    if q >= e {
      MulMonotonic(d, e, q);
    }
  }

  lemma MulMonotonic(d: nat, e: nat, q: nat)
    requires e <= q
    ensures d * e <= d * q
  {
  }

  /** Reinterpreting a signed value and back gives the value. */
  lemma SignedRoundTrip(v: int, w: nat)
    requires 1 <= w && InSigned(v, w)
    ensures FromUnsigned(ToUnsigned(v, w), w) == v
  {
    assert Pow2(w) == 2 * Pow2(w - 1);
  }

  /** Reinterpreting an unsigned pattern and back gives the pattern. */
  lemma UnsignedRoundTrip(u: nat, w: nat)
    requires 1 <= w && u < Pow2(w)
    ensures ToUnsigned(FromUnsigned(u, w), w) == u
  {
  }

  /** Distinct values have distinct patterns. */
  lemma PatternInjective(v: int, x: int, w: nat)
    requires 1 <= w && InSigned(v, w) && InSigned(x, w)
    requires ToUnsigned(v, w) == ToUnsigned(x, w)
    ensures v == x
  {
    SignedRoundTrip(v, w);
    SignedRoundTrip(x, w);
  }

  /** A pattern below the sign bit reads back as itself. */
  lemma SmallPattern(u: nat, w: nat)
    requires 1 <= w && u < Pow2(w - 1)
    ensures FromUnsigned(u, w) == u
  {
  }

  /**
   * A signed value whose pattern is cut to its low `bits` bits and read
   * back is the value: always for the whole width, and for a part when the
   * value is non-negative and fits in it.
   */
  lemma SignedPartRoundTrip(v: int, x: int, w: nat, bits: nat)
    requires 1 <= bits <= w && InSigned(v, w) && InSigned(x, w)
    requires bits == w || 0 <= v < Pow2(bits)
    requires ToUnsigned(x, w) == ToUnsigned(v, w) % Pow2(bits)
    ensures x == v
  {
    if bits == w {
      assert ToUnsigned(v, w) % Pow2(w) == ToUnsigned(v, w) by {
        DivModUnique(ToUnsigned(v, w), Pow2(w), 0, ToUnsigned(v, w));
      }
    } else {
      assert v % Pow2(bits) == v by {
        DivModUnique(v, Pow2(bits), 0, v);
      }
    }
    PatternInjective(v, x, w);
  }

  /**
   * A part of a signed field is not sign-extended: a pattern of fewer bits
   * than the width reads back as a non-negative value, so a negative value
   * written as a part does not read back as itself.
   */
  lemma PartIsNonNegative(u: nat, x: int, w: nat, bits: nat)
    requires 1 <= bits < w && u < Pow2(bits) && InSigned(x, w) && ToUnsigned(x, w) == u
    ensures 0 <= x
  {
    assert u < Pow2(w - 1) by {
      Pow2Monotonic(bits, w - 1);
    }
    assert FromUnsigned(u, w) == u by {
      SmallPattern(u, w);
    }
    SignedRoundTrip(x, w);
  }

  /** `v as u32` of a `u64`: its low 32 bits. */
  function Low32(v: U64): U32
  {
    v % Pow2(32)
  }

  /** `(v >> 32) as u32` of a `u64`: its high 32 bits. */
  function High32(v: U64): U32
  {
    Widths();
    HighPart(v, 32, 32);
    Shr(v, 32)
  }

  /** `lo | (hi << 32)` of two `u32` halves, as a `u64`. */
  function Join64(lo: U32, hi: U32): (v: U64)
    ensures v == lo + Pow2(32) * hi
    ensures Low32(v) == lo && High32(v) == hi
  {
    var m := Pow2(32);
    Widths();
    MulMonotonic(m, hi, m - 1);
    var v := lo + m * hi;
    DivModUnique(v, m, hi, lo);
    v
  }

  /**
   * Splitting a `u64` into its halves and joining them again gives it
   * back: no bit is lost between `WriteU64Part` and `ReadU64Part`.
   */
  lemma SplitJoin64(v: U64)
    ensures v == Low32(v) + Pow2(32) * High32(v)
    ensures Join64(Low32(v), High32(v)) == v
  {
    var m := Pow2(32);
    Widths();
    assert v == (v / m) * m + v % m;
  }
}
