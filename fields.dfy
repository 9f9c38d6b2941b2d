/**
 * Fields in the bit stream.
 *
 * Every write of the buffer puts a run of bits at the cursor; `Put` is
 * the stream afterwards. Wider fields are written as a sequence of byte
 * writes, least significant byte first, and read the same way: the
 * lemmas here show that the sequence amounts to one write, or one read,
 * of the whole field.
 */
module Fields {
  import opened Bits
  import opened BitStream

  /** The number of bits an aligned write of an `n`-bit field clears beyond it. */
  function PadLength(n: nat): nat
  {
    (8 - n % 8) % 8
  }

  /**
   * The stream `s` after writing the run `t` at bit `at`: `t` replaces
   * the bits there and, when `at` is a byte boundary, the rest of the
   * last byte the run touches is cleared.
   */
  function Put(s: seq<bool>, at: nat, t: seq<bool>): (r: seq<bool>)
    requires |s| % 8 == 0 && at + |t| <= |s|
    ensures |r| == |s|
  {
    PadFits(at, |t|, |s| / 8);
    Splice(s, at, t + Pad(at % 8 == 0, |t|))
  }

  // ---------------------------------------------------------------------
  // What a write changes.
  // ---------------------------------------------------------------------

  /** The run is there after the write. */
  lemma PutRead(s: seq<bool>, at: nat, t: seq<bool>)
    requires |s| % 8 == 0 && at + |t| <= |s|
    ensures Put(s, at, t)[at..at + |t|] == t
  {
    PadFits(at, |t|, |s| / 8);
    SpliceRead(s, at, t + Pad(at % 8 == 0, |t|), |t|);
  }

  /** The bits before the cursor are kept. */
  lemma PutBelow(s: seq<bool>, at: nat, t: seq<bool>)
    requires |s| % 8 == 0 && at + |t| <= |s|
    ensures Put(s, at, t)[..at] == s[..at]
  {
  }

  /** An unaligned write keeps every bit after the run. */
  lemma PutAboveUnaligned(s: seq<bool>, at: nat, t: seq<bool>)
    requires |s| % 8 == 0 && at + |t| <= |s| && at % 8 != 0
    ensures Put(s, at, t)[at + |t|..] == s[at + |t|..]
  {
  }

  /**
   * An aligned write clears the rest of the last byte it touches and
   * keeps every bit after that byte.
   */
  lemma PutAboveAligned(s: seq<bool>, at: nat, t: seq<bool>)
    requires |s| % 8 == 0 && at + |t| <= |s| && at % 8 == 0
    ensures at + |t| + PadLength(|t|) <= |s|
    ensures Put(s, at, t)[at + |t|..] == Zeros(PadLength(|t|)) + s[at + |t| + PadLength(|t|)..]
  {
    PadFits(at, |t|, |s| / 8);
    var k := PadLength(|t|);
    var r := Put(s, at, t);
    assert r == s[..at] + (t + Zeros(k)) + s[at + |t| + k..];
    assert r[at + |t|..] == Zeros(k) + s[at + |t| + k..];
  }

  /** `s` after the run `a` is written at `at` and the run `b` just after it. */
  function PutTwo(s: seq<bool>, at: nat, a: seq<bool>, b: seq<bool>): (r: seq<bool>)
    requires |s| % 8 == 0 && at + |a| + |b| <= |s|
    ensures |r| == |s|
  {
    Put(Put(s, at, a), at + |a|, b)
  }

  /**
   * Two runs written one just after the other are both there afterwards:
   * the second write does not disturb the first, whether or not it starts
   * on a byte boundary.
   */
  lemma PutAdjacent(s: seq<bool>, at: nat, a: seq<bool>, b: seq<bool>)
    requires |s| % 8 == 0 && at + |a| + |b| <= |s|
    ensures PutTwo(s, at, a, b)[at..at + |a| + |b|] == a + b
  {
    var s1 := Put(s, at, a);
    var s2 := Put(s1, at + |a|, b);
    var k := at + |a|;
    assert s1[at..k] == a by { PutRead(s, at, a); }
    assert s2[..k] == s1[..k] by { PutBelow(s1, k, b); }
    assert s2[k..k + |b|] == b by { PutRead(s1, k, b); }
    assert s2[at..k] == s2[..k][at..] && s1[at..k] == s1[..k][at..];
    assert s2[at..k + |b|] == s2[at..k] + s2[k..k + |b|];
  }

  /** Two writes one after the other, the second where the first ended, are `PutTwo`. */
  lemma PutTwoSteps(s0: seq<bool>, s1: seq<bool>, s2: seq<bool>, p0: nat, p1: nat, a: seq<bool>, b: seq<bool>)
    requires |s0| % 8 == 0 && p0 + |a| + |b| <= |s0|
    requires s1 == Put(s0, p0, a) && p1 == p0 + |a| && s2 == Put(s1, p1, b)
    ensures s2 == PutTwo(s0, p0, a, b)
  {
  }

  /** The first of two adjacent runs is still there after the second is written. */
  lemma FirstOfTwo(s: seq<bool>, at: nat, a: seq<bool>, b: seq<bool>)
    requires |s| % 8 == 0 && at + |a| + |b| <= |s|
    ensures PutTwo(s, at, a, b)[at..at + |a|] == a
  {
    PutAdjacent(s, at, a, b);
    SliceParts(PutTwo(s, at, a, b), at, a, b);
  }

  /**
   * Two fields of `n` and `m` bits written one after the other read back
   * as their values modulo `2^n` and `2^m`.
   */
  lemma AdjacentFields(s: seq<bool>, at: nat, x: nat, n: nat, y: nat, m: nat)
    requires |s| % 8 == 0 && at + n + m <= |s|
    ensures Value(PutTwo(s, at, LowBits(x, n), LowBits(y, m))[at..at + n]) == x % Pow2(n)
    ensures Value(PutTwo(s, at, LowBits(x, n), LowBits(y, m))[at + n..at + n + m]) == y % Pow2(m)
  {
    var a, b := LowBits(x, n), LowBits(y, m);
    var t := PutTwo(s, at, LowBits(x, n), LowBits(y, m));
    assert t[at..at + n + m] == a + b by { PutAdjacent(s, at, a, b); }
    TwoFields(t, at, x, n, y, m);
  }

  /** The two fields of a run holding an `n`-bit field and then an `m`-bit one. */
  lemma TwoFields(t: seq<bool>, at: nat, x: nat, n: nat, y: nat, m: nat)
    requires at + n + m <= |t| && t[at..at + n + m] == LowBits(x, n) + LowBits(y, m)
    ensures Value(t[at..at + n]) == x % Pow2(n) && Value(t[at + n..at + n + m]) == y % Pow2(m)
  {
    var a, b := LowBits(x, n), LowBits(y, m);
    assert t[at..at + n] == a && t[at + n..at + n + m] == b by {
      SliceParts(t, at, a, b);
    }
    ValueOfLowBits(x, n);
    ValueOfLowBits(y, m);
  }

  /**
   * Writing a run of whole bytes and then the run `u` just after it is
   * writing both runs at once.
   */
  lemma PutThen(s: seq<bool>, at: nat, t: seq<bool>, u: seq<bool>)
    requires |s| % 8 == 0 && at + |t| + |u| <= |s| && |t| % 8 == 0
    ensures Put(Put(s, at, t), at + |t|, u) == Put(s, at, t + u)
  {
    var pad := Pad(at % 8 == 0, |t| + |u|);
    PadAfterBytes(at, |t|, |u|);
    var s1 := Put(s, at, t);
    PutAfter(s, at, t, []);
    assert t + [] == t;
    PutAfter(s1, at + |t|, u, pad);
    SpliceThen(s, at, t, u + pad);
    PutAfter(s, at, t + u, pad);
    assert t + (u + pad) == (t + u) + pad;
  }

  /** `Put` with its padding spelled out. */
  lemma PutAfter(s: seq<bool>, at: nat, u: seq<bool>, pad: seq<bool>)
    requires |s| % 8 == 0 && at + |u| <= |s| && Pad(at % 8 == 0, |u|) == pad
    ensures at + |u| + |pad| <= |s|
    ensures Put(s, at, u) == Splice(s, at, u + pad)
  {
    PadFits(at, |u|, |s| / 8);
  }

  /** After whole bytes, the alignment and the padding of a run are those of the whole. */
  lemma PadAfterBytes(at: nat, t: nat, u: nat)
    requires t % 8 == 0
    ensures Pad(at % 8 == 0, t) == []
    ensures Pad((at + t) % 8 == 0, u) == Pad(at % 8 == 0, t + u)
  {
    var q := t / 8;
    DivModUnique(at + t, 8, at / 8 + q, at % 8);
    DivModUnique(t + u, 8, q + u / 8, u % 8);
  }

  /** Writing nothing changes nothing. */
  lemma PutNothing(s: seq<bool>, at: nat)
    requires |s| % 8 == 0 && at <= |s|
    ensures Put(s, at, []) == s
  {
    assert Pad(at % 8 == 0, 0) == [];
    assert s[..at] + [] + s[at..] == s;
  }

  // ---------------------------------------------------------------------
  // Multi-byte fields.
  // ---------------------------------------------------------------------

  /** The first byte of a field holds its low bits. */
  lemma FirstByte(v: nat, m: nat)
    requires m <= 8
    ensures ByteBits(ByteOf(v, 0), m) == LowBits(v, m)
  {
    ByteOfBits(v, 0, m);
  }

  /** Byte `k` of a field continues its low `8k` bits. */
  lemma NextByte(v: nat, k: nat, m: nat)
    requires m <= 8
    ensures LowBits(v, 8 * k) + ByteBits(ByteOf(v, k), m) == LowBits(v, 8 * k + m)
  {
    ByteOfBits(v, k, m);
    LowBitsSplit(v, 8 * k, m);
  }

  /**
   * Writing the low `8k` bits of a field and then `m` bits of its byte
   * `k` writes its low `8k + m` bits.
   */
  lemma PutNextByte(s: seq<bool>, at: nat, v: nat, k: nat, m: nat)
    requires |s| % 8 == 0 && at + 8 * k + m <= |s| && m <= 8
    ensures Put(Put(s, at, LowBits(v, 8 * k)), at + 8 * k, ByteBits(ByteOf(v, k), m)) ==
      Put(s, at, LowBits(v, 8 * k + m))
  {
    PutThen(s, at, LowBits(v, 8 * k), ByteBits(ByteOf(v, k), m));
    NextByte(v, k, m);
  }

  /**
   * Writing the low 32 bits of a field and then `m` bits of the field
   * shifted right by 32 writes its low `32 + m` bits.
   */
  lemma PutHighHalf(s: seq<bool>, at: nat, v: nat, m: nat)
    requires |s| % 8 == 0 && at + 32 + m <= |s|
    ensures Put(Put(s, at, LowBits(v, 32)), at + 32, LowBits(Shr(v, 32), m)) == Put(s, at, LowBits(v, 32 + m))
  {
    PutThen(s, at, LowBits(v, 32), LowBits(Shr(v, 32), m));
    LowBitsSplit(v, 32, m);
  }

  /** Reading `n` bits and then `m` bits reads the `n + m`-bit field. */
  lemma ReadThen(s: seq<bool>, at: nat, n: nat, m: nat)
    requires at + n + m <= |s|
    ensures Value(s[at..at + n + m]) == Value(s[at..at + n]) + Pow2(n) * Value(s[at + n..at + n + m])
  {
    assert s[at..at + n + m] == s[at..at + n] + s[at + n..at + n + m];
    ValueConcat(s[at..at + n], s[at + n..at + n + m]);
  }

  /** Reading back a written field of `n` bits gives its value modulo `2^n`. */
  lemma FieldRoundTrip(s: seq<bool>, at: nat, v: nat, n: nat)
    requires |s| % 8 == 0 && at + n <= |s|
    ensures Value(Put(s, at, LowBits(v, n))[at..at + n]) == v % Pow2(n)
  {
    PutRead(s, at, LowBits(v, n));
    ValueOfLowBits(v, n);
  }

  // ---------------------------------------------------------------------
  // Byte sequences.
  // ---------------------------------------------------------------------

  /** Writing the bytes `bs` and then byte `b` writes `bs + [b]`. */
  lemma PutNextWholeByte(s: seq<bool>, at: nat, bs: seq<bv8>, b: bv8)
    requires |s| % 8 == 0 && at + 8 * |bs| + 8 <= |s|
    ensures Put(Put(s, at, StreamOf(bs)), at + 8 * |bs|, ByteBits(b, 8)) == Put(s, at, StreamOf(bs + [b]))
  {
    PutThen(s, at, StreamOf(bs), ByteBits(b, 8));
    StreamOfSnoc(bs, b);
  }

  /** The byte at `8 * |bs|` of a run, read after the bytes `bs`, extends them. */
  lemma ReadNextWholeByte(s: seq<bool>, at: nat, bs: seq<bv8>, b: bv8)
    requires at + 8 * |bs| + 8 <= |s|
    requires StreamOf(bs) == s[at..at + 8 * |bs|]
    requires ByteBits(b, 8) == s[at + 8 * |bs|..at + 8 * |bs| + 8]
    ensures StreamOf(bs + [b]) == s[at..at + 8 * (|bs| + 1)]
  {
    StreamOfSnoc(bs, b);
    assert s[at..at + 8 * (|bs| + 1)] == s[at..at + 8 * |bs|] + s[at + 8 * |bs|..at + 8 * |bs| + 8];
  }

  /** Bytes written as a run read back as the same bytes. */
  lemma BytesRoundTrip(s: seq<bool>, at: nat, bs: seq<bv8>, cs: seq<bv8>)
    requires |s| % 8 == 0 && at + 8 * |bs| <= |s| && |cs| == |bs|
    requires StreamOf(cs) == Put(s, at, StreamOf(bs))[at..at + 8 * |bs|]
    ensures cs == bs
  {
    PutRead(s, at, StreamOf(bs));
    StreamOfInjective(cs, bs);
  }

  /**
   * A run holding a `w`-bit length field followed by bytes, as a string is
   * written: its first `w` bits read back as the length and the rest as
   * the bytes.
   */
  lemma LengthThenBytes(t: seq<bool>, at: nat, n: nat, w: nat, bs: seq<bv8>)
    requires at + w + 8 * |bs| <= |t| && n < Pow2(w)
    requires t[at..at + w + 8 * |bs|] == LowBits(n, w) + StreamOf(bs)
    ensures Value(t[at..at + w]) == n
    ensures t[at + w..at + w + 8 * |bs|] == StreamOf(bs)
  {
    SliceParts(t, at, LowBits(n, w), StreamOf(bs));
    ValueOfLowBits(n, w);
    ModSmall(n, Pow2(w));
  }

  /**
   * Bytes read back after a length field and as many bytes as it says are
   * the bytes of the run, when the run holds a length field followed by
   * those bytes.
   */
  lemma LengthThenBytesRoundTrip(t: seq<bool>, at: nat, w: nat, bs: seq<bv8>, cs: seq<bv8>)
    requires at + w + 8 * |bs| <= |t| && |bs| < Pow2(w)
    requires t[at..at + w + 8 * |bs|] == LowBits(|bs|, w) + StreamOf(bs)
    requires |cs| == Value(t[at..at + w]) && at + w + 8 * |cs| <= |t|
    requires StreamOf(cs) == t[at + w..at + w + 8 * |cs|]
    ensures cs == bs
  {
    LengthThenBytes(t, at, |bs|, w, bs);
    StreamOfInjective(cs, bs);
  }

  /** The two parts of a run that is the concatenation `x + y`. */
  lemma SliceParts(t: seq<bool>, at: nat, x: seq<bool>, y: seq<bool>)
    requires at + |x| + |y| <= |t| && t[at..at + |x| + |y|] == x + y
    ensures t[at..at + |x|] == x && t[at + |x|..at + |x| + |y|] == y
  {
    assert t[at..at + |x|] == (x + y)[..|x|];
    assert t[at + |x|..at + |x| + |y|] == (x + y)[|x|..];
  }
}
