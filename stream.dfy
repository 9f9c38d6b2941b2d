/**
 * The bit-level view of the buffer's bytes.
 *
 * Stream bit `8 * k + i` is bit `i` (counting from the least significant
 * bit) of byte `k`. Every operation of the buffer is specified as a change
 * of this stream: a write replaces a run of stream bits (`Splice`), a read
 * returns the value of a run of stream bits.
 *
 * Inside a byte, bit positions are `bv8` values, as they are in the shift
 * arithmetic of the engine; `BitIndex` maps a small number to that position.
 */
module BitStream {
  import opened Bits

  /** The number `k` as a `bv8` bit position or shift amount. */
  function BitIndex(k: nat): bv8
    requires k < 256
  {
    if k == 0 then 0 else BitIndex(k - 1) + 1
  }

  /** Bit `i` of byte `b`, counting from the least significant bit. */
  function BitOf(b: bv8, i: bv8): bool
    requires i < 8
  {
    (b >> i) & 1 == 1
  }

  /** The `n` low bits of byte `b`, least significant first. */
  function ByteBits(b: bv8, n: nat): (s: seq<bool>)
    requires n <= 8
    ensures |s| == n
  {
    if n == 0 then [] else [b & 1 == 1] + ByteBits(b >> 1, n - 1)
  }

  /** The bit stream stored in `bytes`. */
  function StreamOf(bytes: seq<bv8>): (s: seq<bool>)
    ensures |s| == 8 * |bytes|
  {
    seq(8 * |bytes|, j requires 0 <= j < 8 * |bytes| => ByteBits(bytes[j / 8], 8)[j % 8])
  }

  /** `s` with the bits from `at` on replaced by `t`. */
  function Splice(s: seq<bool>, at: nat, t: seq<bool>): (r: seq<bool>)
    requires at + |t| <= |s|
    ensures |r| == |s|
  {
    s[..at] + t + s[at + |t|..]
  }

  /**
   * The bits that a byte-aligned write of an `n`-bit field additionally
   * clears: an aligned write stores whole bytes, so the rest of the last
   * byte it touches becomes zero. An unaligned write clears nothing.
   */
  function Pad(aligned: bool, n: nat): seq<bool>
  {
    if aligned then Zeros((8 - n % 8) % 8) else []
  }

  /**
   * The mask that keeps the bits of a byte around a field of `n` bits that
   * starts at bit `used` and ends inside the byte (or exactly at its end).
   * The `used` low bits belong to earlier fields and the `left` high bits
   * lie beyond the field; when no bit is left, no high bit is kept.
   */
  function FitMask(used: bv8, n: bv8): (m: bv8)
    requires 1 <= used <= 7 && 1 <= n <= 8 - used
    ensures forall i: bv8 | i < 8 :: BitOf(m, i) == (i < used || i >= used + n)
  {
    var free := 8 - used;
    var left := free - n;
    (0xFF >> free) | (if left == 0 then 0 else 0xFF << (8 - left))
  }

  /** The byte that stands for the number `x`, built bit by bit. */
  function FromNat(x: nat): bv8
    requires x < 256
  {
    if x == 0 then 0 else (FromNat(x / 2) << 1) | (if x % 2 == 1 then 1 else 0)
  }

  /** Byte `k` of `v`, counting from the least significant: `(v >> 8k) as u8`. */
  function ByteOf(v: nat, k: nat): bv8
  {
    FromNat(Shr(v, 8 * k) % 256)
  }

  // ---------------------------------------------------------------------
  // Bit positions as numbers.
  // ---------------------------------------------------------------------

  lemma IndexValue(k: nat)
    requires k < 256
    ensures BitIndex(k) as int == k
    ensures k <= 8 ==> BitIndex(k) <= 8
    ensures k < 8 ==> BitIndex(k) < 8
  {
    if k > 0 {
      IndexValue(k - 1);
    }
  }

  /** The bounds of a small bit position, without its numeric value. */
  lemma IndexBound(k: nat)
    requires k <= 8
    ensures BitIndex(k) <= 8
    ensures k < 8 ==> BitIndex(k) < 8
  {
    IndexValue(k);
  }

  lemma IndexEight()
    ensures BitIndex(8) == 8
  {
    IndexValue(8);
  }

  /** Adding bit positions adds the numbers. */
  lemma IndexAdd(a: nat, b: nat)
    requires a + b < 256
    ensures BitIndex(a) + BitIndex(b) == BitIndex(a + b)
  {
    if b > 0 {
      IndexAdd(a, b - 1);
    }
  }

  /** Small bit positions do not wrap around. */
  lemma IndexSmall(k: nat)
    requires k <= 15
    ensures BitIndex(k) <= 15
  {
    IndexValue(k);
  }

  /** A smaller number has a smaller bit position. */
  lemma IndexLess(a: nat, b: nat)
    requires a < b <= 16
    ensures BitIndex(a) < BitIndex(b)
  {
    IndexSmall(b - 1);
    if a < b - 1 {
      IndexLess(a, b - 1);
    }
  }

  lemma IndexLe(a: nat, b: nat)
    requires a <= b <= 16
    ensures BitIndex(a) <= BitIndex(b)
  {
    if a < b {
      IndexLess(a, b);
    }
  }

  lemma IndexSub(a: nat, b: nat)
    requires b <= a < 256
    ensures BitIndex(a) - BitIndex(b) == BitIndex(a - b)
  {
    IndexAdd(a - b, b);
  }

  // ---------------------------------------------------------------------
  // Bytes as numbers.
  // ---------------------------------------------------------------------

  lemma Pow2Byte()
    ensures Pow2(8) == 256
  {
    assert Pow2(4) == 16;
  }

  lemma ByteHalf(b: bv8)
    ensures ((b as int) % 2 == 1) == (b & 1 == 1)
    ensures (b as int) / 2 == (b >> 1) as int
  {
  }

  lemma ShiftOne(b: bv8, i: bv8)
    requires i < 7
    ensures BitOf(b >> 1, i) == BitOf(b, i + 1)
  {
  }

  lemma NextIndex(r: nat)
    requires 0 < r < 8
    ensures BitIndex(r - 1) < 7 && BitIndex(r - 1) + 1 == BitIndex(r)
  {
    IndexValue(r - 1);
  }

  /** Bit `r` of a byte, taken by a shift and a mask, is element `r` of its bits. */
  lemma {:induction false} BitOfByte(b: bv8, n: nat, r: nat)
    requires r < n <= 8
    ensures BitIndex(r) < 8 && BitOf(b, BitIndex(r)) == ByteBits(b, n)[r]
  {
    IndexBound(r);
    if r > 0 {
      BitOfByte(b >> 1, n - 1, r - 1);
      NextIndex(r);
      ShiftOne(b, BitIndex(r - 1));
    }
  }

  /** The bits of a byte are the bits of the number it stands for. */
  lemma {:induction false} ByteBitsAreLowBits(b: bv8, n: nat)
    requires n <= 8
    ensures ByteBits(b, n) == LowBits(b as int, n)
  {
    if n > 0 {
      ByteHalf(b);
      ByteBitsAreLowBits(b >> 1, n - 1);
    }
  }

  /** A number below `2^k` makes a byte below `2^k`. */
  lemma {:induction false} FromNatBound(x: nat)
    requires x < 256
    ensures x < 2 ==> FromNat(x) < 2
    ensures x < 4 ==> FromNat(x) < 4
    ensures x < 8 ==> FromNat(x) < 8
    ensures x < 16 ==> FromNat(x) < 16
    ensures x < 32 ==> FromNat(x) < 32
    ensures x < 64 ==> FromNat(x) < 64
    ensures x < 128 ==> FromNat(x) < 128
  {
    if x > 0 {
      FromNatBound(x / 2);
    }
  }

  lemma ShiftIn(y: bv8, c: bool)
    requires y < 128
    ensures ((y << 1) | (if c then 1 else 0)) & 1 == 1 <==> c
    ensures ((y << 1) | (if c then 1 else 0)) >> 1 == y
  {
  }

  /** The bits of the byte built from `x` are the bits of `x`. */
  lemma {:induction false} FromNatBits(x: nat, n: nat)
    requires x < 256 && n <= 8
    ensures ByteBits(FromNat(x), n) == LowBits(x, n)
  {
    if n > 0 {
      FromNatBound(x / 2);
      ShiftIn(FromNat(x / 2), x % 2 == 1);
      FromNatBits(x / 2, n - 1);
    }
  }

  /** The bits of byte `k` of `v` are the bits of `v` from `8k` on. */
  lemma ByteOfBits(v: nat, k: nat, n: nat)
    requires n <= 8
    ensures ByteBits(ByteOf(v, k), n) == LowBits(Shr(v, 8 * k), n)
  {
    FromNatBits(Shr(v, 8 * k) % 256, n);
    Pow2Byte();
    LowBitsMod(Shr(v, 8 * k), n, 8);
  }

  /** A field's bits from `8k` on are byte `k` followed by the higher bits. */
  lemma FieldBytes(v: nat, k: nat, n: nat)
    ensures LowBits(Shr(v, 8 * k), 8 + n) == ByteBits(ByteOf(v, k), 8) + LowBits(Shr(v, 8 * (k + 1)), n)
  {
    LowBitsSplit(Shr(v, 8 * k), 8, n);
    DivPow2(v, 8 * k, 8);
    ByteOfBits(v, k, 8);
  }

  /** A byte whose bits are `s` followed by clear bits has value `Value(s)`. */
  lemma ByteValue(b: bv8, s: seq<bool>)
    requires |s| <= 8 && ByteBits(b, 8) == s + Zeros(8 - |s|)
    ensures b as int == Value(s)
  {
    ByteNumber(b);
    ValueZeroExtend(s, 8 - |s|);
  }

  /** A byte is determined by its bits. */
  lemma ByteExtensional(a: bv8, b: bv8)
    requires ByteBits(a, 8) == ByteBits(b, 8)
    ensures a == b
  {
    ByteNumber(a);
    ByteNumber(b);
  }

  /** A byte is determined by its value. */
  lemma ByteOfNumber(a: bv8, b: bv8)
    requires a as int == b as int
    ensures a == b
  {
  }

  /** The value of all eight bits of a byte is the byte. */
  lemma ByteNumber(b: bv8)
    ensures Value(ByteBits(b, 8)) == b as int
  {
    var x := b as int;
    assert x < 256;
    ByteBitsAreLowBits(b, 8);
    ValueOfLowBits(x, 8);
    Pow2Byte();
    ModSmall(x, 256);
  }

  lemma ModSmall(x: int, m: int)
    requires 0 <= x < m
    ensures x % m == x
  {
  }

  // ---------------------------------------------------------------------
  // Splicing.
  // ---------------------------------------------------------------------

  /** Two adjacent splices are one splice of both runs. */
  lemma SpliceThen(s: seq<bool>, at: nat, t: seq<bool>, u: seq<bool>)
    requires at + |t| + |u| <= |s|
    ensures Splice(Splice(s, at, t), at + |t|, u) == Splice(s, at, t + u)
  {
    var r := Splice(Splice(s, at, t), at + |t|, u);
    assert r[..at] == s[..at];
    assert r[at..at + |t| + |u|] == t + u;
    assert r[at + |t| + |u|..] == s[at + |t| + |u|..];
    assert r == r[..at] + r[at..at + |t| + |u|] + r[at + |t| + |u|..];
  }

  lemma SpliceAt(s: seq<bool>, at: nat, t: seq<bool>, j: nat)
    requires at + |t| <= |s| && j < |s|
    ensures Splice(s, at, t)[j] == if at <= j < at + |t| then t[j - at] else s[j]
  {
  }

  /** A splice leaves `t` at `at`. */
  lemma SpliceRead(s: seq<bool>, at: nat, t: seq<bool>, k: nat)
    requires at + |t| <= |s| && k <= |t|
    ensures Splice(s, at, t)[at..at + k] == t[..k]
  {
    assert Splice(s, at, t)[at..at + |t|] == t;
    assert Splice(s, at, t)[at..at + k] == Splice(s, at, t)[at..at + |t|][..k];
  }

  /** An aligned field, padded to whole bytes, still fits a buffer of whole bytes. */
  lemma PadFits(pos: nat, n: nat, bytes: nat)
    requires pos + n <= 8 * bytes
    ensures pos + n + |Pad(pos % 8 == 0, n)| <= 8 * bytes
  {
  }

  // ---------------------------------------------------------------------
  // From changed bytes to a changed stream.
  // ---------------------------------------------------------------------

  lemma DivMod8(j: nat) returns (k: nat, r: nat)
    ensures j == 8 * k + r && r < 8
  {
    k, r := j / 8, j % 8;
  }

  lemma StreamBit(bytes: seq<bv8>, k: nat, r: nat)
    requires k < |bytes| && r < 8
    ensures StreamOf(bytes)[8 * k + r] == ByteBits(bytes[k], 8)[r]
  {
    assert (8 * k + r) / 8 == k && (8 * k + r) % 8 == r;
  }

  /**
   * `x0` and `x1` are the bytes `b0` and `b1` with the run `t` stored from
   * bit `used` of the first on, running across into the second; every
   * other bit is kept.
   */
  ghost predicate SpanStored(b0: bv8, b1: bv8, t: seq<bool>, used: nat, x0: bv8, x1: bv8)
    requires 1 <= used <= 7 && 8 - used < |t| <= 8
  {
    (forall r | 0 <= r < 8 :: (ByteBits(x0, 8)[r] ==
      if used <= r then t[r - used] else ByteBits(b0, 8)[r]))
    && (forall r | 0 <= r < 8 :: (ByteBits(x1, 8)[r] ==
      if 8 + r < used + |t| then t[8 + r - used] else ByteBits(b1, 8)[r]))
  }

  /**
   * Only bytes `p` and `p + 1` differ, and their bits differ exactly where
   * the run `t`, starting at bit `used` of byte `p`, lies.
   */
  ghost predicate TwoByteChange(before: seq<bv8>, after: seq<bv8>, p: nat, used: nat, t: seq<bool>)
    requires |after| == |before| && p < |before| && used < 8 && |t| <= 8
  {
    (forall k | 0 <= k < |before| && k != p && k != p + 1 :: after[k] == before[k])
    && (forall r | 0 <= r < 8 :: (ByteBits(after[p], 8)[r] ==
      if used <= r < used + |t| then t[r - used] else ByteBits(before[p], 8)[r]))
    && (forall k, r | k == p + 1 && k < |before| && 0 <= r < 8 :: (ByteBits(after[k], 8)[r] ==
      if 8 + r < used + |t| then t[8 + r - used] else ByteBits(before[k], 8)[r]))
  }

  /**
   * The bit `r` of byte `k` after a change that writes the run `t` from bit
   * `used` of byte `p` on: a bit of `t` where the run covers it, the old bit
   * elsewhere.
   */
  ghost predicate ChangedBit(before: seq<bv8>, after: seq<bv8>, p: nat, used: nat, t: seq<bool>, k: nat, r: nat)
    requires |after| == |before| && k < |before| && r < 8
  {
    ByteBits(after[k], 8)[r] ==
      if 8 * p + used <= 8 * k + r < 8 * p + used + |t| then t[8 * k + r - (8 * p + used)]
      else ByteBits(before[k], 8)[r]
  }

  /** The byte-level description of a change, one bit at a time. */
  lemma ChangeAt(before: seq<bv8>, after: seq<bv8>, p: nat, used: nat, t: seq<bool>, k: nat, r: nat)
    requires |after| == |before| && p < |before| && used < 8 && |t| <= 8
    requires TwoByteChange(before, after, p, used, t)
    requires k < |before| && r < 8
    ensures ChangedBit(before, after, p, used, t, k, r)
  {
    if k < p {
      assert 8 * k + r < 8 * p;
    } else if k > p + 1 {
      assert 8 * k + r >= 8 * p + 16;
    }
  }

  /** One bit of the stream after a change. */
  lemma StreamChangedBit(before: seq<bv8>, after: seq<bv8>, p: nat, used: nat, t: seq<bool>, k: nat, r: nat)
    requires |after| == |before| && k < |before| && r < 8
    requires 8 * p + used + |t| <= 8 * |before|
    requires ChangedBit(before, after, p, used, t, k, r)
    ensures StreamOf(after)[8 * k + r] == Splice(StreamOf(before), 8 * p + used, t)[8 * k + r]
  {
    StreamBit(after, k, r);
    StreamBit(before, k, r);
    SpliceAt(StreamOf(before), 8 * p + used, t, 8 * k + r);
  }

  /**
   * When only bytes `p` and `p + 1` change, and their bits change exactly
   * where the run `t` starting at bit `used` of byte `p` lies, the stream
   * is the old one with `t` spliced in.
   */
  lemma StreamUpdate(before: seq<bv8>, after: seq<bv8>, p: nat, used: nat, t: seq<bool>)
    requires |after| == |before| && p < |before| && used < 8 && |t| <= 8
    requires 8 * p + used + |t| <= 8 * |before|
    requires TwoByteChange(before, after, p, used, t)
    ensures StreamOf(after) == Splice(StreamOf(before), 8 * p + used, t)
  {
    var a, b := StreamOf(after), Splice(StreamOf(before), 8 * p + used, t);
    forall j | 0 <= j < |a|
      ensures a[j] == b[j]
    {
      var k, r := DivMod8(j);
      ChangeAt(before, after, p, used, t, k, r);
      StreamChangedBit(before, after, p, used, t, k, r);
    }
  }

  lemma StreamReadBit(bytes: seq<bv8>, p: nat, used: nat, n: nat, r: nat)
    requires p < |bytes| && used < 8 && r < n <= 8 && 8 * p + used + n <= 8 * |bytes|
    ensures StreamOf(bytes)[8 * p + used + r] ==
      if used + r < 8 then ByteBits(bytes[p], 8)[used + r] else ByteBits(bytes[p + 1], 8)[used + r - 8]
  {
    if used + r < 8 {
      StreamBit(bytes, p, used + r);
    } else {
      StreamBit(bytes, p + 1, used + r - 8);
    }
  }

  /**
   * A byte `x` whose low `n` bits are the `n` stream bits from bit `used`
   * of byte `p` on, and whose other bits are clear, holds exactly that run
   * of the stream.
   */
  lemma StreamRead(bytes: seq<bv8>, p: nat, used: nat, n: nat, x: bv8)
    requires p < |bytes| && used < 8 && n <= 8 && 8 * p + used + n <= 8 * |bytes|
    requires forall r | 0 <= r < 8 :: (ByteBits(x, 8)[r] == (r < n &&
      if used + r < 8 then ByteBits(bytes[p], 8)[used + r] else ByteBits(bytes[p + 1], 8)[used + r - 8]))
    ensures ByteBits(x, 8) == StreamOf(bytes)[8 * p + used..8 * p + used + n] + Zeros(8 - n)
  {
    var at := 8 * p + used;
    var a, b := ByteBits(x, 8), StreamOf(bytes)[at..at + n] + Zeros(8 - n);
    forall r | 0 <= r < 8
      ensures a[r] == b[r]
    {
      StreamReadAt(bytes, p, used, n, x, r);
    }
    assert a == b;
  }

  /** One bit of `StreamRead`. */
  lemma StreamReadAt(bytes: seq<bv8>, p: nat, used: nat, n: nat, x: bv8, r: nat)
    requires p < |bytes| && used < 8 && n <= 8 && 8 * p + used + n <= 8 * |bytes| && r < 8
    requires ByteBits(x, 8)[r] == (r < n &&
      if used + r < 8 then ByteBits(bytes[p], 8)[used + r] else ByteBits(bytes[p + 1], 8)[used + r - 8])
    ensures ByteBits(x, 8)[r] == (StreamOf(bytes)[8 * p + used..8 * p + used + n] + Zeros(8 - n))[r]
  {
    if r < n {
      assert (StreamOf(bytes)[8 * p + used..8 * p + used + n] + Zeros(8 - n))[r] == StreamOf(bytes)[8 * p + used + r];
      StreamReadBit(bytes, p, used, n, r);
    } else {
      assert (StreamOf(bytes)[8 * p + used..8 * p + used + n] + Zeros(8 - n))[r] == Zeros(8 - n)[r - n];
    }
  }

  // ---------------------------------------------------------------------
  // Streams of byte sequences.
  // ---------------------------------------------------------------------

  lemma StreamOfConcat(x: seq<bv8>, y: seq<bv8>)
    ensures StreamOf(x + y) == StreamOf(x) + StreamOf(y)
  {
    var a, b := StreamOf(x + y), StreamOf(x) + StreamOf(y);
    forall j | 0 <= j < |a|
      ensures a[j] == b[j]
    {
      if j >= 8 * |x| {
        assert (j - 8 * |x|) / 8 == j / 8 - |x| && (j - 8 * |x|) % 8 == j % 8;
      }
    }
  }

  lemma StreamOfByte(b: bv8)
    ensures StreamOf([b]) == ByteBits(b, 8)
  {
  }

  /** Zero bytes hold clear bits only. */
  lemma StreamOfZeros(len: nat)
    ensures StreamOf(seq(len, _ => 0)) == Zeros(8 * len)
  {
    var bs: seq<bv8> := seq(len, _ => 0);
    forall j | 0 <= j < 8 * len
      ensures StreamOf(bs)[j] == false
    {
      ZeroByteBits(8, j % 8);
    }
  }

  lemma ZeroByteBits(n: nat, r: nat)
    requires r < n <= 8
    ensures !ByteBits(0, n)[r]
  {
    if r > 0 {
      ZeroByteBits(n - 1, r - 1);
    }
  }

  /** One more byte adds its eight bits to the end of the stream. */
  lemma StreamOfSnoc(bs: seq<bv8>, b: bv8)
    ensures StreamOf(bs + [b]) == StreamOf(bs) + ByteBits(b, 8)
  {
    StreamOfConcat(bs, [b]);
    StreamOfByte(b);
  }

  /** The stream of a byte sequence determines the sequence. */
  lemma {:induction false} StreamOfInjective(x: seq<bv8>, y: seq<bv8>)
    requires StreamOf(x) == StreamOf(y)
    ensures x == y
  {
    assert |x| == |y|;
    forall k | 0 <= k < |x|
      ensures x[k] == y[k]
    {
      forall i | 0 <= i < 8
        ensures ByteBits(x[k], 8)[i] == ByteBits(y[k], 8)[i]
      {
        StreamBit(x, k, i);
        StreamBit(y, k, i);
      }
      ByteExtensional(x[k], y[k]);
    }
  }
}
