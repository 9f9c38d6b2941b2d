/**
 * The buffer: a fixed array of bytes, a bit cursor shared by reads and
 * writes, and the capacity in bits.
 *
 * Its contents are specified through `Stream()`, the array read as one
 * sequence of bits (bit `8k + i` is bit `i`, from the least significant,
 * of byte `k`). A write of a field puts its bits at the cursor (see
 * `Fields.Put`) and a read returns the value of the bits at the cursor;
 * both advance the cursor by the width of the field.
 *
 * An access that would run past the end of the array panics in
 * `src/lib.rs`; here it ends with `OutOfBounds`. A bit count an operation
 * cannot handle ends with `InvalidBitCount`. A codec made of several byte
 * accesses compares the whole field with the capacity before its first
 * access, so a call that ends with `OutOfBounds` changes neither the bytes
 * nor the cursor.
 */
module Buffer {
  import opened Bits
  import opened BitStream
  import opened Engine
  import opened Fields
  import opened Primitive
  import opened Outcomes
  import opened Ints

  /**
   * The stream `s`, with the cursor at `cursor`, is the stream `s0` after
   * the low `n` bits of the field `v` have been written at `at`.
   */
  ghost predicate Written(s: seq<bool>, cursor: nat, s0: seq<bool>, at: nat, v: nat, n: nat)
  {
    |s0| == |s| && |s| % 8 == 0 && at + n == cursor <= |s| && s == Put(s0, at, LowBits(v, n))
  }

  /** Before the first byte of a field, none of it has been written. */
  lemma StartWrite(s: seq<bool>, at: nat, v: nat)
    requires |s| % 8 == 0 && at <= |s|
    ensures Written(s, at, s, at, v, 0)
  {
    PutNothing(s, at);
  }

  /** Writing `m` bits of byte `k` after the low `8k` bits of a field extends them. */
  lemma WrittenNext(s0: seq<bool>, s1: seq<bool>, p1: nat, s2: seq<bool>, p2: nat, at: nat, v: nat, k: nat, m: nat, n: nat)
    requires Written(s1, p1, s0, at, v, 8 * k) && 1 <= m <= 8 && p2 == p1 + m <= |s1| && n == 8 * k + m
    requires s2 == Put(s1, p1, ByteBits(ByteOf(v, k), m))
    ensures Written(s2, p2, s0, at, v, n)
  {
    PutNextByte(s0, at, v, k, m);
  }

  /**
   * The stream `s`, with the cursor at `cursor`, is the stream `s0`, from
   * `at` on of which the low `n` bits of a field have been read, giving `acc`.
   */
  ghost predicate ReadFrom(s: seq<bool>, cursor: nat, s0: seq<bool>, at: nat, acc: nat, n: nat)
  {
    s == s0 && at + n == cursor <= |s| && acc == Value(s0[at..at + n])
  }

  /** A field of `n` bits read so far is below `2^w` for every `w >= n`. */
  lemma ReadBound(s: seq<bool>, p: nat, s0: seq<bool>, at: nat, acc: nat, n: nat, w: nat)
    requires ReadFrom(s, p, s0, at, acc, n) && n <= w
    ensures acc < Pow2(w)
  {
    Pow2Monotonic(n, w);
  }

  /** Reading `m` more bits as byte `k` of a field extends the value read so far. */
  lemma ReadNext(s1: seq<bool>, s2: seq<bool>, p1: nat, p2: nat, s0: seq<bool>, at: nat, acc: nat,
                 k: nat, m: nat, b: bv8, done: nat, n: nat)
    requires ReadFrom(s1, p1, s0, at, acc, done) && s2 == s1 && done == 8 * k && n == done + m
    requires p2 == p1 + m <= |s2| && b as int == Value(s2[p1..p1 + m])
    ensures ReadFrom(s2, p2, s0, at, acc + Pow2(8 * k) * (b as int), n)
  {
    assert s2[p1..p1 + m] == s0[at + done..at + done + m];
    ReadThen(s0, at, done, m);
  }

  /**
   * Where a field of `total` bits written at `at` stands after a step that
   * has written its low `n` bits, or has run past the end of the buffer.
   */
  ghost predicate Writing(o: Outcome, s: seq<bool>, cursor: nat, s0: seq<bool>, at: nat, v: nat, n: nat, total: nat, size: nat)
  {
    (o == Pass ==> Written(s, cursor, s0, at, v, n)) &&
    (o != Pass ==> o == Fail(OutOfBounds) && at + total > size)
  }

  /** Where a read of a field of `total` bits at `at` stands after its low `n` bits. */
  ghost predicate Reading(r: Result<nat>, s: seq<bool>, cursor: nat, s0: seq<bool>, at: nat, n: nat, total: nat, size: nat)
  {
    (r.Ok? ==> ReadFrom(s, cursor, s0, at, r.value, n)) &&
    (r.Err? ==> r == Err(OutOfBounds) && at + total > size)
  }

  /**
   * Where a write of a field of more than 32 bits stands at its end: the
   * whole field is written, or it ran past the end of the buffer, or (for
   * more than 64 bits) the low half is written and the rest is not.
   */
  ghost predicate WroteHalves(o: Outcome, s: seq<bool>, cursor: nat, s0: seq<bool>, at: nat, v: nat, bits: nat, size: nat)
  {
    (bits <= 64 ==> Writing(o, s, cursor, s0, at, v, bits, bits, size)) &&
    (bits > 64 ==> (o != Pass && (o == Fail(OutOfBounds) <==> at + 32 > size) &&
      (at + 32 <= size ==> o == Fail(InvalidBitCount) && Written(s, cursor, s0, at, v, 32))))
  }

  /** The end of a write of a field of more than 32 bits, from the end of the write of its high half. */
  lemma HighHalfWritten(o: Outcome, s: seq<bool>, cursor: nat, s1: seq<bool>, p1: nat, s0: seq<bool>, at: nat,
                        v: nat, bits: nat, size: nat)
    requires Written(s1, p1, s0, at, v, 32) && 32 < bits && |s1| == size && |s| == size
    requires !(1 <= bits - 32 <= 32) ==> (o == Fail(InvalidBitCount) && cursor == p1 && s == s1)
    requires 1 <= bits - 32 <= 32 ==> (o == Pass <==> p1 + (bits - 32) <= size)
    requires 1 <= bits - 32 <= 32 && o != Pass ==> o == Fail(OutOfBounds)
    requires o == Pass ==> (cursor == p1 + (bits - 32) && s == Put(s1, p1, LowBits(Shr(v, 32), bits - 32)))
    ensures WroteHalves(o, s, cursor, s0, at, v, bits, size)
  {
    if o == Pass {
      PutHighHalf(s0, at, v, bits - 32);
    }
  }

  /** Where a read of a field of more than 32 bits stands at its end, as `WroteHalves` for writes. */
  ghost predicate ReadHalves(r: Result<U64>, cursor: nat, s0: seq<bool>, at: nat, bits: nat, size: nat)
  {
    (bits <= 64 ==> ((r.Ok? <==> at + bits <= size) && (r.Err? ==> r == Err(OutOfBounds)) &&
      (r.Ok? ==> cursor == at + bits <= |s0| && r.value == Value(s0[at..at + bits])))) &&
    (bits > 64 ==> r.Err? && (r == Err(OutOfBounds) <==> at + 32 > size) && (at + 32 <= size ==> cursor == at + 32))
  }

  /**
   * The bits a 64-bit part write or read touches before it can stop: the
   * whole field, or for more than 64 bits only its low half.
   */
  function PartReach(bits: nat): nat
  {
    if bits <= 64 then bits else 32
  }

  /** The low half of a field and the rest, read one after the other, make the field. */
  lemma JoinHalves(s0: seq<bool>, s2: seq<bool>, at: nat, p1: nat, bits: nat, lo: nat, hi: nat)
    requires 32 < bits && s2 == s0 && p1 == at + 32 && p1 + (bits - 32) <= |s2|
    requires lo == Value(s0[at..at + 32]) && hi == Value(s2[p1..p1 + (bits - 32)])
    ensures lo + Pow2(32) * hi == Value(s0[at..at + bits])
  {
    var u, v := s0[at..at + 32], s2[p1..p1 + (bits - 32)];
    assert s0[at..at + bits] == u + v;
    ValueConcat(u, v);
  }

  /**
   * The stream `s`, with the cursor at `cursor`, is the stream `s0` after
   * the whole bytes `bs` have been written at `at`.
   */
  ghost predicate WroteBytes(s: seq<bool>, cursor: nat, s0: seq<bool>, at: nat, bs: seq<bv8>)
  {
    |s0| == |s| && |s| % 8 == 0 && at + 8 * |bs| == cursor <= |s| && s == Put(s0, at, StreamOf(bs))
  }

  /** Where a write of a run of `total` bits at `at` stands after the bytes `bs`. */
  ghost predicate WritingBytes(o: Outcome, s: seq<bool>, cursor: nat, s0: seq<bool>, at: nat, bs: seq<bv8>,
                               total: nat, size: nat)
  {
    (o == Pass ==> WroteBytes(s, cursor, s0, at, bs)) &&
    (o != Pass ==> o == Fail(OutOfBounds) && at + total > size)
  }

  /** Before the first byte, no byte has been written. */
  lemma StartBytes(s: seq<bool>, at: nat)
    requires |s| % 8 == 0 && at <= |s|
    ensures WroteBytes(s, at, s, at, [])
  {
    assert StreamOf([]) == [];
    PutNothing(s, at);
  }

  /** Writing the whole byte `b` after the bytes `bs` writes `bs + [b]`. */
  lemma WroteNextByte(s0: seq<bool>, s1: seq<bool>, p1: nat, s2: seq<bool>, p2: nat, at: nat, bs: seq<bv8>, b: bv8)
    requires WroteBytes(s1, p1, s0, at, bs) && p2 == p1 + 8 <= |s1| && s2 == Put(s1, p1, ByteBits(b, 8))
    ensures WroteBytes(s2, p2, s0, at, bs + [b])
  {
    assert |StreamOf(bs + [b])| == 8 * |bs| + 8;
    PutNextWholeByte(s0, at, bs, b);
  }

  /**
   * The stream `s`, with the cursor at `cursor`, is the stream `s0`, from
   * `at` on of which the whole bytes `bs` have been read.
   */
  ghost predicate ReadBytesFrom(s: seq<bool>, cursor: nat, s0: seq<bool>, at: nat, bs: seq<bv8>)
  {
    s == s0 && at + 8 * |bs| == cursor <= |s| && StreamOf(bs) == s0[at..at + 8 * |bs|]
  }

  /** Where a read of a run of `total` bits at `at` stands after the bytes `bs` and one more. */
  ghost predicate ReadingByte(r: Result<bv8>, s: seq<bool>, cursor: nat, s0: seq<bool>, at: nat, bs: seq<bv8>,
                              total: nat, size: nat)
  {
    (r.Ok? ==> ReadBytesFrom(s, cursor, s0, at, bs + [r.value])) &&
    (r.Err? ==> r == Err(OutOfBounds) && at + total > size)
  }

  /** Reading the whole byte `b` after the bytes `bs` reads `bs + [b]`. */
  lemma ReadNextByteFrom(s1: seq<bool>, p1: nat, s2: seq<bool>, p2: nat, s0: seq<bool>, at: nat, bs: seq<bv8>, b: bv8)
    requires ReadBytesFrom(s1, p1, s0, at, bs) && s2 == s1 && p2 == p1 + 8 <= |s2|
    requires b as int == Value(s2[p1..p1 + 8])
    ensures ReadBytesFrom(s2, p2, s0, at, bs + [b])
  {
    LowBitsOfValue(s2[p1..p1 + 8]);
    ByteBitsAreLowBits(b, 8);
    ReadNextWholeByte(s0, at, bs, b);
  }

  /**
   * The byte a write that ends inside byte `p` of `bytes` stores, described
   * by what it does to the stream.
   */
  method WithinStore(b: bv8, value: bv8, used: nat, bits: nat, ghost bytes: seq<bv8>, ghost p: nat) returns (x: bv8)
    requires p < |bytes| && bytes[p] == b
    requires 1 <= used <= 7 && 1 <= bits <= 8 - used
    ensures StreamOf(bytes[p := x]) == Put(StreamOf(bytes), 8 * p + used, ByteBits(value, bits))
  {
    x := FitByte(b, value, used, bits);
    FitWrite(bytes, p, used, value, bits, x);
  }

  /**
   * The two bytes a write across bytes `p` and `p + 1` of `bytes` stores,
   * described by what they do to the stream.
   */
  method AcrossStore(b0: bv8, b1: bv8, value: bv8, used: nat, bits: nat, ghost bytes: seq<bv8>, ghost p: nat)
    returns (x0: bv8, x1: bv8)
    requires p + 1 < |bytes| && bytes[p] == b0 && bytes[p + 1] == b1
    requires 1 <= used <= 7 && 8 - used < bits <= 8
    ensures StreamOf(bytes[p := x0][p + 1 := x1]) == Put(StreamOf(bytes), 8 * p + used, ByteBits(value, bits))
  {
    x0, x1 := SpanBytes(b0, b1, value, used, bits);
    SpanWrite(bytes, p, used, value, bits, x0, x1);
  }

  /** The byte a boolean is written as holds it as its one bit. */
  lemma BoolBit(value: bool, b: bv8)
    requires b == if value then 1 else 0
    ensures ByteBits(b, 1) == [value]
  {
    assert ByteBits(b, 1) == [b & 1 == 1] + ByteBits(b >> 1, 0);
  }

  /** The four bytes of an `f32` as they lie in memory, first to last. */
  datatype FourByte = FourByte(b1: bv8, b2: bv8, b3: bv8, b4: bv8)

  /** The eight bytes of an `f64` as they lie in memory, first to last. */
  datatype EightByte = EightByte(b1: bv8, b2: bv8, b3: bv8, b4: bv8, b5: bv8, b6: bv8, b7: bv8, b8: bv8)

  function FourBytes(f: FourByte): (bs: seq<bv8>)
    ensures |bs| == 4
  {
    [f.b1, f.b2, f.b3, f.b4]
  }

  function EightBytes(f: EightByte): (bs: seq<bv8>)
    ensures |bs| == 8
  {
    [f.b1, f.b2, f.b3, f.b4, f.b5, f.b6, f.b7, f.b8]
  }

  /** The first four bytes of an `f64`. */
  function LowFour(f: EightByte): (q: FourByte)
    ensures FourBytes(q) == EightBytes(f)[..4]
  {
    FourByte(f.b1, f.b2, f.b3, f.b4)
  }

  /** The last four bytes of an `f64`. */
  function HighFour(f: EightByte): (q: FourByte)
    ensures FourBytes(q) == EightBytes(f)[4..]
  {
    FourByte(f.b5, f.b6, f.b7, f.b8)
  }

  /** The `f64` whose bytes are those of `lo` followed by those of `hi`. */
  function JoinFours(lo: FourByte, hi: FourByte): (f: EightByte)
    ensures EightBytes(f) == FourBytes(lo) + FourBytes(hi)
    ensures LowFour(f) == lo && HighFour(f) == hi
  {
    EightByte(lo.b1, lo.b2, lo.b3, lo.b4, hi.b1, hi.b2, hi.b3, hi.b4)
  }

  /**
   * `r` is what reading a string at bit `at` of the stream `s` gives, with
   * a length field of `w` bits: it succeeds exactly when the length field
   * and as many bytes as it says fit, and then it holds the bytes that
   * follow the length field.
   */
  ghost predicate StringFrom(r: Result<seq<bv8>>, s: seq<bool>, at: nat, w: nat)
  {
    (r.Ok? <==> (at + w <= |s| && at + w + 8 * Value(s[at..at + w]) <= |s|))
    && (r.Err? ==> r == Err(OutOfBounds))
    && (r.Ok? ==> |r.value| == Value(s[at..at + w]) && StreamOf(r.value) == s[at + w..at + w + 8 * |r.value|])
  }

  class BitBuf {
    var buf: array<bv8>
    /** The bit position of the cursor. */
    var pos: nat
    /** The size of the buffer in bits. */
    var size: nat

    ghost predicate Valid()
      reads this
    {
      size == 8 * buf.Length && pos <= size
    }

    /** The contents as a sequence of bits. */
    ghost function Stream(): (s: seq<bool>)
      reads this`buf, buf
      ensures |s| == 8 * buf.Length && |s| % 8 == 0
    {
      DivModUnique(8 * buf.Length, 8, buf.Length, 0);
      StreamOf(buf[..])
    }

    // -------------------------------------------------------------------
    // Construction and accessors.
    // -------------------------------------------------------------------

    /** A buffer of `len` zero bytes with the cursor at the start. */
    constructor WithLen(len: nat)
      ensures Valid() && fresh(buf)
      ensures buf[..] == seq(len, _ => 0) && pos == 0 && size == 8 * len
      ensures Stream() == Zeros(8 * len)
    {
      var vec := new bv8[len];
      for i := 0 to len
        invariant forall j | 0 <= j < i :: vec[j] == 0
      {
        vec[i] := 0;
      }
      buf := vec;
      pos := 0;
      size := len * 8;
      new;
      StreamOfZeros(len);
    }

    /** The bytes of the buffer. */
    method ToVec() returns (v: seq<bv8>)
      requires Valid()
      ensures |v| == size / 8 && StreamOf(v) == Stream()
    {
      v := buf[..];
    }

    function BitSize(): (r: nat)
      requires Valid()
      reads this
      ensures r == 8 * buf.Length
    {
      size
    }

    function BitPos(): (r: nat)
      requires Valid()
      reads this
      ensures r <= BitSize()
    {
      pos
    }

    /** The byte that holds the cursor. */
    function BytePos(): (r: nat)
      reads this
      ensures 8 * r <= pos < 8 * r + 8
    {
      pos / 8
    }

    /** Whether `bitCount` more bits fit after the cursor. */
    function CanWriteBits(bitCount: nat): (r: bool)
      requires Valid()
      reads this
      ensures r <==> bitCount <= size - pos
    {
      pos + bitCount <= size
    }

    function CanReadBits(bitCount: nat): (r: bool)
      requires Valid()
      reads this
      ensures r <==> bitCount <= size - pos
    {
      pos + bitCount <= size
    }

    /** Whether `byteCount` more whole bytes fit after the cursor. */
    function CanWriteBytes(byteCount: nat): (r: bool)
      requires Valid()
      reads this
      ensures r <==> byteCount <= (size - pos) / 8
    {
      CanWriteBits(byteCount * 8)
    }

    function CanReadBytes(byteCount: nat): (r: bool)
      requires Valid()
      reads this
      ensures r <==> byteCount <= (size - pos) / 8
    {
      CanReadBits(byteCount * 8)
    }

    // -------------------------------------------------------------------
    // The primitive engine.
    // -------------------------------------------------------------------

    /**
     * Puts the low `bits` bits of `value` at the cursor and advances it.
     * Only the byte of the cursor changes, and the next one when the field
     * does not fit in the rest of that byte.
     */
    method InWriteByte(value: bv8, bits: nat) returns (o: Outcome)
      requires Valid()
      modifies this, buf
      ensures Valid() && buf == old(buf) && size == old(size)
      ensures !(1 <= bits <= 8) ==> o == Fail(InvalidBitCount)
      ensures 1 <= bits <= 8 ==> (o == Pass <==> old(pos) + bits <= size)
      ensures 1 <= bits <= 8 && o != Pass ==> o == Fail(OutOfBounds)
      ensures o == Pass ==> (old(pos) + bits <= size && pos == old(pos) + bits &&
        Stream() == Put(old(Stream()), old(pos), ByteBits(value, bits)))
      ensures o != Pass ==> pos == old(pos) && buf[..] == old(buf[..])
      ensures forall k | 0 <= k < buf.Length && k != old(pos) / 8 && !(k == old(pos) / 8 + 1 && old(pos) % 8 + bits > 8) ::
        buf[k] == old(buf[k])
    {
      if bits < 1 || bits > 8 {
        return Fail(InvalidBitCount);
      }
      if pos + bits > size {
        return Fail(OutOfBounds);
      }
      var p, used := pos / 8, pos % 8;
      ghost var s := Stream();
      WriteAt(p, used, value, bits, s, pos);
      pos := pos + bits;
      o := Pass;
    }

    /** Stores a field of `bits` bits at bit `used` of byte `p`, by the three branches of `InWriteByte`. */
    method WriteAt(p: nat, used: nat, value: bv8, bits: nat, ghost s: seq<bool>, ghost at: nat)
      requires Valid() && s == Stream() && at == 8 * p + used && used < 8 && 1 <= bits <= 8 && at + bits <= size
      modifies buf
      ensures Stream() == Put(s, at, ByteBits(value, bits))
      ensures forall k | 0 <= k < buf.Length && k != p && !(k == p + 1 && used + bits > 8) :: buf[k] == old(buf[k])
    {
      if used == 0 {
        WriteAligned(p, value, bits, s, at);
      } else if bits <= 8 - used {
        WriteWithin(p, used, value, bits, s, at);
      } else {
        WriteAcross(p, used, value, bits, s, at);
      }
    }

    /** The aligned branch of `InWriteByte`: the whole byte is stored. */
    method WriteAligned(p: nat, value: bv8, bits: nat, ghost s: seq<bool>, ghost at: nat)
      requires Valid() && s == Stream() && at == 8 * p && p < buf.Length && 1 <= bits <= 8
      modifies buf
      ensures Stream() == Put(s, at, ByteBits(value, bits))
      ensures forall k | 0 <= k < buf.Length && k != p :: buf[k] == old(buf[k])
    {
      ghost var before := buf[..];
      var x := Masked(value, bits);
      AlignedWrite(before, p, value, bits, x);
      StoreOne(p, x);
      assert Stream() == StreamOf(before[p := x]);
    }

    /** The branch of `InWriteByte` for a field that ends inside byte `p`. */
    method WriteWithin(p: nat, used: nat, value: bv8, bits: nat, ghost s: seq<bool>, ghost at: nat)
      requires Valid() && s == Stream() && at == 8 * p + used && p < buf.Length && 1 <= used <= 7 && 1 <= bits <= 8 - used
      modifies buf
      ensures Stream() == Put(s, at, ByteBits(value, bits))
      ensures forall k | 0 <= k < buf.Length && k != p :: buf[k] == old(buf[k])
    {
      ghost var before := buf[..];
      var x := WithinStore(buf[p], value, used, bits, before, p);
      StoreOne(p, x);
      assert Stream() == StreamOf(before[p := x]);
    }

    /** The branch of `InWriteByte` for a field that runs into byte `p + 1`. */
    method WriteAcross(p: nat, used: nat, value: bv8, bits: nat, ghost s: seq<bool>, ghost at: nat)
      requires Valid() && s == Stream() && at == 8 * p + used && p + 1 < buf.Length && 1 <= used <= 7 && 8 - used < bits <= 8
      modifies buf
      ensures Stream() == Put(s, at, ByteBits(value, bits))
      ensures forall k | 0 <= k < buf.Length && k != p && k != p + 1 :: buf[k] == old(buf[k])
    {
      ghost var before := buf[..];
      var x0, x1 := AcrossStore(buf[p], buf[p + 1], value, used, bits, before, p);
      StoreTwo(p, x0, x1);
      assert Stream() == StreamOf(before[p := x0][p + 1 := x1]);
    }

    /** Stores `x` as byte `p`. */
    method StoreOne(p: nat, x: bv8)
      requires p < buf.Length
      modifies buf
      ensures buf[..] == old(buf[..])[p := x]
      ensures forall k | 0 <= k < buf.Length && k != p :: buf[k] == old(buf[k])
    {
      buf[p] := x;
    }

    /** Stores `x0` and `x1` as bytes `p` and `p + 1`. */
    method StoreTwo(p: nat, x0: bv8, x1: bv8)
      requires p + 1 < buf.Length
      modifies buf
      ensures buf[..] == old(buf[..])[p := x0][p + 1 := x1]
      ensures forall k | 0 <= k < buf.Length && k != p && k != p + 1 :: buf[k] == old(buf[k])
    {
      buf[p] := x0;
      buf[p + 1] := x1;
    }

    /**
     * Reads `bits` bits at the cursor into the low bits of a byte and
     * advances the cursor. The bytes are not changed.
     */
    method InReadByte(bits: nat) returns (r: Result<bv8>)
      requires Valid()
      modifies this
      ensures Valid() && buf == old(buf) && size == old(size) && buf[..] == old(buf[..]) && Stream() == old(Stream())
      ensures !(1 <= bits <= 8) ==> r == Err(InvalidBitCount)
      ensures 1 <= bits <= 8 ==> (r.Ok? <==> old(pos) + bits <= size)
      ensures 1 <= bits <= 8 && r.Err? ==> r == Err(OutOfBounds)
      ensures r.Ok? ==> (old(pos) + bits <= size && pos == old(pos) + bits &&
        r.value as int == Value(Stream()[old(pos)..old(pos) + bits]))
      ensures r.Err? ==> pos == old(pos)
    {
      if bits < 1 || bits > 8 {
        return Err(InvalidBitCount);
      }
      if pos + bits > size {
        return Err(OutOfBounds);
      }
      var p, used := pos / 8, pos % 8;
      ghost var s := Stream();
      var x := ReadAt(p, used, bits, s, pos);
      pos := pos + bits;
      assert Stream() == s;
      r := Ok(x);
    }

    /** The byte of a read of `bits` bits at bit `used` of byte `p`, by the three branches of `InReadByte`. */
    method ReadAt(p: nat, used: nat, bits: nat, ghost s: seq<bool>, ghost at: nat) returns (x: bv8)
      requires Valid() && s == Stream() && at == 8 * p + used && used < 8 && 1 <= bits <= 8 && at + bits <= size
      ensures ByteBits(x, 8) == s[at..at + bits] + Zeros(8 - bits)
      ensures x as int == Value(s[at..at + bits])
    {
      if used == 0 && bits == 8 {
        x := ReadAligned(p, used, bits, s, at);
      } else if bits <= 8 - used {
        x := ReadWithin(p, used, bits, s, at);
      } else {
        x := ReadAcross(p, used, bits, s, at);
      }
    }

    /** The branch of `InReadByte` for a whole aligned byte. */
    method ReadAligned(p: nat, used: nat, bits: nat, ghost s: seq<bool>, ghost at: nat) returns (x: bv8)
      requires Valid() && s == Stream() && at == 8 * p + used && p < buf.Length && used == 0 && bits == 8
      ensures ByteBits(x, 8) == s[at..at + bits] + Zeros(8 - bits)
      ensures x as int == Value(s[at..at + bits])
    {
      x := buf[p];
      AlignedRead(buf[..], p);
      ByteValue(x, s[at..at + bits]);
    }

    /** The branch of `InReadByte` for a field inside byte `p` (`remainder < 1`). */
    method ReadWithin(p: nat, used: nat, bits: nat, ghost s: seq<bool>, ghost at: nat) returns (x: bv8)
      requires Valid() && s == Stream() && at == 8 * p + used && p < buf.Length && used <= 7 && 1 <= bits <= 8 - used
      ensures ByteBits(x, 8) == s[at..at + bits] + Zeros(8 - bits)
      ensures x as int == Value(s[at..at + bits])
    {
      x := FitReadByte(buf[p], used, bits);
      FitRead(buf[..], p, used, bits, x);
      ByteValue(x, s[at..at + bits]);
    }

    /** The branch of `InReadByte` for a field that runs into byte `p + 1`. */
    method ReadAcross(p: nat, used: nat, bits: nat, ghost s: seq<bool>, ghost at: nat) returns (x: bv8)
      requires Valid() && s == Stream() && at == 8 * p + used && p + 1 < buf.Length && 1 <= used <= 7 && 8 - used < bits <= 8
      ensures ByteBits(x, 8) == s[at..at + bits] + Zeros(8 - bits)
      ensures x as int == Value(s[at..at + bits])
    {
      x := SpanReadByte(buf[p], buf[p + 1], used, bits);
      SpanRead(buf[..], p, used, bits, x);
      ByteValue(x, s[at..at + bits]);
    }

    // -------------------------------------------------------------------
    // Fields of several bytes, written and read one byte at a time.
    // -------------------------------------------------------------------

    /**
     * Writes `m` bits of byte `k` of the field `v`, `(v >> 8k) as u8`, as
     * one step of writing a field of `total` bits at `at`.
     */
    method WriteFieldByte(v: nat, k: nat, m: nat, ghost s0: seq<bool>, ghost at: nat, ghost done: nat, ghost n: nat,
                          ghost total: nat)
      returns (o: Outcome)
      requires Valid() && done == 8 * k && n == done + m && n <= total && 1 <= m <= 8
      requires Written(Stream(), pos, s0, at, v, done)
      modifies this, buf
      ensures Valid() && buf == old(buf) && size == old(size)
      ensures Writing(o, Stream(), pos, s0, at, v, n, total, size)
    {
      ghost var s1, p1 := Stream(), pos;
      o := InWriteByte(ByteOf(v, k), m);
      if o == Pass {
        WrittenNext(s0, s1, p1, Stream(), pos, at, v, k, m, n);
      }
    }

    /**
     * Reads `m` bits as byte `k` of a field of `total` bits and adds them
     * to `acc`: `acc | (b << 8k)`.
     */
    method ReadFieldByte(k: nat, m: nat, acc: nat, ghost s0: seq<bool>, ghost at: nat, ghost done: nat, ghost n: nat,
                         ghost total: nat)
      returns (r: Result<nat>)
      requires Valid() && done == 8 * k && n == done + m && n <= total && 1 <= m <= 8
      requires ReadFrom(Stream(), pos, s0, at, acc, done)
      modifies this
      ensures Valid() && buf == old(buf) && size == old(size) && Stream() == s0
      ensures Reading(r, Stream(), pos, s0, at, n, total, size)
    {
      ghost var s1, p1 := Stream(), pos;
      var b := InReadByte(m);
      if b.Err? {
        return Err(b.error);
      }
      ReadNext(s1, Stream(), p1, pos, s0, at, acc, k, m, b.value, done, n);
      r := Ok(acc + Pow2(8 * k) * (b.value as int));
    }

    // -------------------------------------------------------------------
    // 16-bit fields.
    // -------------------------------------------------------------------

    /**
     * Writes the low `bits` bits of `value`, low byte first. A bit count
     * outside 1..16 writes nothing.
     */
    method WriteU16Part(value: U16, bits: nat) returns (o: Outcome)
      requires Valid()
      modifies this, buf
      ensures Valid() && buf == old(buf) && size == old(size)
      ensures !(1 <= bits <= 16) ==> (o == Fail(InvalidBitCount) && pos == old(pos) && buf[..] == old(buf[..]))
      ensures 1 <= bits <= 16 ==> (o == Pass <==> old(pos) + bits <= size)
      ensures 1 <= bits <= 16 && o != Pass ==> o == Fail(OutOfBounds)
      ensures o != Pass ==> pos == old(pos) && buf[..] == old(buf[..])
      ensures o == Pass ==> (pos == old(pos) + bits &&
        Stream() == Put(old(Stream()), old(pos), LowBits(value, bits)))
    {
      if 1 <= bits <= 16 && pos + bits > size {
        return Fail(OutOfBounds);
      }
      ghost var s0, at := Stream(), pos;
      StartWrite(s0, at, value);
      match (bits + 7) / 8 {
        case 1 =>
          o := WriteFieldByte(value, 0, bits, s0, at, 0, bits, bits);
        case 2 =>
          o := WriteFieldByte(value, 0, 8, s0, at, 0, 8, bits);
          if o == Pass {
            o := WriteFieldByte(value, 1, bits - 8, s0, at, 8, bits, bits);
          }
        case _ =>
          o := Fail(InvalidBitCount);
      }
    }

    /**
     * Reads a `bits`-bit field, low byte first. A bit count outside 1..16
     * reads nothing.
     */
    method ReadU16Part(bits: nat) returns (r: Result<U16>)
      requires Valid()
      modifies this
      ensures Valid() && buf == old(buf) && size == old(size) && Stream() == old(Stream())
      ensures !(1 <= bits <= 16) ==> (r == Err(InvalidBitCount) && pos == old(pos))
      ensures 1 <= bits <= 16 ==> (r.Ok? <==> old(pos) + bits <= size)
      ensures 1 <= bits <= 16 && r.Err? ==> r == Err(OutOfBounds)
      ensures r.Err? ==> pos == old(pos)
      ensures r.Ok? ==> (pos == old(pos) + bits && r.value == Value(Stream()[old(pos)..old(pos) + bits]))
    {
      if 1 <= bits <= 16 && pos + bits > size {
        return Err(OutOfBounds);
      }
      ghost var s0, at := Stream(), pos;
      var a: Result<nat>;
      match (bits + 7) / 8 {
        case 1 =>
          a := ReadFieldByte(0, bits, 0, s0, at, 0, bits, bits);
        case 2 =>
          a := ReadFieldByte(0, 8, 0, s0, at, 0, 8, bits);
          if a.Ok? {
            a := ReadFieldByte(1, bits - 8, a.value, s0, at, 8, bits, bits);
          }
        case _ =>
          return Err(InvalidBitCount);
      }
      ReadBound(Stream(), pos, s0, at, a.value, bits, 16);
      r := Ok(a.value);
    }

    /** Writes all sixteen bits of `value`. */
    method WriteU16(value: U16) returns (o: Outcome)
      requires Valid()
      modifies this, buf
      ensures Valid() && buf == old(buf) && size == old(size)
      ensures o == Pass <==> old(pos) + 16 <= size
      ensures o != Pass ==> o == Fail(OutOfBounds) && pos == old(pos) && buf[..] == old(buf[..])
      ensures o == Pass ==> (pos == old(pos) + 16 && Stream() == Put(old(Stream()), old(pos), LowBits(value, 16)))
    {
      o := WriteU16Part(value, 16);
    }

    /** Reads a sixteen-bit field. */
    method ReadU16() returns (r: Result<U16>)
      requires Valid()
      modifies this
      ensures Valid() && buf == old(buf) && size == old(size) && Stream() == old(Stream())
      ensures r.Ok? <==> old(pos) + 16 <= size
      ensures r.Err? ==> r == Err(OutOfBounds) && pos == old(pos)
      ensures r.Ok? ==> (pos == old(pos) + 16 && r.value == Value(Stream()[old(pos)..old(pos) + 16]))
    {
      r := ReadU16Part(16);
    }

    // -------------------------------------------------------------------
    // 32-bit fields.
    // -------------------------------------------------------------------

    /**
     * Writes the low `bits` bits of `value`, low byte first. A bit count
     * outside 1..32 writes nothing.
     */
    method WriteU32Part(value: U32, bits: nat) returns (o: Outcome)
      requires Valid()
      modifies this, buf
      ensures Valid() && buf == old(buf) && size == old(size)
      ensures !(1 <= bits <= 32) ==> (o == Fail(InvalidBitCount) && pos == old(pos) && buf[..] == old(buf[..]))
      ensures 1 <= bits <= 32 ==> (o == Pass <==> old(pos) + bits <= size)
      ensures 1 <= bits <= 32 && o != Pass ==> o == Fail(OutOfBounds)
      ensures o != Pass ==> pos == old(pos) && buf[..] == old(buf[..])
      ensures o == Pass ==> (pos == old(pos) + bits &&
        Stream() == Put(old(Stream()), old(pos), LowBits(value, bits)))
    {
      if bits < 1 || bits > 32 {
        return Fail(InvalidBitCount);
      }
      if pos + bits > size {
        return Fail(OutOfBounds);
      }
      ghost var s0, at := Stream(), pos;
      StartWrite(s0, at, value);
      o := WriteU32Bytes(value, bits, s0, at);
    }

    /** The byte writes of `WriteU32Part`, by the number of bytes the field spans. */
    method WriteU32Bytes(value: U32, bits: nat, ghost s0: seq<bool>, ghost at: nat) returns (o: Outcome)
      requires Valid() && 1 <= bits <= 32 && Written(Stream(), pos, s0, at, value, 0)
      modifies this, buf
      ensures Valid() && buf == old(buf) && size == old(size)
      ensures Writing(o, Stream(), pos, s0, at, value, bits, bits, size)
    {
      match (bits + 7) / 8 {
        case 1 =>
          o := WriteFieldByte(value, 0, bits, s0, at, 0, bits, bits);
        case 2 =>
          o := WriteFieldByte(value, 0, 8, s0, at, 0, 8, bits);
          if o == Pass {
            o := WriteFieldByte(value, 1, bits - 8, s0, at, 8, bits, bits);
          }
        case 3 =>
          o := WriteFieldByte(value, 0, 8, s0, at, 0, 8, bits);
          if o == Pass {
            o := WriteFieldByte(value, 1, 8, s0, at, 8, 16, bits);
          }
          if o == Pass {
            o := WriteFieldByte(value, 2, bits - 16, s0, at, 16, bits, bits);
          }
        case 4 =>
          o := WriteFieldByte(value, 0, 8, s0, at, 0, 8, bits);
          if o == Pass {
            o := WriteFieldByte(value, 1, 8, s0, at, 8, 16, bits);
          }
          if o == Pass {
            o := WriteFieldByte(value, 2, 8, s0, at, 16, 24, bits);
          }
          if o == Pass {
            o := WriteFieldByte(value, 3, bits - 24, s0, at, 24, bits, bits);
          }
      }
    }

    /**
     * Reads a `bits`-bit field, low byte first. A bit count outside 1..32
     * reads nothing.
     */
    method ReadU32Part(bits: nat) returns (r: Result<U32>)
      requires Valid()
      modifies this
      ensures Valid() && buf == old(buf) && size == old(size) && Stream() == old(Stream())
      ensures !(1 <= bits <= 32) ==> (r == Err(InvalidBitCount) && pos == old(pos))
      ensures 1 <= bits <= 32 ==> (r.Ok? <==> old(pos) + bits <= size)
      ensures 1 <= bits <= 32 && r.Err? ==> r == Err(OutOfBounds)
      ensures r.Err? ==> pos == old(pos)
      ensures r.Ok? ==> (pos == old(pos) + bits && r.value == Value(Stream()[old(pos)..old(pos) + bits]))
    {
      if bits < 1 || bits > 32 {
        return Err(InvalidBitCount);
      }
      if pos + bits > size {
        return Err(OutOfBounds);
      }
      ghost var s0, at := Stream(), pos;
      var a := ReadU32Bytes(bits, s0, at);
      ReadBound(Stream(), pos, s0, at, a.value, bits, 32);
      r := Ok(a.value);
    }

    /** The byte reads of `ReadU32Part`, by the number of bytes the field spans. */
    method ReadU32Bytes(bits: nat, ghost s0: seq<bool>, ghost at: nat) returns (a: Result<nat>)
      requires Valid() && 1 <= bits <= 32 && s0 == Stream() && at == pos
      modifies this
      ensures Valid() && buf == old(buf) && size == old(size) && Stream() == s0
      ensures Reading(a, Stream(), pos, s0, at, bits, bits, size)
    {
      match (bits + 7) / 8 {
        case 1 =>
          a := ReadFieldByte(0, bits, 0, s0, at, 0, bits, bits);
        case 2 =>
          a := ReadFieldByte(0, 8, 0, s0, at, 0, 8, bits);
          if a.Ok? {
            a := ReadFieldByte(1, bits - 8, a.value, s0, at, 8, bits, bits);
          }
        case 3 =>
          a := ReadFieldByte(0, 8, 0, s0, at, 0, 8, bits);
          if a.Ok? {
            a := ReadFieldByte(1, 8, a.value, s0, at, 8, 16, bits);
          }
          if a.Ok? {
            a := ReadFieldByte(2, bits - 16, a.value, s0, at, 16, bits, bits);
          }
        case 4 =>
          a := ReadFieldByte(0, 8, 0, s0, at, 0, 8, bits);
          if a.Ok? {
            a := ReadFieldByte(1, 8, a.value, s0, at, 8, 16, bits);
          }
          if a.Ok? {
            a := ReadFieldByte(2, 8, a.value, s0, at, 16, 24, bits);
          }
          if a.Ok? {
            a := ReadFieldByte(3, bits - 24, a.value, s0, at, 24, bits, bits);
          }
      }
    }

    /** Writes all thirty-two bits of `value`. */
    method WriteU32(value: U32) returns (o: Outcome)
      requires Valid()
      modifies this, buf
      ensures Valid() && buf == old(buf) && size == old(size)
      ensures o == Pass <==> old(pos) + 32 <= size
      ensures o != Pass ==> o == Fail(OutOfBounds) && pos == old(pos) && buf[..] == old(buf[..])
      ensures o == Pass ==> (pos == old(pos) + 32 && Stream() == Put(old(Stream()), old(pos), LowBits(value, 32)))
    {
      o := WriteU32Part(value, 32);
    }

    /** Reads a thirty-two-bit field. */
    method ReadU32() returns (r: Result<U32>)
      requires Valid()
      modifies this
      ensures Valid() && buf == old(buf) && size == old(size) && Stream() == old(Stream())
      ensures r.Ok? <==> old(pos) + 32 <= size
      ensures r.Err? ==> r == Err(OutOfBounds) && pos == old(pos)
      ensures r.Ok? ==> (pos == old(pos) + 32 && r.value == Value(Stream()[old(pos)..old(pos) + 32]))
    {
      r := ReadU32Part(32);
    }

    // -------------------------------------------------------------------
    // 64-bit fields: two 32-bit halves, low half first.
    // -------------------------------------------------------------------

    /**
     * Writes the low `bits` bits of `value`. Up to 32 bits go out as one
     * 32-bit field; wider fields as the low 32 bits followed by the rest of
     * the field. A bit count above 64 writes the low half and then stops.
     */
    method WriteU64Part(value: U64, bits: nat) returns (o: Outcome)
      requires Valid()
      modifies this, buf
      ensures Valid() && buf == old(buf) && size == old(size)
      ensures bits == 0 ==> (o == Fail(InvalidBitCount) && pos == old(pos) && buf[..] == old(buf[..]))
      ensures 1 <= bits <= 64 ==> (o == Pass <==> old(pos) + bits <= size)
      ensures 1 <= bits <= 64 && o != Pass ==> o == Fail(OutOfBounds)
      ensures bits > 64 ==> o != Pass && (o == Fail(OutOfBounds) <==> old(pos) + 32 > size)
      ensures bits > 64 && old(pos) + 32 <= size ==> (o == Fail(InvalidBitCount) && pos == old(pos) + 32 &&
        Stream() == Put(old(Stream()), old(pos), LowBits(value, 32)))
      ensures o == Fail(OutOfBounds) ==> pos == old(pos) && buf[..] == old(buf[..])
      ensures o == Pass ==> (pos == old(pos) + bits &&
        Stream() == Put(old(Stream()), old(pos), LowBits(value, bits)))
    {
      if 1 <= bits && pos + PartReach(bits) > size {
        return Fail(OutOfBounds);
      }
      ghost var s0, at := Stream(), pos;
      if bits <= 32 {
        o := WriteU32Part(Low32(value), bits);
        if o == Pass {
          LowBitsMod(value, bits, 32);
        }
      } else {
        o := WriteU64Halves(value, bits, s0, at);
      }
    }

    /** The branch of `WriteU64Part` for more than 32 bits: the low half, then the rest. */
    method WriteU64Halves(value: U64, bits: nat, ghost s0: seq<bool>, ghost at: nat) returns (o: Outcome)
      requires Valid() && s0 == Stream() && at == pos && 32 < bits
      modifies this, buf
      ensures Valid() && buf == old(buf) && size == old(size)
      ensures WroteHalves(o, Stream(), pos, s0, at, value, bits, size)
    {
      o := WriteU32Part(Low32(value), 32);
      if o == Pass {
        LowBitsMod(value, 32, 32);
        o := WriteHighHalf(value, bits, s0, at);
      }
    }

    /** Writes the bits of `value` above its low 32, which are already written. */
    method WriteHighHalf(value: U64, bits: nat, ghost s0: seq<bool>, ghost at: nat) returns (o: Outcome)
      requires Valid() && 32 < bits && Written(Stream(), pos, s0, at, value, 32)
      modifies this, buf
      ensures Valid() && buf == old(buf) && size == old(size)
      ensures WroteHalves(o, Stream(), pos, s0, at, value, bits, size)
    {
      ghost var s1, p1 := Stream(), pos;
      o := WriteU32Part(High32(value), bits - 32);
      if bits > 64 {
        assert Stream() == s1;
      }
      HighHalfWritten(o, Stream(), pos, s1, p1, s0, at, value, bits, size);
    }

    /**
     * Reads a `bits`-bit field as `WriteU64Part` writes it. A bit count
     * above 64 reads the low half and then stops.
     */
    method ReadU64Part(bits: nat) returns (r: Result<U64>)
      requires Valid()
      modifies this
      ensures Valid() && buf == old(buf) && size == old(size) && Stream() == old(Stream())
      ensures bits == 0 ==> (r == Err(InvalidBitCount) && pos == old(pos))
      ensures 1 <= bits <= 64 ==> (r.Ok? <==> old(pos) + bits <= size)
      ensures 1 <= bits <= 64 && r.Err? ==> r == Err(OutOfBounds)
      ensures bits > 64 ==> r.Err? && (r == Err(OutOfBounds) <==> old(pos) + 32 > size)
      ensures bits > 64 && old(pos) + 32 <= size ==> pos == old(pos) + 32
      ensures r == Err(OutOfBounds) ==> pos == old(pos)
      ensures r.Ok? ==> (pos == old(pos) + bits && r.value == Value(Stream()[old(pos)..old(pos) + bits]))
    {
      if 1 <= bits && pos + PartReach(bits) > size {
        return Err(OutOfBounds);
      }
      ghost var s0, at := Stream(), pos;
      if bits <= 32 {
        var a := ReadU32Part(bits);
        if a.Err? {
          return Err(a.error);
        }
        r := Ok(Join64(a.value, 0));
      } else {
        r := ReadU64Halves(bits, s0, at);
      }
    }

    /** The branch of `ReadU64Part` for more than 32 bits: the low half, then the rest. */
    method ReadU64Halves(bits: nat, ghost s0: seq<bool>, ghost at: nat) returns (r: Result<U64>)
      requires Valid() && s0 == Stream() && at == pos && 32 < bits
      modifies this
      ensures Valid() && buf == old(buf) && size == old(size) && Stream() == s0
      ensures ReadHalves(r, pos, s0, at, bits, size)
    {
      var a := ReadU32Part(32);
      if a.Err? {
        return Err(a.error);
      }
      r := ReadHighHalf(a.value, bits, s0, at);
    }

    /** Reads the bits of a field above its low 32, which have been read as `lo`. */
    method ReadHighHalf(lo: U32, bits: nat, ghost s0: seq<bool>, ghost at: nat) returns (r: Result<U64>)
      requires Valid() && 32 < bits && ReadFrom(Stream(), pos, s0, at, lo, 32)
      modifies this
      ensures Valid() && buf == old(buf) && size == old(size) && Stream() == s0
      ensures ReadHalves(r, pos, s0, at, bits, size)
    {
      ghost var p1 := pos;
      var hi := ReadU32Part(bits - 32);
      if hi.Err? {
        return Err(hi.error);
      }
      ghost var s2 := Stream();
      ghost var v: nat := hi.value;
      assert v == Value(s2[p1..p1 + (bits - 32)]);
      JoinHalves(s0, s2, at, p1, bits, lo, v);
      r := Ok(Join64(lo, hi.value));
    }

    /** Writes all sixty-four bits of `value`. */
    method WriteU64(value: U64) returns (o: Outcome)
      requires Valid()
      modifies this, buf
      ensures Valid() && buf == old(buf) && size == old(size)
      ensures o == Pass <==> old(pos) + 64 <= size
      ensures o != Pass ==> o == Fail(OutOfBounds) && pos == old(pos) && buf[..] == old(buf[..])
      ensures o == Pass ==> (pos == old(pos) + 64 && Stream() == Put(old(Stream()), old(pos), LowBits(value, 64)))
    {
      o := WriteU64Part(value, 64);
    }

    /** Reads a sixty-four-bit field. */
    method ReadU64() returns (r: Result<U64>)
      requires Valid()
      modifies this
      ensures Valid() && buf == old(buf) && size == old(size) && Stream() == old(Stream())
      ensures r.Ok? <==> old(pos) + 64 <= size
      ensures r.Err? ==> r == Err(OutOfBounds) && pos == old(pos)
      ensures r.Ok? ==> (pos == old(pos) + 64 && r.value == Value(Stream()[old(pos)..old(pos) + 64]))
    {
      r := ReadU64Part(64);
    }

    // -------------------------------------------------------------------
    // Booleans and bytes: one access of the primitive engine.
    // -------------------------------------------------------------------

    /** Writes `value` as one bit. */
    method WriteBool(value: bool) returns (o: Outcome)
      requires Valid()
      modifies this, buf
      ensures Valid() && buf == old(buf) && size == old(size)
      ensures o == Pass <==> old(pos) + 1 <= size
      ensures o != Pass ==> o == Fail(OutOfBounds) && pos == old(pos) && buf[..] == old(buf[..])
      ensures o == Pass ==> (pos == old(pos) + 1 && Stream() == Put(old(Stream()), old(pos), [value]))
    {
      var b: bv8 := if value then 1 else 0;
      BoolBit(value, b);
      o := InWriteByte(b, 1);
    }

    /** Reads one bit: whether the byte read is 1. */
    method ReadBool() returns (r: Result<bool>)
      requires Valid()
      modifies this
      ensures Valid() && buf == old(buf) && size == old(size) && Stream() == old(Stream())
      ensures r.Ok? <==> old(pos) + 1 <= size
      ensures r.Err? ==> r == Err(OutOfBounds) && pos == old(pos)
      ensures r.Ok? ==> (pos == old(pos) + 1 && r.value == Stream()[old(pos)])
    {
      ghost var at := pos;
      var b := InReadByte(1);
      if b.Err? {
        return Err(b.error);
      }
      ghost var t := Stream()[at..at + 1];
      assert Value(t) == (if t[0] then 1 else 0) + 2 * Value(t[1..]);
      r := Ok(b.value == 1);
    }

    /** Writes the low `bits` bits of `value`. */
    method WriteU8Part(value: bv8, bits: nat) returns (o: Outcome)
      requires Valid()
      modifies this, buf
      ensures Valid() && buf == old(buf) && size == old(size)
      ensures !(1 <= bits <= 8) ==> o == Fail(InvalidBitCount)
      ensures 1 <= bits <= 8 ==> (o == Pass <==> old(pos) + bits <= size)
      ensures 1 <= bits <= 8 && o != Pass ==> o == Fail(OutOfBounds)
      ensures o != Pass ==> pos == old(pos) && buf[..] == old(buf[..])
      ensures o == Pass ==> (pos == old(pos) + bits &&
        Stream() == Put(old(Stream()), old(pos), LowBits(value as int, bits)))
    {
      o := InWriteByte(value, bits);
      if o == Pass {
        ByteBitsAreLowBits(value, bits);
      }
    }

    /** Reads a `bits`-bit field into the low bits of a byte. */
    method ReadU8Part(bits: nat) returns (r: Result<bv8>)
      requires Valid()
      modifies this
      ensures Valid() && buf == old(buf) && size == old(size) && Stream() == old(Stream())
      ensures !(1 <= bits <= 8) ==> r == Err(InvalidBitCount)
      ensures 1 <= bits <= 8 ==> (r.Ok? <==> old(pos) + bits <= size)
      ensures 1 <= bits <= 8 && r.Err? ==> r == Err(OutOfBounds)
      ensures r.Err? ==> pos == old(pos)
      ensures r.Ok? ==> (pos == old(pos) + bits && r.value as int == Value(Stream()[old(pos)..old(pos) + bits]))
    {
      r := InReadByte(bits);
    }

    /** Writes all eight bits of `value`. */
    method WriteU8(value: bv8) returns (o: Outcome)
      requires Valid()
      modifies this, buf
      ensures Valid() && buf == old(buf) && size == old(size)
      ensures o == Pass <==> old(pos) + 8 <= size
      ensures o != Pass ==> o == Fail(OutOfBounds) && pos == old(pos) && buf[..] == old(buf[..])
      ensures o == Pass ==> (pos == old(pos) + 8 && Stream() == Put(old(Stream()), old(pos), LowBits(value as int, 8)))
    {
      o := WriteU8Part(value, 8);
    }

    /** Reads an eight-bit field. */
    method ReadU8() returns (r: Result<bv8>)
      requires Valid()
      modifies this
      ensures Valid() && buf == old(buf) && size == old(size) && Stream() == old(Stream())
      ensures r.Ok? <==> old(pos) + 8 <= size
      ensures r.Err? ==> r == Err(OutOfBounds) && pos == old(pos)
      ensures r.Ok? ==> (pos == old(pos) + 8 && r.value as int == Value(Stream()[old(pos)..old(pos) + 8]))
    {
      r := ReadU8Part(8);
    }

    /** Writes the low `bits` bits of the pattern of `value`, `value as u8`. */
    method WriteI8Part(value: I8, bits: nat) returns (o: Outcome)
      requires Valid()
      modifies this, buf
      ensures Valid() && buf == old(buf) && size == old(size)
      ensures !(1 <= bits <= 8) ==> o == Fail(InvalidBitCount)
      ensures 1 <= bits <= 8 ==> (o == Pass <==> old(pos) + bits <= size)
      ensures 1 <= bits <= 8 && o != Pass ==> o == Fail(OutOfBounds)
      ensures o != Pass ==> pos == old(pos) && buf[..] == old(buf[..])
      ensures o == Pass ==> (pos == old(pos) + bits &&
        Stream() == Put(old(Stream()), old(pos), LowBits(ToUnsigned(value, 8), bits)))
    {
      Pow2Byte();
      var u := ToUnsigned(value, 8);
      o := InWriteByte(FromNat(u), bits);
      if o == Pass {
        FromNatBits(u, bits);
      }
    }

    /** Reads a `bits`-bit field as the pattern of an `i8`, `as i8`. */
    method ReadI8Part(bits: nat) returns (r: Result<I8>)
      requires Valid()
      modifies this
      ensures Valid() && buf == old(buf) && size == old(size) && Stream() == old(Stream())
      ensures !(1 <= bits <= 8) ==> r == Err(InvalidBitCount)
      ensures 1 <= bits <= 8 ==> (r.Ok? <==> old(pos) + bits <= size)
      ensures 1 <= bits <= 8 && r.Err? ==> r == Err(OutOfBounds)
      ensures r.Err? ==> pos == old(pos)
      ensures r.Ok? ==> (pos == old(pos) + bits &&
        ToUnsigned(r.value, 8) == Value(Stream()[old(pos)..old(pos) + bits]))
    {
      Pow2Byte();
      var b := InReadByte(bits);
      if b.Err? {
        return Err(b.error);
      }
      var u := b.value as int;
      UnsignedRoundTrip(u, 8);
      r := Ok(FromUnsigned(u, 8));
    }

    /** Writes all eight bits of the pattern of `value`. */
    method WriteI8(value: I8) returns (o: Outcome)
      requires Valid()
      modifies this, buf
      ensures Valid() && buf == old(buf) && size == old(size)
      ensures o == Pass <==> old(pos) + 8 <= size
      ensures o != Pass ==> o == Fail(OutOfBounds) && pos == old(pos) && buf[..] == old(buf[..])
      ensures o == Pass ==> (pos == old(pos) + 8 &&
        Stream() == Put(old(Stream()), old(pos), LowBits(ToUnsigned(value, 8), 8)))
    {
      o := WriteI8Part(value, 8);
    }

    /** Reads an `i8`. */
    method ReadI8() returns (r: Result<I8>)
      requires Valid()
      modifies this
      ensures Valid() && buf == old(buf) && size == old(size) && Stream() == old(Stream())
      ensures r.Ok? <==> old(pos) + 8 <= size
      ensures r.Err? ==> r == Err(OutOfBounds) && pos == old(pos)
      ensures r.Ok? ==> (pos == old(pos) + 8 &&
        ToUnsigned(r.value, 8) == Value(Stream()[old(pos)..old(pos) + 8]))
    {
      r := ReadI8Part(8);
    }

    // -------------------------------------------------------------------
    // Signed fields of 16, 32 and 64 bits: the unsigned codecs applied to
    // the two's complement pattern.
    // -------------------------------------------------------------------

    /** Writes the low `bits` bits of the pattern of `value`, `value as u16`. */
    method WriteI16Part(value: I16, bits: nat) returns (o: Outcome)
      requires Valid()
      modifies this, buf
      ensures Valid() && buf == old(buf) && size == old(size)
      ensures !(1 <= bits <= 16) ==> (o == Fail(InvalidBitCount) && pos == old(pos) && buf[..] == old(buf[..]))
      ensures 1 <= bits <= 16 ==> (o == Pass <==> old(pos) + bits <= size)
      ensures 1 <= bits <= 16 && o != Pass ==> o == Fail(OutOfBounds)
      ensures o != Pass ==> pos == old(pos) && buf[..] == old(buf[..])
      ensures o == Pass ==> (pos == old(pos) + bits &&
        Stream() == Put(old(Stream()), old(pos), LowBits(ToUnsigned(value, 16), bits)))
    {
      o := WriteU16Part(ToUnsigned(value, 16), bits);
    }

    /** Reads a `bits`-bit field as the pattern of an `i16`. */
    method ReadI16Part(bits: nat) returns (r: Result<I16>)
      requires Valid()
      modifies this
      ensures Valid() && buf == old(buf) && size == old(size) && Stream() == old(Stream())
      ensures !(1 <= bits <= 16) ==> (r == Err(InvalidBitCount) && pos == old(pos))
      ensures 1 <= bits <= 16 ==> (r.Ok? <==> old(pos) + bits <= size)
      ensures 1 <= bits <= 16 && r.Err? ==> r == Err(OutOfBounds)
      ensures r.Err? ==> pos == old(pos)
      ensures r.Ok? ==> (pos == old(pos) + bits &&
        ToUnsigned(r.value, 16) == Value(Stream()[old(pos)..old(pos) + bits]))
    {
      var a := ReadU16Part(bits);
      if a.Err? {
        return Err(a.error);
      }
      UnsignedRoundTrip(a.value, 16);
      r := Ok(FromUnsigned(a.value, 16));
    }

    /** Writes all sixteen bits of the pattern of `value`. */
    method WriteI16(value: I16) returns (o: Outcome)
      requires Valid()
      modifies this, buf
      ensures Valid() && buf == old(buf) && size == old(size)
      ensures o == Pass <==> old(pos) + 16 <= size
      ensures o != Pass ==> o == Fail(OutOfBounds) && pos == old(pos) && buf[..] == old(buf[..])
      ensures o == Pass ==> (pos == old(pos) + 16 &&
        Stream() == Put(old(Stream()), old(pos), LowBits(ToUnsigned(value, 16), 16)))
    {
      o := WriteI16Part(value, 16);
    }

    /** Reads an `i16`. */
    method ReadI16() returns (r: Result<I16>)
      requires Valid()
      modifies this
      ensures Valid() && buf == old(buf) && size == old(size) && Stream() == old(Stream())
      ensures r.Ok? <==> old(pos) + 16 <= size
      ensures r.Err? ==> r == Err(OutOfBounds) && pos == old(pos)
      ensures r.Ok? ==> (pos == old(pos) + 16 &&
        ToUnsigned(r.value, 16) == Value(Stream()[old(pos)..old(pos) + 16]))
    {
      r := ReadI16Part(16);
    }

    /** Writes the low `bits` bits of the pattern of `value`, `value as u32`. */
    method WriteI32Part(value: I32, bits: nat) returns (o: Outcome)
      requires Valid()
      modifies this, buf
      ensures Valid() && buf == old(buf) && size == old(size)
      ensures !(1 <= bits <= 32) ==> (o == Fail(InvalidBitCount) && pos == old(pos) && buf[..] == old(buf[..]))
      ensures 1 <= bits <= 32 ==> (o == Pass <==> old(pos) + bits <= size)
      ensures 1 <= bits <= 32 && o != Pass ==> o == Fail(OutOfBounds)
      ensures o != Pass ==> pos == old(pos) && buf[..] == old(buf[..])
      ensures o == Pass ==> (pos == old(pos) + bits &&
        Stream() == Put(old(Stream()), old(pos), LowBits(ToUnsigned(value, 32), bits)))
    {
      o := WriteU32Part(ToUnsigned(value, 32), bits);
    }

    /** Reads a `bits`-bit field as the pattern of an `i32`. */
    method ReadI32Part(bits: nat) returns (r: Result<I32>)
      requires Valid()
      modifies this
      ensures Valid() && buf == old(buf) && size == old(size) && Stream() == old(Stream())
      ensures !(1 <= bits <= 32) ==> (r == Err(InvalidBitCount) && pos == old(pos))
      ensures 1 <= bits <= 32 ==> (r.Ok? <==> old(pos) + bits <= size)
      ensures 1 <= bits <= 32 && r.Err? ==> r == Err(OutOfBounds)
      ensures r.Err? ==> pos == old(pos)
      ensures r.Ok? ==> (pos == old(pos) + bits &&
        ToUnsigned(r.value, 32) == Value(Stream()[old(pos)..old(pos) + bits]))
    {
      var a := ReadU32Part(bits);
      if a.Err? {
        return Err(a.error);
      }
      UnsignedRoundTrip(a.value, 32);
      r := Ok(FromUnsigned(a.value, 32));
    }

    /** Writes all thirty-two bits of the pattern of `value`. */
    method WriteI32(value: I32) returns (o: Outcome)
      requires Valid()
      modifies this, buf
      ensures Valid() && buf == old(buf) && size == old(size)
      ensures o == Pass <==> old(pos) + 32 <= size
      ensures o != Pass ==> o == Fail(OutOfBounds) && pos == old(pos) && buf[..] == old(buf[..])
      ensures o == Pass ==> (pos == old(pos) + 32 &&
        Stream() == Put(old(Stream()), old(pos), LowBits(ToUnsigned(value, 32), 32)))
    {
      o := WriteI32Part(value, 32);
    }

    /** Reads an `i32`. */
    method ReadI32() returns (r: Result<I32>)
      requires Valid()
      modifies this
      ensures Valid() && buf == old(buf) && size == old(size) && Stream() == old(Stream())
      ensures r.Ok? <==> old(pos) + 32 <= size
      ensures r.Err? ==> r == Err(OutOfBounds) && pos == old(pos)
      ensures r.Ok? ==> (pos == old(pos) + 32 &&
        ToUnsigned(r.value, 32) == Value(Stream()[old(pos)..old(pos) + 32]))
    {
      r := ReadI32Part(32);
    }

    /** Writes the low `bits` bits of the pattern of `value`, `value as u64`, as `WriteU64Part` does. */
    method WriteI64Part(value: I64, bits: nat) returns (o: Outcome)
      requires Valid()
      modifies this, buf
      ensures Valid() && buf == old(buf) && size == old(size)
      ensures bits == 0 ==> (o == Fail(InvalidBitCount) && pos == old(pos) && buf[..] == old(buf[..]))
      ensures 1 <= bits <= 64 ==> (o == Pass <==> old(pos) + bits <= size)
      ensures 1 <= bits <= 64 && o != Pass ==> o == Fail(OutOfBounds)
      ensures bits > 64 ==> o != Pass && (o == Fail(OutOfBounds) <==> old(pos) + 32 > size)
      ensures bits > 64 && old(pos) + 32 <= size ==> (o == Fail(InvalidBitCount) && pos == old(pos) + 32 &&
        Stream() == Put(old(Stream()), old(pos), LowBits(ToUnsigned(value, 64), 32)))
      ensures o == Fail(OutOfBounds) ==> pos == old(pos) && buf[..] == old(buf[..])
      ensures o == Pass ==> (pos == old(pos) + bits &&
        Stream() == Put(old(Stream()), old(pos), LowBits(ToUnsigned(value, 64), bits)))
    {
      o := WriteU64Part(ToUnsigned(value, 64), bits);
    }

    /** Reads a `bits`-bit field as the pattern of an `i64`, as `ReadU64Part` does. */
    method ReadI64Part(bits: nat) returns (r: Result<I64>)
      requires Valid()
      modifies this
      ensures Valid() && buf == old(buf) && size == old(size) && Stream() == old(Stream())
      ensures bits == 0 ==> (r == Err(InvalidBitCount) && pos == old(pos))
      ensures 1 <= bits <= 64 ==> (r.Ok? <==> old(pos) + bits <= size)
      ensures 1 <= bits <= 64 && r.Err? ==> r == Err(OutOfBounds)
      ensures bits > 64 ==> r.Err? && (r == Err(OutOfBounds) <==> old(pos) + 32 > size)
      ensures bits > 64 && old(pos) + 32 <= size ==> pos == old(pos) + 32
      ensures r == Err(OutOfBounds) ==> pos == old(pos)
      ensures r.Ok? ==> (pos == old(pos) + bits &&
        ToUnsigned(r.value, 64) == Value(Stream()[old(pos)..old(pos) + bits]))
    {
      var a := ReadU64Part(bits);
      if a.Err? {
        return Err(a.error);
      }
      UnsignedRoundTrip(a.value, 64);
      r := Ok(FromUnsigned(a.value, 64));
    }

    /** Writes all sixty-four bits of the pattern of `value`. */
    method WriteI64(value: I64) returns (o: Outcome)
      requires Valid()
      modifies this, buf
      ensures Valid() && buf == old(buf) && size == old(size)
      ensures o == Pass <==> old(pos) + 64 <= size
      ensures o != Pass ==> o == Fail(OutOfBounds) && pos == old(pos) && buf[..] == old(buf[..])
      ensures o == Pass ==> (pos == old(pos) + 64 &&
        Stream() == Put(old(Stream()), old(pos), LowBits(ToUnsigned(value, 64), 64)))
    {
      o := WriteU64Part(ToUnsigned(value, 64), 64);
    }

    /** Reads an `i64`. */
    method ReadI64() returns (r: Result<I64>)
      requires Valid()
      modifies this
      ensures Valid() && buf == old(buf) && size == old(size) && Stream() == old(Stream())
      ensures r.Ok? <==> old(pos) + 64 <= size
      ensures r.Err? ==> r == Err(OutOfBounds) && pos == old(pos)
      ensures r.Ok? ==> (pos == old(pos) + 64 &&
        ToUnsigned(r.value, 64) == Value(Stream()[old(pos)..old(pos) + 64]))
    {
      var a := ReadU64Part(64);
      if a.Err? {
        return Err(a.error);
      }
      UnsignedRoundTrip(a.value, 64);
      r := Ok(FromUnsigned(a.value, 64));
    }

    // -------------------------------------------------------------------
    // Runs of whole bytes: floating point values, byte slices, strings.
    // -------------------------------------------------------------------

    /** Writes the whole byte `b` after the bytes `bs` written from `at`, as part of a run of `total` bits. */
    method WriteNextByte(b: bv8, ghost s0: seq<bool>, ghost at: nat, ghost bs: seq<bv8>, ghost total: nat)
      returns (o: Outcome)
      requires Valid() && 8 * (|bs| + 1) <= total && WroteBytes(Stream(), pos, s0, at, bs)
      modifies this, buf
      ensures Valid() && buf == old(buf) && size == old(size)
      ensures WritingBytes(o, Stream(), pos, s0, at, bs + [b], total, size)
    {
      ghost var s1, p1 := Stream(), pos;
      o := InWriteByte(b, 8);
      if o == Pass {
        WroteNextByte(s0, s1, p1, Stream(), pos, at, bs, b);
      }
    }

    /** Reads a whole byte after the bytes `bs` read from `at`, as part of a run of `total` bits. */
    method ReadNextByte(ghost s0: seq<bool>, ghost at: nat, ghost bs: seq<bv8>, ghost total: nat)
      returns (r: Result<bv8>)
      requires Valid() && 8 * (|bs| + 1) <= total && ReadBytesFrom(Stream(), pos, s0, at, bs)
      modifies this
      ensures Valid() && buf == old(buf) && size == old(size) && Stream() == s0
      ensures ReadingByte(r, Stream(), pos, s0, at, bs, total, size)
    {
      ghost var p1 := pos;
      r := InReadByte(8);
      if r.Ok? {
        ReadNextByteFrom(s0, p1, Stream(), pos, s0, at, bs, r.value);
      }
    }

    /** Writes the four bytes of an `f32`, first to last. */
    method WriteF32(value: FourByte) returns (o: Outcome)
      requires Valid()
      modifies this, buf
      ensures Valid() && buf == old(buf) && size == old(size)
      ensures o == Pass <==> old(pos) + 32 <= size
      ensures o != Pass ==> o == Fail(OutOfBounds) && pos == old(pos) && buf[..] == old(buf[..])
      ensures o == Pass ==> (pos == old(pos) + 32 &&
        Stream() == Put(old(Stream()), old(pos), StreamOf(FourBytes(value))))
    {
      if pos + 32 > size {
        return Fail(OutOfBounds);
      }
      ghost var s0, at := Stream(), pos;
      StartBytes(s0, at);
      o := WriteByteQuad(value, s0, at, [], 32);
      assert [] + FourBytes(value) == FourBytes(value);
    }

    /** Reads the four bytes of an `f32`, first to last. */
    method ReadF32() returns (r: Result<FourByte>)
      requires Valid()
      modifies this
      ensures Valid() && buf == old(buf) && size == old(size) && Stream() == old(Stream())
      ensures r.Ok? <==> old(pos) + 32 <= size
      ensures r.Err? ==> r == Err(OutOfBounds) && pos == old(pos)
      ensures r.Ok? ==> (pos == old(pos) + 32 && StreamOf(FourBytes(r.value)) == Stream()[old(pos)..old(pos) + 32])
    {
      if pos + 32 > size {
        return Err(OutOfBounds);
      }
      ghost var s0, at := Stream(), pos;
      r := ReadByteQuad(s0, at, [], 32);
      assert [] + FourBytes(r.value) == FourBytes(r.value);
    }

    /** Writes the eight bytes of an `f64`, first to last. */
    method WriteF64(value: EightByte) returns (o: Outcome)
      requires Valid()
      modifies this, buf
      ensures Valid() && buf == old(buf) && size == old(size)
      ensures o == Pass <==> old(pos) + 64 <= size
      ensures o != Pass ==> o == Fail(OutOfBounds) && pos == old(pos) && buf[..] == old(buf[..])
      ensures o == Pass ==> (pos == old(pos) + 64 &&
        Stream() == Put(old(Stream()), old(pos), StreamOf(EightBytes(value))))
    {
      if pos + 64 > size {
        return Fail(OutOfBounds);
      }
      ghost var s0, at := Stream(), pos;
      StartBytes(s0, at);
      var lo, hi := LowFour(value), HighFour(value);
      o := WriteByteQuad(lo, s0, at, [], 64);
      assert o == Pass;
      o := WriteByteQuad(hi, s0, at, [] + FourBytes(lo), 64);
      assert [] + FourBytes(lo) + FourBytes(hi) == EightBytes(value);
    }

    /** Reads the eight bytes of an `f64`, first to last. */
    method ReadF64() returns (r: Result<EightByte>)
      requires Valid()
      modifies this
      ensures Valid() && buf == old(buf) && size == old(size) && Stream() == old(Stream())
      ensures r.Ok? <==> old(pos) + 64 <= size
      ensures r.Err? ==> r == Err(OutOfBounds) && pos == old(pos)
      ensures r.Ok? ==> (pos == old(pos) + 64 && StreamOf(EightBytes(r.value)) == Stream()[old(pos)..old(pos) + 64])
    {
      if pos + 64 > size {
        return Err(OutOfBounds);
      }
      ghost var s0, at := Stream(), pos;
      var lo := ReadByteQuad(s0, at, [], 64);
      var hi := ReadByteQuad(s0, at, [] + FourBytes(lo.value), 64);
      r := Ok(JoinFours(lo.value, hi.value));
      assert [] + FourBytes(lo.value) + FourBytes(hi.value) == EightBytes(r.value);
    }

    /** Writes the four bytes `q` after the bytes `bs` written from `at`, two at a time. */
    method WriteByteQuad(q: FourByte, ghost s0: seq<bool>, ghost at: nat, ghost bs: seq<bv8>, ghost total: nat)
      returns (o: Outcome)
      requires Valid() && 8 * (|bs| + 4) <= total && WroteBytes(Stream(), pos, s0, at, bs)
      modifies this, buf
      ensures Valid() && buf == old(buf) && size == old(size)
      ensures WritingBytes(o, Stream(), pos, s0, at, bs + FourBytes(q), total, size)
    {
      o := WriteBytePair(q.b1, q.b2, s0, at, bs, total);
      if o != Pass {
        return;
      }
      o := WriteBytePair(q.b3, q.b4, s0, at, bs + [q.b1, q.b2], total);
      assert bs + [q.b1, q.b2] + [q.b3, q.b4] == bs + FourBytes(q);
    }

    /** Writes the whole bytes `b1` and `b2` after the bytes `bs` written from `at`. */
    method WriteBytePair(b1: bv8, b2: bv8, ghost s0: seq<bool>, ghost at: nat, ghost bs: seq<bv8>, ghost total: nat)
      returns (o: Outcome)
      requires Valid() && 8 * (|bs| + 2) <= total && WroteBytes(Stream(), pos, s0, at, bs)
      modifies this, buf
      ensures Valid() && buf == old(buf) && size == old(size)
      ensures WritingBytes(o, Stream(), pos, s0, at, bs + [b1, b2], total, size)
    {
      o := WriteNextByte(b1, s0, at, bs, total);
      if o != Pass {
        return;
      }
      o := WriteNextByte(b2, s0, at, bs + [b1], total);
      assert bs + [b1] + [b2] == bs + [b1, b2];
    }

    /** Reads four bytes after the bytes `bs` read from `at`, two at a time. */
    method ReadByteQuad(ghost s0: seq<bool>, ghost at: nat, ghost bs: seq<bv8>, ghost total: nat)
      returns (r: Result<FourByte>)
      requires Valid() && 8 * (|bs| + 4) <= total && ReadBytesFrom(Stream(), pos, s0, at, bs)
      modifies this
      ensures Valid() && buf == old(buf) && size == old(size) && Stream() == s0
      ensures r.Ok? ==> ReadBytesFrom(Stream(), pos, s0, at, bs + FourBytes(r.value))
      ensures r.Err? ==> r == Err(OutOfBounds) && at + total > size
    {
      var a := ReadBytePair(s0, at, bs, total);
      if a.Err? {
        return Err(a.error);
      }
      var b := ReadBytePair(s0, at, bs + [a.value.0, a.value.1], total);
      if b.Err? {
        return Err(b.error);
      }
      r := Ok(FourByte(a.value.0, a.value.1, b.value.0, b.value.1));
      assert bs + [a.value.0, a.value.1] + [b.value.0, b.value.1] == bs + FourBytes(r.value);
    }

    /** Reads two whole bytes after the bytes `bs` read from `at`. */
    method ReadBytePair(ghost s0: seq<bool>, ghost at: nat, ghost bs: seq<bv8>, ghost total: nat)
      returns (r: Result<(bv8, bv8)>)
      requires Valid() && 8 * (|bs| + 2) <= total && ReadBytesFrom(Stream(), pos, s0, at, bs)
      modifies this
      ensures Valid() && buf == old(buf) && size == old(size) && Stream() == s0
      ensures r.Ok? ==> ReadBytesFrom(Stream(), pos, s0, at, bs + [r.value.0, r.value.1])
      ensures r.Err? ==> r == Err(OutOfBounds) && at + total > size
    {
      var a := ReadNextByte(s0, at, bs, total);
      if a.Err? {
        return Err(a.error);
      }
      var b := ReadNextByte(s0, at, bs + [a.value], total);
      if b.Err? {
        return Err(b.error);
      }
      r := Ok((a.value, b.value));
      assert bs + [a.value] + [b.value] == bs + [a.value, b.value];
    }

    /** Writes the bytes of `value`, first to last, eight bits each. */
    method WriteU8Slice(value: seq<bv8>) returns (o: Outcome)
      requires Valid()
      modifies this, buf
      ensures Valid() && buf == old(buf) && size == old(size)
      ensures o == Pass <==> old(pos) + 8 * |value| <= size
      ensures o != Pass ==> o == Fail(OutOfBounds) && pos == old(pos) && buf[..] == old(buf[..])
      ensures o == Pass ==> (pos == old(pos) + 8 * |value| &&
        Stream() == Put(old(Stream()), old(pos), StreamOf(value)))
    {
      if pos + 8 * |value| > size {
        return Fail(OutOfBounds);
      }
      ghost var s0, at := Stream(), pos;
      StartBytes(s0, at);
      for i := 0 to |value|
        invariant Valid() && buf == old(buf) && size == old(size)
        invariant WroteBytes(Stream(), pos, s0, at, value[..i])
      {
        o := WriteNextByte(value[i], s0, at, value[..i], 8 * |value|);
        assert value[..i] + [value[i]] == value[..i + 1];
      }
      assert value[..|value|] == value;
      o := Pass;
    }

    /** Reads `length` bytes, first to last, eight bits each. */
    method ReadVecU8(length: nat) returns (r: Result<seq<bv8>>)
      requires Valid()
      modifies this
      ensures Valid() && buf == old(buf) && size == old(size) && Stream() == old(Stream())
      ensures r.Ok? <==> old(pos) + 8 * length <= size
      ensures r.Err? ==> r == Err(OutOfBounds) && pos == old(pos)
      ensures r.Ok? ==> (|r.value| == length && pos == old(pos) + 8 * length &&
        StreamOf(r.value) == Stream()[old(pos)..old(pos) + 8 * length])
    {
      if pos + 8 * length > size {
        return Err(OutOfBounds);
      }
      ghost var s0, at := Stream(), pos;
      var bs: seq<bv8> := [];
      for i := 0 to length
        invariant Valid() && buf == old(buf) && size == old(size) && Stream() == s0
        invariant |bs| == i && ReadBytesFrom(Stream(), pos, s0, at, bs)
      {
        var b := ReadNextByte(s0, at, bs, 8 * length);
        bs := bs + [b.value];
      }
      r := Ok(bs);
    }

    /**
     * Writes a string as its length, `len() as u32`, and then its UTF-8
     * bytes `value`.
     */
    method WriteString(value: seq<bv8>) returns (o: Outcome)
      requires Valid()
      modifies this, buf
      ensures Valid() && buf == old(buf) && size == old(size)
      ensures o == Pass <==> old(pos) + 32 + 8 * |value| <= size
      ensures o != Pass ==> o == Fail(OutOfBounds) && pos == old(pos) && buf[..] == old(buf[..])
      ensures o == Pass ==> (pos == old(pos) + 32 + 8 * |value| &&
        Stream() == Put(old(Stream()), old(pos), LowBits(|value| % Pow2(32), 32) + StreamOf(value)))
    {
      if pos + 32 + 8 * |value| > size {
        return Fail(OutOfBounds);
      }
      ghost var s0, at := Stream(), pos;
      var len: U32 := |value| % Pow2(32);
      o := WriteU32(len);
      assert o == Pass;
      o := WriteU8Slice(value);
      PutThen(s0, at, LowBits(len, 32), StreamOf(value));
    }

    /**
     * Reads a string written by `WriteString`: a 32-bit length and then as
     * many bytes. Whether the bytes are UTF-8 is not checked. When the bytes
     * do not fit, the cursor goes back to where the length began.
     */
    method ReadString() returns (r: Result<seq<bv8>>)
      requires Valid()
      modifies this
      ensures Valid() && buf == old(buf) && size == old(size) && Stream() == old(Stream())
      ensures StringFrom(r, Stream(), old(pos), 32)
      ensures r.Err? ==> pos == old(pos)
      ensures r.Ok? ==> pos == old(pos) + 32 + 8 * |r.value|
    {
      var start := pos;
      var len := ReadU32();
      if len.Err? {
        return Err(len.error);
      }
      if pos + 8 * len.value > size {
        pos := start;
        return Err(OutOfBounds);
      }
      r := ReadVecU8(len.value);
    }
  }
}
