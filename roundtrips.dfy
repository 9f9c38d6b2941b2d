/**
 * What the codecs promise together: a value written at the cursor, with
 * the cursor then put back where the write began, reads back as the
 * value. Each round trip writes, rewinds the way the unit tests in
 * `src/lib.rs` do (`buf.pos = 0` between the two), and reads back; the
 * read-back half is a method of its own, stated for any stream that holds
 * the written field at the cursor.
 */
module RoundTrips {
  import opened Bits
  import opened BitStream
  import opened Fields
  import opened Outcomes
  import opened Ints
  import opened Engine
  import opened Buffer

  /** A field of `bits` bits written at the cursor by the primitive reads back, by the primitive, as `value & (0xFF >> (8 - bits))`. */
  method ReadBackByte(b: BitBuf, ghost s: seq<bool>, value: bv8, bits: nat) returns (r: Result<bv8>)
    requires b.Valid() && 1 <= bits <= 8 && b.pos + bits <= b.size && |s| == b.size
    requires b.Stream() == Put(s, b.pos, ByteBits(value, bits))
    modifies b
    ensures b.Valid() && r == Ok(Masked(value, bits))
  {
    PutRead(s, b.pos, ByteBits(value, bits));
    r := b.InReadByte(bits);
    ByteValue(Masked(value, bits), ByteBits(value, bits));
    ByteOfNumber(r.value, Masked(value, bits));
  }

  /** The primitive round trip at any bit offset: the field reads back as the low `bits` bits of `value`, the bits above cleared. */
  method ByteRoundTrip(b: BitBuf, value: bv8, bits: nat) returns (r: Result<bv8>)
    requires b.Valid() && 1 <= bits <= 8 && b.pos + bits <= b.size
    modifies b, b.buf
    ensures b.Valid() && r == Ok(Masked(value, bits))
  {
    ghost var s := b.Stream();
    var start := b.pos;
    var o := b.InWriteByte(value, bits);
    b.pos := start;
    r := ReadBackByte(b, s, value, bits);
  }

  /**
   * A signed field whose pattern has been written, cut to `bits` bits, at
   * `at` of `s`, is read back as the value when the pattern read back
   * there is that of `x`: `x` is the value.
   */
  lemma SignedFieldRead(s: seq<bool>, at: nat, v: int, x: int, w: nat, bits: nat)
    requires |s| % 8 == 0 && at + bits <= |s| && 1 <= bits <= w && InSigned(v, w) && InSigned(x, w)
    requires bits == w || 0 <= v < Pow2(bits)
    requires ToUnsigned(x, w) == Value(Put(s, at, LowBits(ToUnsigned(v, w), bits))[at..at + bits])
    ensures x == v
  {
    FieldRoundTrip(s, at, ToUnsigned(v, w), bits);
    SignedPartRoundTrip(v, x, w, bits);
  }

  /** A boolean written at the cursor reads back as itself. */
  method ReadBackBool(b: BitBuf, ghost s: seq<bool>, value: bool) returns (r: Result<bool>)
    requires b.Valid() && b.pos + 1 <= b.size && |s| == b.size
    requires b.Stream() == Put(s, b.pos, [value])
    modifies b
    ensures b.Valid() && r == Ok(value)
  {
    PutRead(s, b.pos, [value]);
    r := b.ReadBool();
  }

  /** A boolean reads back as written. */
  method BoolRoundTrip(b: BitBuf, value: bool) returns (r: Result<bool>)
    requires b.Valid() && b.pos + 1 <= b.size
    modifies b, b.buf
    ensures b.Valid() && r == Ok(value)
  {
    ghost var s := b.Stream();
    var start := b.pos;
    var o := b.WriteBool(value);
    b.pos := start;
    r := ReadBackBool(b, s, value);
  }

  /** A `u8` field of `bits` bits written at the cursor reads back as the low `bits` bits of the value. */
  method ReadBackU8Part(b: BitBuf, ghost s: seq<bool>, value: bv8, bits: nat) returns (r: Result<bv8>)
    requires b.Valid() && 1 <= bits <= 8 && b.pos + bits <= b.size && |s| == b.size
    requires b.Stream() == Put(s, b.pos, LowBits(value as int, bits))
    modifies b
    ensures b.Valid() && r.Ok? && r.value as int == (value as int) % Pow2(bits)
  {
    FieldRoundTrip(s, b.pos, value as int, bits);
    r := b.ReadU8Part(bits);
  }

  /** A `u8` part reads back as the low `bits` bits of the value. */
  method U8PartRoundTrip(b: BitBuf, value: bv8, bits: nat) returns (r: Result<bv8>)
    requires b.Valid() && 1 <= bits <= 8 && b.pos + bits <= b.size
    modifies b, b.buf
    ensures b.Valid() && r.Ok? && r.value as int == (value as int) % Pow2(bits)
  {
    ghost var s := b.Stream();
    var start := b.pos;
    var o := b.WriteU8Part(value, bits);
    b.pos := start;
    r := ReadBackU8Part(b, s, value, bits);
  }

  /** A `u8` written at the cursor reads back as itself. */
  method ReadBackU8(b: BitBuf, ghost s: seq<bool>, value: bv8) returns (r: Result<bv8>)
    requires b.Valid() && b.pos + 8 <= b.size && |s| == b.size
    requires b.Stream() == Put(s, b.pos, LowBits(value as int, 8))
    modifies b
    ensures b.Valid() && r == Ok(value)
  {
    ghost var v := value as int;
    FieldRoundTrip(s, b.pos, v, 8);
    Pow2Byte();
    ModSmall(v, Pow2(8));
    r := b.ReadU8();
    ByteOfNumber(r.value, value);
  }

  /** A `u8` reads back as written. */
  method U8RoundTrip(b: BitBuf, value: bv8) returns (r: Result<bv8>)
    requires b.Valid() && b.pos + 8 <= b.size
    modifies b, b.buf
    ensures b.Valid() && r == Ok(value)
  {
    ghost var s := b.Stream();
    var start := b.pos;
    var o := b.WriteU8(value);
    b.pos := start;
    r := ReadBackU8(b, s, value);
  }

  /** An `i8` field of `bits` bits written at the cursor reads back as the value when the value is non-negative and fits in `bits` bits, or `bits` is the whole width. */
  method ReadBackI8Part(b: BitBuf, ghost s: seq<bool>, value: I8, bits: nat) returns (r: Result<I8>)
    requires b.Valid() && 1 <= bits <= 8 && b.pos + bits <= b.size && (bits == 8 || 0 <= value < Pow2(bits)) && |s| == b.size
    requires b.Stream() == Put(s, b.pos, LowBits(ToUnsigned(value, 8), bits))
    modifies b
    ensures b.Valid() && r == Ok(value)
  {
    ghost var at := b.pos;
    r := b.ReadI8Part(bits);
    SignedFieldRead(s, at, value, r.value, 8, bits);
  }

  /** An `i8` part reads back as written when the value is non-negative and fits in `bits` bits. */
  method I8PartRoundTrip(b: BitBuf, value: I8, bits: nat) returns (r: Result<I8>)
    requires b.Valid() && 1 <= bits <= 8 && b.pos + bits <= b.size && (bits == 8 || 0 <= value < Pow2(bits))
    modifies b, b.buf
    ensures b.Valid() && r == Ok(value)
  {
    ghost var s := b.Stream();
    var start := b.pos;
    var o := b.WriteI8Part(value, bits);
    b.pos := start;
    r := ReadBackI8Part(b, s, value, bits);
  }

  /** An `i8` written at the cursor reads back as itself. */
  method ReadBackI8(b: BitBuf, ghost s: seq<bool>, value: I8) returns (r: Result<I8>)
    requires b.Valid() && b.pos + 8 <= b.size && |s| == b.size
    requires b.Stream() == Put(s, b.pos, LowBits(ToUnsigned(value, 8), 8))
    modifies b
    ensures b.Valid() && r == Ok(value)
  {
    FieldRoundTrip(s, b.pos, ToUnsigned(value, 8), 8);
    r := b.ReadI8();
    SignedPartRoundTrip(value, r.value, 8, 8);
  }

  /** An `i8` reads back as written. */
  method I8RoundTrip(b: BitBuf, value: I8) returns (r: Result<I8>)
    requires b.Valid() && b.pos + 8 <= b.size
    modifies b, b.buf
    ensures b.Valid() && r == Ok(value)
  {
    ghost var s := b.Stream();
    var start := b.pos;
    var o := b.WriteI8(value);
    b.pos := start;
    r := ReadBackI8(b, s, value);
  }

  /** A `u16` field of `bits` bits written at the cursor reads back as the low `bits` bits of the value. */
  method ReadBackU16Part(b: BitBuf, ghost s: seq<bool>, value: U16, bits: nat) returns (r: Result<U16>)
    requires b.Valid() && 1 <= bits <= 16 && b.pos + bits <= b.size && |s| == b.size
    requires b.Stream() == Put(s, b.pos, LowBits(value, bits))
    modifies b
    ensures b.Valid() && r.Ok? && r.value == value % Pow2(bits)
  {
    FieldRoundTrip(s, b.pos, value, bits);
    r := b.ReadU16Part(bits);
  }

  /** A `u16` part reads back as the low `bits` bits of the value. */
  method U16PartRoundTrip(b: BitBuf, value: U16, bits: nat) returns (r: Result<U16>)
    requires b.Valid() && 1 <= bits <= 16 && b.pos + bits <= b.size
    modifies b, b.buf
    ensures b.Valid() && r.Ok? && r.value == value % Pow2(bits)
  {
    ghost var s := b.Stream();
    var start := b.pos;
    var o := b.WriteU16Part(value, bits);
    b.pos := start;
    r := ReadBackU16Part(b, s, value, bits);
  }

  /** A `u16` written at the cursor reads back as itself. */
  method ReadBackU16(b: BitBuf, ghost s: seq<bool>, value: U16) returns (r: Result<U16>)
    requires b.Valid() && b.pos + 16 <= b.size && |s| == b.size
    requires b.Stream() == Put(s, b.pos, LowBits(value, 16))
    modifies b
    ensures b.Valid() && r == Ok(value)
  {
    FieldRoundTrip(s, b.pos, value, 16);
    ModSmall(value, Pow2(16));
    r := b.ReadU16();
  }

  /** A `u16` reads back as written. */
  method U16RoundTrip(b: BitBuf, value: U16) returns (r: Result<U16>)
    requires b.Valid() && b.pos + 16 <= b.size
    modifies b, b.buf
    ensures b.Valid() && r == Ok(value)
  {
    ghost var s := b.Stream();
    var start := b.pos;
    var o := b.WriteU16(value);
    b.pos := start;
    r := ReadBackU16(b, s, value);
  }

  /** An `i16` field of `bits` bits written at the cursor reads back as the value when the value is non-negative and fits in `bits` bits, or `bits` is the whole width. */
  method ReadBackI16Part(b: BitBuf, ghost s: seq<bool>, value: I16, bits: nat) returns (r: Result<I16>)
    requires b.Valid() && 1 <= bits <= 16 && b.pos + bits <= b.size && (bits == 16 || 0 <= value < Pow2(bits)) && |s| == b.size
    requires b.Stream() == Put(s, b.pos, LowBits(ToUnsigned(value, 16), bits))
    modifies b
    ensures b.Valid() && r == Ok(value)
  {
    FieldRoundTrip(s, b.pos, ToUnsigned(value, 16), bits);
    r := b.ReadI16Part(bits);
    SignedPartRoundTrip(value, r.value, 16, bits);
  }

  /** An `i16` part reads back as written when the value is non-negative and fits in `bits` bits. */
  method I16PartRoundTrip(b: BitBuf, value: I16, bits: nat) returns (r: Result<I16>)
    requires b.Valid() && 1 <= bits <= 16 && b.pos + bits <= b.size && (bits == 16 || 0 <= value < Pow2(bits))
    modifies b, b.buf
    ensures b.Valid() && r == Ok(value)
  {
    ghost var s := b.Stream();
    var start := b.pos;
    var o := b.WriteI16Part(value, bits);
    b.pos := start;
    r := ReadBackI16Part(b, s, value, bits);
  }

  /** An `i16` written at the cursor reads back as itself. */
  method ReadBackI16(b: BitBuf, ghost s: seq<bool>, value: I16) returns (r: Result<I16>)
    requires b.Valid() && b.pos + 16 <= b.size && |s| == b.size
    requires b.Stream() == Put(s, b.pos, LowBits(ToUnsigned(value, 16), 16))
    modifies b
    ensures b.Valid() && r == Ok(value)
  {
    FieldRoundTrip(s, b.pos, ToUnsigned(value, 16), 16);
    r := b.ReadI16();
    SignedPartRoundTrip(value, r.value, 16, 16);
  }

  /** An `i16` reads back as written. */
  method I16RoundTrip(b: BitBuf, value: I16) returns (r: Result<I16>)
    requires b.Valid() && b.pos + 16 <= b.size
    modifies b, b.buf
    ensures b.Valid() && r == Ok(value)
  {
    ghost var s := b.Stream();
    var start := b.pos;
    var o := b.WriteI16(value);
    b.pos := start;
    r := ReadBackI16(b, s, value);
  }

  /** A `u32` field of `bits` bits written at the cursor reads back as the low `bits` bits of the value. */
  method ReadBackU32Part(b: BitBuf, ghost s: seq<bool>, value: U32, bits: nat) returns (r: Result<U32>)
    requires b.Valid() && 1 <= bits <= 32 && b.pos + bits <= b.size && |s| == b.size
    requires b.Stream() == Put(s, b.pos, LowBits(value, bits))
    modifies b
    ensures b.Valid() && r.Ok? && r.value == value % Pow2(bits)
  {
    FieldRoundTrip(s, b.pos, value, bits);
    r := b.ReadU32Part(bits);
  }

  /** A `u32` part reads back as the low `bits` bits of the value. */
  method U32PartRoundTrip(b: BitBuf, value: U32, bits: nat) returns (r: Result<U32>)
    requires b.Valid() && 1 <= bits <= 32 && b.pos + bits <= b.size
    modifies b, b.buf
    ensures b.Valid() && r.Ok? && r.value == value % Pow2(bits)
  {
    ghost var s := b.Stream();
    var start := b.pos;
    var o := b.WriteU32Part(value, bits);
    b.pos := start;
    r := ReadBackU32Part(b, s, value, bits);
  }

  /** A `u32` written at the cursor reads back as itself. */
  method ReadBackU32(b: BitBuf, ghost s: seq<bool>, value: U32) returns (r: Result<U32>)
    requires b.Valid() && b.pos + 32 <= b.size && |s| == b.size
    requires b.Stream() == Put(s, b.pos, LowBits(value, 32))
    modifies b
    ensures b.Valid() && r == Ok(value)
  {
    FieldRoundTrip(s, b.pos, value, 32);
    ModSmall(value, Pow2(32));
    r := b.ReadU32();
  }

  /** A `u32` reads back as written. */
  method U32RoundTrip(b: BitBuf, value: U32) returns (r: Result<U32>)
    requires b.Valid() && b.pos + 32 <= b.size
    modifies b, b.buf
    ensures b.Valid() && r == Ok(value)
  {
    ghost var s := b.Stream();
    var start := b.pos;
    var o := b.WriteU32(value);
    b.pos := start;
    r := ReadBackU32(b, s, value);
  }

  /** An `i32` field of `bits` bits written at the cursor reads back as the value when the value is non-negative and fits in `bits` bits, or `bits` is the whole width. */
  method ReadBackI32Part(b: BitBuf, ghost s: seq<bool>, value: I32, bits: nat) returns (r: Result<I32>)
    requires b.Valid() && 1 <= bits <= 32 && b.pos + bits <= b.size && (bits == 32 || 0 <= value < Pow2(bits)) && |s| == b.size
    requires b.Stream() == Put(s, b.pos, LowBits(ToUnsigned(value, 32), bits))
    modifies b
    ensures b.Valid() && r == Ok(value)
  {
    FieldRoundTrip(s, b.pos, ToUnsigned(value, 32), bits);
    r := b.ReadI32Part(bits);
    SignedPartRoundTrip(value, r.value, 32, bits);
  }

  /** An `i32` part reads back as written when the value is non-negative and fits in `bits` bits. */
  method I32PartRoundTrip(b: BitBuf, value: I32, bits: nat) returns (r: Result<I32>)
    requires b.Valid() && 1 <= bits <= 32 && b.pos + bits <= b.size && (bits == 32 || 0 <= value < Pow2(bits))
    modifies b, b.buf
    ensures b.Valid() && r == Ok(value)
  {
    ghost var s := b.Stream();
    var start := b.pos;
    var o := b.WriteI32Part(value, bits);
    b.pos := start;
    r := ReadBackI32Part(b, s, value, bits);
  }

  /** An `i32` written at the cursor reads back as itself. */
  method ReadBackI32(b: BitBuf, ghost s: seq<bool>, value: I32) returns (r: Result<I32>)
    requires b.Valid() && b.pos + 32 <= b.size && |s| == b.size
    requires b.Stream() == Put(s, b.pos, LowBits(ToUnsigned(value, 32), 32))
    modifies b
    ensures b.Valid() && r == Ok(value)
  {
    FieldRoundTrip(s, b.pos, ToUnsigned(value, 32), 32);
    r := b.ReadI32();
    SignedPartRoundTrip(value, r.value, 32, 32);
  }

  /** An `i32` reads back as written. */
  method I32RoundTrip(b: BitBuf, value: I32) returns (r: Result<I32>)
    requires b.Valid() && b.pos + 32 <= b.size
    modifies b, b.buf
    ensures b.Valid() && r == Ok(value)
  {
    ghost var s := b.Stream();
    var start := b.pos;
    var o := b.WriteI32(value);
    b.pos := start;
    r := ReadBackI32(b, s, value);
  }

  /** A `u64` field of `bits` bits written at the cursor reads back as the low `bits` bits of the value. */
  method ReadBackU64Part(b: BitBuf, ghost s: seq<bool>, value: U64, bits: nat) returns (r: Result<U64>)
    requires b.Valid() && 1 <= bits <= 64 && b.pos + bits <= b.size && |s| == b.size
    requires b.Stream() == Put(s, b.pos, LowBits(value, bits))
    modifies b
    ensures b.Valid() && r.Ok? && r.value == value % Pow2(bits)
  {
    FieldRoundTrip(s, b.pos, value, bits);
    r := b.ReadU64Part(bits);
  }

  /** A `u64` part reads back as the low `bits` bits of the value. */
  method U64PartRoundTrip(b: BitBuf, value: U64, bits: nat) returns (r: Result<U64>)
    requires b.Valid() && 1 <= bits <= 64 && b.pos + bits <= b.size
    modifies b, b.buf
    ensures b.Valid() && r.Ok? && r.value == value % Pow2(bits)
  {
    ghost var s := b.Stream();
    var start := b.pos;
    var o := b.WriteU64Part(value, bits);
    b.pos := start;
    r := ReadBackU64Part(b, s, value, bits);
  }

  /** A `u64` written at the cursor reads back as itself. */
  method ReadBackU64(b: BitBuf, ghost s: seq<bool>, value: U64) returns (r: Result<U64>)
    requires b.Valid() && b.pos + 64 <= b.size && |s| == b.size
    requires b.Stream() == Put(s, b.pos, LowBits(value, 64))
    modifies b
    ensures b.Valid() && r == Ok(value)
  {
    FieldRoundTrip(s, b.pos, value, 64);
    ModSmall(value, Pow2(64));
    r := b.ReadU64();
  }

  /** A `u64` reads back as written. */
  method U64RoundTrip(b: BitBuf, value: U64) returns (r: Result<U64>)
    requires b.Valid() && b.pos + 64 <= b.size
    modifies b, b.buf
    ensures b.Valid() && r == Ok(value)
  {
    ghost var s := b.Stream();
    var start := b.pos;
    var o := b.WriteU64(value);
    b.pos := start;
    r := ReadBackU64(b, s, value);
  }

  /** An `i64` field of `bits` bits written at the cursor reads back as the value when the value is non-negative and fits in `bits` bits, or `bits` is the whole width. */
  method ReadBackI64Part(b: BitBuf, ghost s: seq<bool>, value: I64, bits: nat) returns (r: Result<I64>)
    requires b.Valid() && 1 <= bits <= 64 && b.pos + bits <= b.size && (bits == 64 || 0 <= value < Pow2(bits)) && |s| == b.size
    requires b.Stream() == Put(s, b.pos, LowBits(ToUnsigned(value, 64), bits))
    modifies b
    ensures b.Valid() && r == Ok(value)
  {
    FieldRoundTrip(s, b.pos, ToUnsigned(value, 64), bits);
    r := b.ReadI64Part(bits);
    SignedPartRoundTrip(value, r.value, 64, bits);
  }

  /** An `i64` part reads back as written when the value is non-negative and fits in `bits` bits. */
  method I64PartRoundTrip(b: BitBuf, value: I64, bits: nat) returns (r: Result<I64>)
    requires b.Valid() && 1 <= bits <= 64 && b.pos + bits <= b.size && (bits == 64 || 0 <= value < Pow2(bits))
    modifies b, b.buf
    ensures b.Valid() && r == Ok(value)
  {
    ghost var s := b.Stream();
    var start := b.pos;
    var o := b.WriteI64Part(value, bits);
    b.pos := start;
    r := ReadBackI64Part(b, s, value, bits);
  }

  /** An `i64` written at the cursor reads back as itself. */
  method ReadBackI64(b: BitBuf, ghost s: seq<bool>, value: I64) returns (r: Result<I64>)
    requires b.Valid() && b.pos + 64 <= b.size && |s| == b.size
    requires b.Stream() == Put(s, b.pos, LowBits(ToUnsigned(value, 64), 64))
    modifies b
    ensures b.Valid() && r == Ok(value)
  {
    FieldRoundTrip(s, b.pos, ToUnsigned(value, 64), 64);
    r := b.ReadI64();
    SignedPartRoundTrip(value, r.value, 64, 64);
  }

  /** An `i64` reads back as written. */
  method I64RoundTrip(b: BitBuf, value: I64) returns (r: Result<I64>)
    requires b.Valid() && b.pos + 64 <= b.size
    modifies b, b.buf
    ensures b.Valid() && r == Ok(value)
  {
    ghost var s := b.Stream();
    var start := b.pos;
    var o := b.WriteI64(value);
    b.pos := start;
    r := ReadBackI64(b, s, value);
  }

  /** The bytes of an `f32` written at the cursor read back as themselves. */
  method ReadBackF32(b: BitBuf, ghost s: seq<bool>, value: FourByte) returns (r: Result<FourByte>)
    requires b.Valid() && b.pos + 32 <= b.size && |s| == b.size
    requires b.Stream() == Put(s, b.pos, StreamOf(FourBytes(value)))
    modifies b
    ensures b.Valid() && r == Ok(value)
  {
    PutRead(s, b.pos, StreamOf(FourBytes(value)));
    r := b.ReadF32();
    StreamOfInjective(FourBytes(r.value), FourBytes(value));
  }

  /** The bytes of an `f32` read back as written. */
  method F32RoundTrip(b: BitBuf, value: FourByte) returns (r: Result<FourByte>)
    requires b.Valid() && b.pos + 32 <= b.size
    modifies b, b.buf
    ensures b.Valid() && r == Ok(value)
  {
    ghost var s := b.Stream();
    var start := b.pos;
    var o := b.WriteF32(value);
    b.pos := start;
    r := ReadBackF32(b, s, value);
  }

  /** The bytes of an `f64` written at the cursor read back as themselves. */
  method ReadBackF64(b: BitBuf, ghost s: seq<bool>, value: EightByte) returns (r: Result<EightByte>)
    requires b.Valid() && b.pos + 64 <= b.size && |s| == b.size
    requires b.Stream() == Put(s, b.pos, StreamOf(EightBytes(value)))
    modifies b
    ensures b.Valid() && r == Ok(value)
  {
    PutRead(s, b.pos, StreamOf(EightBytes(value)));
    r := b.ReadF64();
    StreamOfInjective(EightBytes(r.value), EightBytes(value));
  }

  /** The bytes of an `f64` read back as written. */
  method F64RoundTrip(b: BitBuf, value: EightByte) returns (r: Result<EightByte>)
    requires b.Valid() && b.pos + 64 <= b.size
    modifies b, b.buf
    ensures b.Valid() && r == Ok(value)
  {
    ghost var s := b.Stream();
    var start := b.pos;
    var o := b.WriteF64(value);
    b.pos := start;
    r := ReadBackF64(b, s, value);
  }

  /** A byte slice written at the cursor reads back, length given, as itself. */
  method ReadBackSlice(b: BitBuf, ghost s: seq<bool>, value: seq<bv8>) returns (r: Result<seq<bv8>>)
    requires b.Valid() && b.pos + 8 * |value| <= b.size && |s| == b.size
    requires b.Stream() == Put(s, b.pos, StreamOf(value))
    modifies b
    ensures b.Valid() && r == Ok(value)
  {
    PutRead(s, b.pos, StreamOf(value));
    r := b.ReadVecU8(|value|);
    StreamOfInjective(r.value, value);
  }

  /** A byte slice reads back as written. */
  method SliceRoundTrip(b: BitBuf, value: seq<bv8>) returns (r: Result<seq<bv8>>)
    requires b.Valid() && b.pos + 8 * |value| <= b.size
    modifies b, b.buf
    ensures b.Valid() && r == Ok(value)
  {
    ghost var s := b.Stream();
    var start := b.pos;
    var o := b.WriteU8Slice(value);
    b.pos := start;
    r := ReadBackSlice(b, s, value);
  }

  /**
   * What `ReadString` promises on the stream `s` after a string has been
   * written at `at`, with a length field of `w` bits: the read succeeds and
   * gives back the bytes.
   */
  lemma StringRead(s: seq<bool>, at: nat, w: nat, value: seq<bv8>, r: Result<seq<bv8>>)
    requires |s| % 8 == 0 && at + w + 8 * |value| <= |s| && |value| < Pow2(w)
    requires StringFrom(r, Put(s, at, LowBits(|value|, w) + StreamOf(value)), at, w)
    ensures r == Ok(value)
  {
    var t := Put(s, at, LowBits(|value|, w) + StreamOf(value));
    PutRead(s, at, LowBits(|value|, w) + StreamOf(value));
    LengthThenBytes(t, at, |value|, w, value);
    assert r.Ok?;
    StreamOfInjective(r.value, value);
  }

  /** A string of fewer than `2^32` bytes written at the cursor reads back as itself. */
  method ReadBackString(b: BitBuf, ghost s: seq<bool>, value: seq<bv8>) returns (r: Result<seq<bv8>>)
    requires b.Valid() && b.pos + 32 + 8 * |value| <= b.size && |value| < Pow2(32) && |s| == b.size
    requires b.Stream() == Put(s, b.pos, LowBits(|value|, 32) + StreamOf(value))
    modifies b
    ensures b.Valid() && r == Ok(value)
  {
    ghost var at := b.pos;
    r := b.ReadString();
    StringRead(s, at, 32, value, r);
  }

  /** A string of fewer than `2^32` bytes reads back as written. */
  method StringRoundTrip(b: BitBuf, value: seq<bv8>) returns (r: Result<seq<bv8>>)
    requires b.Valid() && b.pos + 32 + 8 * |value| <= b.size && |value| < Pow2(32)
    modifies b, b.buf
    ensures b.Valid() && r == Ok(value)
  {
    ghost var s := b.Stream();
    var start := b.pos;
    var o := b.WriteString(value);
    ModSmall(|value|, Pow2(32));
    b.pos := start;
    r := ReadBackString(b, s, value);
  }

  /**
   * A `u16` part of `n` bits and a `u32` part of `m` bits written one just
   * after the other, so that the second starts inside the byte the first
   * ends in unless `n` is a multiple of 8, both read back.
   */
  method ReadBackAdjacent(b: BitBuf, ghost s: seq<bool>, x: U16, n: nat, y: U32, m: nat) returns (r1: Result<U16>, r2: Result<U32>)
    requires b.Valid() && 1 <= n <= 16 && 1 <= m <= 32 && b.pos + n + m <= b.size && |s| == b.size
    requires b.Stream() == PutTwo(s, b.pos, LowBits(x, n), LowBits(y, m))
    modifies b
    ensures b.Valid() && r1.Ok? && r1.value == x % Pow2(n) && r2.Ok? && r2.value == y % Pow2(m)
  {
    ghost var t, at := b.Stream(), b.pos;
    ghost var p, q := at + n, at + n + m;
    AdjacentValues(t, s, at, p, q, x, n, y, m);
    r1 := ReadBackFirst(b, t, at, n, p, x % Pow2(n));
    r2 := ReadBackSecond(b, t, p, m, q, y % Pow2(m));
  }

  // RunValue, RunValueAt, AdjacentValues, ReadBackFirst, ReadBackSecond, WriteRuns, WriteFirst and
  // WriteSecond have no counterpart in src/lib.rs: they only split the adjacency proofs into small steps.

  /** The bits of `t` from `i` up to `j` read as the number `v`. */
  ghost predicate RunValue(t: seq<bool>, i: nat, j: nat, v: nat)
  {
    i <= j <= |t| && Value(t[i..j]) == v
  }

  /** The run from `i` to `j` is the run from `i2` to `j2` when the ends agree. */
  lemma RunValueAt(t: seq<bool>, i: nat, j: nat, i2: nat, j2: nat, v: nat)
    requires i == i2 && j == j2 && i2 <= j2 <= |t| && Value(t[i2..j2]) == v
    ensures RunValue(t, i, j, v)
  {
  }

  /** The values of the two parts in the stream `t`, the first from `at` to `p`, the second from `p` to `q`. */
  lemma AdjacentValues(t: seq<bool>, s: seq<bool>, at: nat, p: nat, q: nat, x: nat, n: nat, y: nat, m: nat)
    requires |s| % 8 == 0 && p == at + n && q == p + m && q <= |s|
    requires t == PutTwo(s, at, LowBits(x, n), LowBits(y, m))
    ensures RunValue(t, at, p, x % Pow2(n)) && RunValue(t, p, q, y % Pow2(m))
  {
    AdjacentFields(s, at, x, n, y, m);
    RunValueAt(t, at, p, at, at + n, x % Pow2(n));
    RunValueAt(t, p, q, at + n, at + n + m, y % Pow2(m));
  }

  /** The first half of `ReadBackAdjacent`: a `u16` part of `n` bits, from `at` to `p`, whose value in `t` is `v`. */
  method ReadBackFirst(b: BitBuf, ghost t: seq<bool>, ghost at: nat, n: nat, ghost p: nat, ghost v: nat) returns (r1: Result<U16>)
    requires b.Valid() && b.Stream() == t && b.pos == at && 1 <= n <= 16 && p == at + n && RunValue(t, at, p, v)
    modifies b
    ensures b.Valid() && b.Stream() == t && b.pos == p && r1.Ok? && r1.value == v
  {
    r1 := b.ReadU16Part(n);
  }

  /** The second half of `ReadBackAdjacent`: a `u32` part of `m` bits, from `p` to `q`, whose value in `t` is `v`. */
  method ReadBackSecond(b: BitBuf, ghost t: seq<bool>, ghost p: nat, m: nat, ghost q: nat, ghost v: nat) returns (r2: Result<U32>)
    requires b.Valid() && b.Stream() == t && b.pos == p && 1 <= m <= 32 && q == p + m && RunValue(t, p, q, v)
    modifies b
    ensures b.Valid() && r2.Ok? && r2.value == v
  {
    r2 := b.ReadU32Part(m);
  }

  /** Writes a `u16` part of `n` bits and, just after it, a `u32` part of `m` bits. */
  method WriteAdjacent(b: BitBuf, x: U16, n: nat, y: U32, m: nat) returns (o1: Outcome, o2: Outcome)
    requires b.Valid() && 1 <= n <= 16 && 1 <= m <= 32 && b.pos + n + m <= b.size
    modifies b, b.buf
    ensures b.Valid() && b.size == old(b.size) && o1 == Pass && o2 == Pass && b.pos == old(b.pos) + n + m
    ensures b.Stream() == PutTwo(old(b.Stream()), old(b.pos), LowBits(x, n), LowBits(y, m))
  {
    o1, o2 := WriteRuns(b, x, n, y, m, LowBits(x, n), LowBits(y, m));
  }

  /** `WriteAdjacent` with the bits of the two parts named `a` and `c`. */
  method WriteRuns(b: BitBuf, x: U16, n: nat, y: U32, m: nat, ghost a: seq<bool>, ghost c: seq<bool>) returns (o1: Outcome, o2: Outcome)
    requires b.Valid() && 1 <= n <= 16 && 1 <= m <= 32 && b.pos + n + m <= b.size
    requires a == LowBits(x, n) && c == LowBits(y, m)
    modifies b, b.buf
    ensures b.Valid() && b.size == old(b.size) && o1 == Pass && o2 == Pass && b.pos == old(b.pos) + n + m
    ensures b.Stream() == PutTwo(old(b.Stream()), old(b.pos), a, c)
  {
    ghost var s0, p0 := b.Stream(), b.pos;
    o1 := WriteFirst(b, x, n, a);
    ghost var s1, p1 := b.Stream(), b.pos;
    o2 := WriteSecond(b, y, m, c);
    PutTwoSteps(s0, s1, b.Stream(), p0, p1, a, c);
  }

  /** The first half of `WriteAdjacent`: the `u16` part, whose bits are `a`, at the cursor. */
  method WriteFirst(b: BitBuf, x: U16, n: nat, ghost a: seq<bool>) returns (o1: Outcome)
    requires b.Valid() && 1 <= n <= 16 && b.pos + n <= b.size && a == LowBits(x, n)
    modifies b, b.buf
    ensures b.Valid() && b.buf == old(b.buf) && b.size == old(b.size) && o1 == Pass && b.pos == old(b.pos) + |a|
    ensures b.Stream() == Put(old(b.Stream()), old(b.pos), a)
  {
    o1 := b.WriteU16Part(x, n);
  }

  /** The second half of `WriteAdjacent`: the `u32` part, whose bits are `c`, at the cursor. */
  method WriteSecond(b: BitBuf, y: U32, m: nat, ghost c: seq<bool>) returns (o2: Outcome)
    requires b.Valid() && 1 <= m <= 32 && b.pos + m <= b.size && c == LowBits(y, m)
    modifies b, b.buf
    ensures b.Valid() && b.buf == old(b.buf) && b.size == old(b.size) && o2 == Pass && b.pos == old(b.pos) + m
    ensures b.Stream() == Put(old(b.Stream()), old(b.pos), c)
  {
    o2 := b.WriteU32Part(y, m);
  }

  /** The second of two adjacent parts does not disturb the first: both read back. */
  method AdjacentRoundTrip(b: BitBuf, x: U16, n: nat, y: U32, m: nat) returns (r1: Result<U16>, r2: Result<U32>)
    requires b.Valid() && 1 <= n <= 16 && 1 <= m <= 32 && b.pos + n + m <= b.size
    modifies b, b.buf
    ensures b.Valid() && r1.Ok? && r1.value == x % Pow2(n) && r2.Ok? && r2.value == y % Pow2(m)
  {
    ghost var s := b.Stream();
    var start := b.pos;
    var o1, o2 := WriteAdjacent(b, x, n, y, m);
    ghost var s2 := b.Stream();
    b.pos := start;
    assert b.Stream() == s2;
    r1, r2 := ReadBackAdjacent(b, s, x, n, y, m);
  }
}
