/**
 * The round trips of the unit tests in `src/lib.rs`, each on a fresh
 * buffer of 1400 bytes: the value written is the value read back. Floating-point
 * values appear as their little-endian memory bytes and the test string as
 * its UTF-8 bytes.
 */
module Scenarios {
  import opened Bits
  import opened BitStream
  import opened Outcomes
  import opened Ints
  import opened Buffer
  import opened RoundTrips

  /** The memory bytes of the `f32` value `3.0393124`. */
  function TestF32(): (f: FourByte)
    ensures FourBytes(f) == [24, 132, 66, 64]
  {
    FourByte(24, 132, 66, 64)
  }

  /** The memory bytes of the `f64` value `3.0395831239485302`. */
  function TestF64(): (f: EightByte)
    ensures EightBytes(f) == [220, 168, 246, 244, 16, 81, 8, 64]
  {
    EightByte(220, 168, 246, 244, 16, 81, 8, 64)
  }

  /** The UTF-8 bytes of "This is a test string. Nothing to see here. No, really!". */
  function TestString(): (bs: seq<bv8>)
    ensures |bs| == 55
  {
    [84, 104, 105, 115, 32, 105, 115, 32, 97, 32, 116, 101, 115, 116, 32, 115, 116, 114, 105,
    110, 103, 46, 32, 78, 111, 116, 104, 105, 110, 103, 32, 116, 111, 32, 115, 101, 101, 32,
    104, 101, 114, 101, 46, 32, 78, 111, 44, 32, 114, 101, 97, 108, 108, 121, 33]
  }

  /** `bool_writeread_equal`. */
  method BoolWriteRead() returns (r: Result<bool>)
    ensures r == Ok(true)
  {
    Widths();
    var buf := new BitBuf.WithLen(1400);
    r := BoolRoundTrip(buf, true);
  }

  /** `u8_writeread_equal`. */
  method U8WriteRead() returns (r: Result<bv8>)
    ensures r == Ok(211)
  {
    Widths();
    var buf := new BitBuf.WithLen(1400);
    r := U8RoundTrip(buf, 211);
  }

  /** `u8_part_writeread_equal`. */
  method U8PartWriteRead() returns (r: Result<bv8>)
    ensures r == Ok(15)
  {
    Widths();
    assert Pow2(4) == 16 && 15 % Pow2(4) == 15;
    var buf := new BitBuf.WithLen(1400);
    r := U8PartRoundTrip(buf, 15, 4);
    ByteOfNumber(r.value, 15);
  }

  /** `i8_part_writeread_equal`. */
  method I8PartWriteRead() returns (r: Result<I8>)
    ensures r == Ok(6)
  {
    Widths();
    assert Pow2(4) == 16;
    var buf := new BitBuf.WithLen(1400);
    r := I8PartRoundTrip(buf, 6, 4);
  }

  /** `i8_writeread_equal`. */
  method I8WriteRead() returns (r: Result<I8>)
    ensures r == Ok(-109)
  {
    Widths();
    var buf := new BitBuf.WithLen(1400);
    r := I8RoundTrip(buf, -109);
  }

  /** `u16_writeread_equal`. */
  method U16WriteRead() returns (r: Result<U16>)
    ensures r == Ok(34507)
  {
    Widths();
    var buf := new BitBuf.WithLen(1400);
    r := U16RoundTrip(buf, 34507);
  }

  /** `u16_part_writeread_equal`. */
  method U16PartWriteRead() returns (r: Result<U16>)
    ensures r == Ok(448)
  {
    Widths();
    var buf := new BitBuf.WithLen(1400);
    r := U16PartRoundTrip(buf, 448, 13);
    assert Pow2(13) == 8192;
  }

  /** `i16_writeread_equal`. */
  method I16WriteRead() returns (r: Result<I16>)
    ensures r == Ok(-11066)
  {
    Widths();
    var buf := new BitBuf.WithLen(1400);
    r := I16RoundTrip(buf, -11066);
  }

  /** `i16_part_writeread_equal`. */
  method I16PartWriteRead() returns (r: Result<I16>)
    ensures r == Ok(10034)
  {
    Widths();
    var buf := new BitBuf.WithLen(1400);
    r := I16PartRoundTrip(buf, 10034, 15);
  }

  /** `u32_writeread_equal`. */
  method U32WriteRead() returns (r: Result<U32>)
    ensures r == Ok(193772)
  {
    Widths();
    var buf := new BitBuf.WithLen(1400);
    r := U32RoundTrip(buf, 193772);
  }

  /** `u32_part_writeread_equal`. */
  method U32PartWriteRead() returns (r: Result<U32>)
    ensures r == Ok(839011)
  {
    Widths();
    var buf := new BitBuf.WithLen(1400);
    r := U32PartRoundTrip(buf, 839011, 27);
    assert Pow2(27) == 0x800_0000;
  }

  /** `i32_part_writeread_equal`. */
  method I32PartWriteRead() returns (r: Result<I32>)
    ensures r == Ok(54397)
  {
    Widths();
    assert Pow2(22) == 0x40_0000;
    var buf := new BitBuf.WithLen(1400);
    r := I32PartRoundTrip(buf, 54397, 22);
  }

  /** `i32_writeread_equal`. */
  method I32WriteRead() returns (r: Result<I32>)
    ensures r == Ok(-23498225)
  {
    Widths();
    var buf := new BitBuf.WithLen(1400);
    r := I32RoundTrip(buf, -23498225);
  }

  /** `u64_part_writeread_equal`. */
  method U64PartWriteRead() returns (r: Result<U64>)
    ensures r == Ok(32944949231715)
  {
    Widths();
    var buf := new BitBuf.WithLen(1400);
    r := U64PartRoundTrip(buf, 32944949231715, 59);
    assert Pow2(59) == 0x800_0000_0000_0000;
  }

  /** `u64_writeread_equal`. */
  method U64WriteRead() returns (r: Result<U64>)
    ensures r == Ok(248394023907611)
  {
    Widths();
    var buf := new BitBuf.WithLen(1400);
    r := U64RoundTrip(buf, 248394023907611);
  }

  /** `i64_part_writeread_equal`. */
  method I64PartWriteRead() returns (r: Result<I64>)
    ensures r == Ok(1998372011)
  {
    Widths();
    assert Pow2(50) == 0x4_0000_0000_0000;
    var buf := new BitBuf.WithLen(1400);
    r := I64PartRoundTrip(buf, 1998372011, 50);
  }

  /** `i64_writeread_equal`. */
  method I64WriteRead() returns (r: Result<I64>)
    ensures r == Ok(-24839402390)
  {
    Widths();
    var buf := new BitBuf.WithLen(1400);
    r := I64RoundTrip(buf, -24839402390);
  }

  /** `f32_writeread_equal`. */
  method F32WriteRead() returns (r: Result<FourByte>)
    ensures r == Ok(TestF32())
  {
    Widths();
    var buf := new BitBuf.WithLen(1400);
    r := F32RoundTrip(buf, TestF32());
  }

  /** `f64_writeread_equal`. */
  method F64WriteRead() returns (r: Result<EightByte>)
    ensures r == Ok(TestF64())
  {
    Widths();
    var buf := new BitBuf.WithLen(1400);
    r := F64RoundTrip(buf, TestF64());
  }

  /** `string_writeread_equal`. */
  method StringWriteRead() returns (r: Result<seq<bv8>>)
    ensures r == Ok(TestString())
  {
    Widths();
    var buf := new BitBuf.WithLen(1400);
    r := StringRoundTrip(buf, TestString());
  }
}
