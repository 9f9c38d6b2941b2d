# bitbuf in Dafny

A model of `BitBuf` from the Rust crate bitbuf. `BitBuf` is a fixed-size byte buffer with one bit cursor. Reads and writes share the cursor. They pack fields of any bit width tightly, least significant bit first, with no padding between them.

The model reads the buffer as one stream of bits: bit `8k + i` of the stream is bit `i` of byte `k`, counted from the least significant. Each operation is specified against that stream:

- A write of an `n`-bit field puts its low `n` bits at the cursor. This is `Fields.Put`. When the cursor is on a byte boundary, the write also clears the rest of the last byte it touches.
- A read returns the value of the `n` bits at the cursor.
- Both advance the cursor by `n`.

The layers follow the source:

- `Buffer` (bitbuf.dfy) is the `BitBuf` class. Its fields are the byte array `buf`, the cursor `pos` and the capacity in bits `size`. It holds the constructor, the accessors, the two primitives `InWriteByte` and `InReadByte`, and every typed codec built on them.
- `Engine` (engine.dfy) holds the byte expressions of the primitives, one per branch. Each is specified by where every bit of its result comes from.
- `Primitive` (primitive.dfy) lifts each branch to the stream.
- `BitStream` (stream.dfy) and `Bits` (bits.dfy) define the stream view and the numbers behind it.
- `Fields` (fields.dfy) describes what a run of writes or reads does to the stream. It proves that a sequence of byte accesses, low byte first, amounts to one access to the whole field.
- `Ints` (ints.dfy) holds the fixed-width integer types and the two's complement reinterpretation that signed fields are stored by.
- `Outcomes` (outcomes.dfy) holds the error values.
- `RoundTrips` (roundtrips.dfy) proves, for every codec, that a value written, rewound and read back is the value, or its low bits for a partial field.
- `Scenarios` (scenarios.dfy) restates each unit test of the source as a method.
- `Findings` (findings.dfy) writes out three defects of the source as written, each with an input on which it goes wrong.

The source panics when an access runs past the end of the buffer. The model ends such an access with `OutOfBounds` before it changes anything. A bit count an operation cannot handle ends with `InvalidBitCount`. The source handles such a count silently or by overflow; see "## Left out".

## Model

| member | source | states |
|---|---|---|
| Buffer.BitBuf.constructor | src/lib.rs:60-70 | `WithLen(len)` gives `len` zero bytes, the cursor at 0 and a size of `8 * len` bits; its stream is all zeros |
| Buffer.BitBuf.ToVec | src/lib.rs:72-74 | returns `size / 8` bytes whose bit stream is the buffer's stream |
| Buffer.BitBuf.BitSize | src/lib.rs:82-84 | the size in bits is eight times the number of bytes |
| Buffer.BitBuf.BitPos | src/lib.rs:89-91 | the cursor never exceeds the size |
| Buffer.BitBuf.BytePos | src/lib.rs:93-95 | the byte position is the byte that holds the cursor: `8 * r <= pos < 8 * r + 8` |
| Buffer.BitBuf.CanWriteBits | src/lib.rs:97-99 | true exactly when `bitCount` more bits fit after the cursor (corrected form, see Findings) |
| Buffer.BitBuf.CanReadBits | src/lib.rs:101-103 | true exactly when `bitCount` more bits remain after the cursor (corrected form, see Findings) |
| Buffer.BitBuf.CanWriteBytes | src/lib.rs:105-107 | true exactly when `byteCount` whole bytes fit after the cursor |
| Buffer.BitBuf.CanReadBytes | src/lib.rs:109-111 | true exactly when `byteCount` whole bytes remain after the cursor |
| Buffer.BitBuf.InWriteByte | src/lib.rs:409-431 | a count outside 1..8 is refused; the write succeeds exactly when the field fits; on success the stream is the old stream with the low `bits` bits of `value` put at the cursor, and the cursor advances by `bits`; on failure nothing changes; only the cursor's byte changes, and the next byte only when the field spans into it |
| Buffer.BitBuf.InReadByte | src/lib.rs:434-454 | a count outside 1..8 is refused; the read succeeds exactly when the field fits; the bytes never change; on success the result's value is the value of the `bits` stream bits at the cursor, and the cursor advances by `bits` |
| Buffer.BitBuf.WriteBool | src/lib.rs:113-115 | writes the one bit `value` at the cursor |
| Buffer.BitBuf.ReadBool | src/lib.rs:117-119 | returns the stream bit at the cursor |
| Buffer.BitBuf.WriteI8 | src/lib.rs:121-123 | writes the 8-bit two's complement pattern of `value` |
| Buffer.BitBuf.ReadI8 | src/lib.rs:125-127 | returns the `i8` whose pattern is the 8 bits at the cursor |
| Buffer.BitBuf.WriteI8Part | src/lib.rs:129-131 | writes the low `bits` bits of the pattern of `value` |
| Buffer.BitBuf.ReadI8Part | src/lib.rs:133-135 | returns the `i8` whose pattern is the value of the `bits` bits at the cursor, with no sign extension |
| Buffer.BitBuf.WriteU8 | src/lib.rs:137-139 | writes the 8 bits of `value` |
| Buffer.BitBuf.ReadU8 | src/lib.rs:141-143 | returns the value of the 8 bits at the cursor |
| Buffer.BitBuf.WriteU8Part | src/lib.rs:145-147 | writes the low `bits` bits of `value`; a count outside 1..8 is refused and changes nothing |
| Buffer.BitBuf.ReadU8Part | src/lib.rs:149-151 | returns the value of the `bits` bits at the cursor |
| Buffer.BitBuf.WriteU16 | src/lib.rs:153-155 | writes all 16 bits of `value` |
| Buffer.BitBuf.ReadU16 | src/lib.rs:157-159 | returns the value of the 16 bits at the cursor |
| Buffer.BitBuf.WriteU16Part | src/lib.rs:161-177 | a count outside 1..16 writes nothing; otherwise the low `bits` bits of `value` end up at the cursor, written as up to two byte accesses |
| Buffer.BitBuf.ReadU16Part | src/lib.rs:179-197 | a count outside 1..16 reads nothing; otherwise returns the value of the `bits` bits at the cursor, assembled from up to two byte reads |
| Buffer.BitBuf.WriteI16 | src/lib.rs:199-201 | writes the 16-bit pattern of `value` |
| Buffer.BitBuf.ReadI16 | src/lib.rs:203-205 | returns the `i16` whose pattern is the 16 bits at the cursor |
| Buffer.BitBuf.WriteI16Part | src/lib.rs:207-209 | writes the low `bits` bits of the 16-bit pattern of `value` |
| Buffer.BitBuf.ReadI16Part | src/lib.rs:211-213 | returns the `i16` whose pattern is the value of the `bits` bits at the cursor |
| Buffer.BitBuf.WriteU32 | src/lib.rs:215-217 | writes all 32 bits of `value` |
| Buffer.BitBuf.ReadU32 | src/lib.rs:219-221 | returns the value of the 32 bits at the cursor |
| Buffer.BitBuf.WriteU32Part | src/lib.rs:223-252 | a count outside 1..32 writes nothing; otherwise the low `bits` bits of `value` end up at the cursor, written as up to four byte accesses |
| Buffer.BitBuf.ReadU32Part | src/lib.rs:254-285 | a count outside 1..32 reads nothing; otherwise returns the value of the `bits` bits at the cursor |
| Buffer.BitBuf.ReadI32 | src/lib.rs:287-289 | returns the `i32` whose pattern is the 32 bits at the cursor |
| Buffer.BitBuf.WriteI32 | src/lib.rs:291-293 | writes the 32-bit pattern of `value` |
| Buffer.BitBuf.WriteI32Part | src/lib.rs:295-297 | writes the low `bits` bits of the 32-bit pattern of `value` |
| Buffer.BitBuf.ReadI32Part | src/lib.rs:299-301 | returns the `i32` whose pattern is the value of the `bits` bits at the cursor |
| Buffer.BitBuf.WriteU64 | src/lib.rs:303-305 | writes all 64 bits of `value` |
| Buffer.BitBuf.ReadU64 | src/lib.rs:307-309 | returns the value of the 64 bits at the cursor |
| Buffer.BitBuf.WriteU64Part | src/lib.rs:311-318 | writes the low 32 bits, then `bits - 32` bits of the high half; the low `bits` bits of `value` end up at the cursor; a count of 0 writes nothing; a count above 64 writes 32 bits and then fails |
| Buffer.BitBuf.ReadU64Part | src/lib.rs:320-328 | returns the value of the `bits` bits at the cursor, read as a low and a high half; a count above 64 reads 32 bits and then fails |
| Buffer.BitBuf.WriteI64 | src/lib.rs:330-332 | writes the 64-bit pattern of `value` |
| Buffer.BitBuf.ReadI64 | src/lib.rs:334-336 | returns the `i64` whose pattern is the 64 bits at the cursor |
| Buffer.BitBuf.WriteI64Part | src/lib.rs:338-340 | writes the low `bits` bits of the 64-bit pattern of `value` |
| Buffer.BitBuf.ReadI64Part | src/lib.rs:342-344 | returns the `i64` whose pattern is the value of the `bits` bits at the cursor |
| Buffer.BitBuf.WriteF32 | src/lib.rs:346-352 | writes the four memory bytes of the float, first to last |
| Buffer.BitBuf.ReadF32 | src/lib.rs:354-361 | returns the float whose four memory bytes are the 32 bits at the cursor |
| Buffer.BitBuf.WriteF64 | src/lib.rs:363-373 | writes the eight memory bytes of the float, first to last |
| Buffer.BitBuf.ReadF64 | src/lib.rs:375-386 | returns the float whose eight memory bytes are the 64 bits at the cursor |
| Buffer.BitBuf.WriteU8Slice | src/lib.rs:388-392 | writes the bytes of the slice one after another |
| Buffer.BitBuf.ReadVecU8 | src/lib.rs:394-396 | returns `length` bytes whose bit stream is the `8 * length` bits at the cursor |
| Buffer.BitBuf.WriteString | src/lib.rs:398-401 | writes the length, cut to 32 bits, and then the bytes |
| Buffer.BitBuf.ReadString | src/lib.rs:403-406 | reads a 32-bit length and then that many bytes; succeeds exactly when both fit |
| Buffer.WithinStore | src/lib.rs:421-423 | the byte a write ending inside its byte leaves makes the stream be the old stream with the field put at its bit |
| Buffer.AcrossStore | src/lib.rs:424-426 | the two bytes a write running into the next byte leaves make the stream be the old stream with the field put at its bit |
| Buffer.FourBytes | src/lib.rs:11-26 | the memory view of an `f32` has four bytes |
| Buffer.EightBytes | src/lib.rs:28-48 | the memory view of an `f64` has eight bytes |
| Buffer.LowFour | src/lib.rs:363-373 | the first four bytes of an `f64`, as its write splits it |
| Buffer.HighFour | src/lib.rs:363-373 | the last four bytes of an `f64` |
| Buffer.JoinFours | src/lib.rs:375-386 | the `f64` rebuilt from two four-byte halves has their bytes in order, and splitting it gives the halves back |
| Engine.Masked | src/lib.rs:410-416 | the stored field is `value`'s low `bits` bits followed by zeros, which is what an aligned write stores as the whole byte |
| Engine.FitByte | src/lib.rs:421-423 | a write ending inside the byte replaces bits `used .. used + bits` by the field and keeps every other bit (corrected mask, see Findings) |
| Engine.SpanBytes | src/lib.rs:424-426 | a write across two bytes puts the field's first `8 - used` bits at the top of the first byte and the rest at the bottom of the second; all other bits are kept |
| Engine.FitReadByte | src/lib.rs:442-445 | a read ending inside the byte returns bits `used .. used + bits` moved to the bottom, the bits above clear (corrected remainder, see Findings) |
| Engine.SpanReadByte | src/lib.rs:442-449 | a read across two bytes returns the field's bits from both bytes in order, the bits above clear |
| BitStream.FitMask | src/lib.rs:422 | the mask keeps exactly the bits below `used` and from `used + n` on |
| Primitive.AlignedWrite | src/lib.rs:415-416 | an aligned byte store is a `Put` of the field at that byte |
| Primitive.FitWrite | src/lib.rs:421-423 | the single-byte unaligned store is a `Put` of the field at the cursor |
| Primitive.SpanWrite | src/lib.rs:424-426 | the two-byte store is a `Put` of the field at the cursor |
| Primitive.AlignedRead | src/lib.rs:439-440 | a whole aligned byte is the 8 stream bits at it |
| Primitive.FitRead | src/lib.rs:442-445 | a read inside one byte returns the stream run at the cursor, zero-extended |
| Primitive.SpanRead | src/lib.rs:446-449 | a read across two bytes returns the stream run at the cursor, zero-extended |
| Fields.PutRead | src/lib.rs:409-431 | after a write, the written run is in the stream at the cursor |
| Fields.PutBelow | src/lib.rs:409-431 | a write keeps every bit before the cursor |
| Fields.PutAboveUnaligned | src/lib.rs:421-426 | an unaligned write keeps every bit after the field |
| Fields.PutAboveAligned | src/lib.rs:415-416 | an aligned write clears the rest of its last byte and keeps every bit after that byte |
| Fields.PutThen | src/lib.rs:161-177 | writing whole bytes and then a run directly after them is writing both runs at once |
| Fields.PutNothing | src/lib.rs:409-431 | writing an empty run changes nothing |
| Fields.PutNextByte | src/lib.rs:223-252 | writing the low `8k` bits of a field and then `m` bits of its byte `k` writes its low `8k + m` bits |
| Fields.PutHighHalf | src/lib.rs:311-318 | writing the low 32 bits and then `m` bits of `v >> 32` writes the low `32 + m` bits |
| Fields.ReadThen | src/lib.rs:179-197 | the value of an `n + m`-bit run is the value of its first `n` bits plus `2^n` times the value of the rest |
| Fields.FieldRoundTrip | src/lib.rs:409-454 | a written field of `n` bits reads back as its value modulo `2^n` |
| Fields.PutNextWholeByte | src/lib.rs:388-392 | writing bytes `bs` and then byte `b` writes `bs + [b]` |
| Fields.ReadNextWholeByte | src/lib.rs:394-396 | reading bytes and then one more byte reads the longer run |
| Fields.BytesRoundTrip | src/lib.rs:388-396 | bytes written as a run and read back are the same bytes |
| Fields.LengthThenBytes | src/lib.rs:398-406 | a length field followed by bytes reads back as that length and those bytes |
| Fields.LengthThenBytesRoundTrip | src/lib.rs:398-406 | reading as many bytes as the length field says gives back the written bytes |
| Fields.PutAdjacent | src/lib.rs:409-431 | two runs written one just after the other are both in the stream, in order, also when the second starts inside the byte the first ends in |
| Fields.FirstOfTwo | src/lib.rs:417-427 | a second write, just after the first, keeps every bit of the first run |
| Fields.AdjacentFields | src/lib.rs:409-454 | an `n`-bit field and an `m`-bit field written one after the other read back as their values modulo `2^n` and `2^m` |
| Ints.ToUnsigned | src/lib.rs:129-131 | the `w`-bit pattern of `v` is below `2^w`: `v` itself when non-negative, `v + 2^w` when negative |
| Ints.PatternIsMod | src/lib.rs:129-131 | the pattern of `v` is `v` modulo `2^w` |
| Ints.FromUnsigned | src/lib.rs:133-135 | the signed reading of a `w`-bit pattern is in range: the pattern itself below `2^(w-1)`, the pattern minus `2^w` from there on |
| Ints.SignedRoundTrip | src/lib.rs:121-127 | reinterpreting a signed value as unsigned and back gives the value |
| Ints.UnsignedRoundTrip | src/lib.rs:121-127 | reinterpreting a pattern as signed and back gives the pattern |
| Ints.PatternInjective | src/lib.rs:129-135 | distinct signed values have distinct patterns |
| Ints.SignedPartRoundTrip | src/lib.rs:207-213 | a signed value cut to `bits` bits reads back as itself for the whole width, and for a part when it is non-negative and fits |
| Ints.PartIsNonNegative | src/lib.rs:211-213 | a part narrower than the width reads back non-negative: no sign extension |
| Ints.SplitJoin64 | src/lib.rs:311-328 | the halves `value as u32` and `(value >> 32) as u32` that a 64-bit write splits a value into give the value back as `lo + 2^32 * hi`, and joining them as the 64-bit read does gives the value itself |
| Ints.Join64 | src/lib.rs:320-328 | combining halves gives `lo + 2^32 * hi`, whose low and high halves are the halves |
| RoundTrips.ReadBackByte | src/lib.rs:434-454 | after a primitive write at the cursor, the primitive read returns `value & (0xFF >> (8 - bits))` |
| RoundTrips.ByteRoundTrip | src/lib.rs:409-454 | the primitive round trip at any bit offset returns `value & (0xFF >> (8 - bits))` |
| RoundTrips.ReadBackBool | src/lib.rs:117-119 | a written bit reads back |
| RoundTrips.BoolRoundTrip | src/lib.rs:113-119 | write, rewind and read of a `bool` gives it back |
| RoundTrips.ReadBackU8Part | src/lib.rs:149-151 | a written `u8` part reads back as the value modulo `2^bits` |
| RoundTrips.U8PartRoundTrip | src/lib.rs:145-151 | the `u8` part round trip gives the value modulo `2^bits` |
| RoundTrips.ReadBackU8 | src/lib.rs:141-143 | a written `u8` reads back |
| RoundTrips.U8RoundTrip | src/lib.rs:137-143 | the `u8` round trip gives the value back |
| RoundTrips.ReadBackI8Part | src/lib.rs:133-135 | a written `i8` part reads back as the value when it fits |
| RoundTrips.I8PartRoundTrip | src/lib.rs:129-135 | the `i8` part round trip gives the value back when the value fits |
| RoundTrips.SignedFieldRead | src/lib.rs:129-135 | a signed pattern read back where an `i8` part was written is the pattern of the written value, so the read value is the written one |
| RoundTrips.ReadBackI8 | src/lib.rs:125-127 | a written `i8` reads back |
| RoundTrips.I8RoundTrip | src/lib.rs:121-127 | the `i8` round trip gives the value back, negative ones included |
| RoundTrips.ReadBackU16Part | src/lib.rs:179-197 | a written `u16` part reads back as the value modulo `2^bits` |
| RoundTrips.U16PartRoundTrip | src/lib.rs:161-197 | the `u16` part round trip gives the value modulo `2^bits` |
| RoundTrips.ReadBackU16 | src/lib.rs:157-159 | a written `u16` reads back |
| RoundTrips.U16RoundTrip | src/lib.rs:153-159 | the `u16` round trip gives the value back |
| RoundTrips.ReadBackI16Part | src/lib.rs:211-213 | a written `i16` part reads back as the value when it fits |
| RoundTrips.I16PartRoundTrip | src/lib.rs:207-213 | the `i16` part round trip gives the value back when the value fits |
| RoundTrips.ReadBackI16 | src/lib.rs:203-205 | a written `i16` reads back |
| RoundTrips.I16RoundTrip | src/lib.rs:199-205 | the `i16` round trip gives the value back |
| RoundTrips.ReadBackU32Part | src/lib.rs:254-285 | a written `u32` part reads back as the value modulo `2^bits` |
| RoundTrips.U32PartRoundTrip | src/lib.rs:223-285 | the `u32` part round trip gives the value modulo `2^bits` |
| RoundTrips.ReadBackU32 | src/lib.rs:219-221 | a written `u32` reads back |
| RoundTrips.U32RoundTrip | src/lib.rs:215-221 | the `u32` round trip gives the value back |
| RoundTrips.ReadBackI32Part | src/lib.rs:299-301 | a written `i32` part reads back as the value when it fits |
| RoundTrips.I32PartRoundTrip | src/lib.rs:295-301 | the `i32` part round trip gives the value back when the value fits |
| RoundTrips.ReadBackI32 | src/lib.rs:287-289 | a written `i32` reads back |
| RoundTrips.I32RoundTrip | src/lib.rs:287-293 | the `i32` round trip gives the value back |
| RoundTrips.ReadBackU64Part | src/lib.rs:320-328 | a written `u64` part reads back as the value modulo `2^bits` |
| RoundTrips.U64PartRoundTrip | src/lib.rs:311-328 | the `u64` part round trip gives the value modulo `2^bits` |
| RoundTrips.ReadBackU64 | src/lib.rs:307-309 | a written `u64` reads back |
| RoundTrips.U64RoundTrip | src/lib.rs:303-309 | the `u64` round trip gives the value back |
| RoundTrips.ReadBackI64Part | src/lib.rs:342-344 | a written `i64` part reads back as the value when it fits |
| RoundTrips.I64PartRoundTrip | src/lib.rs:338-344 | the `i64` part round trip gives the value back when the value fits |
| RoundTrips.ReadBackI64 | src/lib.rs:334-336 | a written `i64` reads back |
| RoundTrips.I64RoundTrip | src/lib.rs:330-336 | the `i64` round trip gives the value back |
| RoundTrips.ReadBackF32 | src/lib.rs:354-361 | a written `f32` reads back as the same four bytes |
| RoundTrips.F32RoundTrip | src/lib.rs:346-361 | the `f32` round trip gives the float back |
| RoundTrips.ReadBackF64 | src/lib.rs:375-386 | a written `f64` reads back as the same eight bytes |
| RoundTrips.F64RoundTrip | src/lib.rs:363-386 | the `f64` round trip gives the float back |
| RoundTrips.ReadBackSlice | src/lib.rs:394-396 | written bytes read back, when as many are asked for |
| RoundTrips.SliceRoundTrip | src/lib.rs:388-396 | the byte slice round trip gives the bytes back |
| RoundTrips.StringRead | src/lib.rs:403-406 | on a stream holding a length field and bytes, a read that reads the length and then that many bytes succeeds and gives back the bytes |
| RoundTrips.ReadBackString | src/lib.rs:403-406 | a written string reads back as its bytes |
| RoundTrips.StringRoundTrip | src/lib.rs:398-406 | the string round trip gives the bytes back, for lengths below `2^32` |
| RoundTrips.WriteAdjacent | src/lib.rs:161-177 | a `u16` part and then a `u32` part (`write_u32_part`, lines 223-252) succeed, move the cursor by both widths and leave both runs in the stream one after the other |
| RoundTrips.ReadBackAdjacent | src/lib.rs:179-197 | a `u16` part read and then a `u32` part read (`read_u32_part`, lines 254-285) over two adjacent written parts give their values modulo `2^n` and `2^m` |
| RoundTrips.AdjacentRoundTrip | src/lib.rs:161-197 | writing a `u16` part and a `u32` part just after it, rewinding and reading both gives each value modulo `2^n` and `2^m`, whether or not the second part starts on a byte boundary |
| Scenarios.TestF32 | src/lib.rs:616-622 | the memory bytes of the test value `3.0393124f32` |
| Scenarios.TestF64 | src/lib.rs:625-631 | the memory bytes of the test value `3.0395831239485302f64` |
| Scenarios.TestString | src/lib.rs:634-640 | the 55 bytes of the test string |
| Scenarios.BoolWriteRead | src/lib.rs:461-467 | `true` written and read back on a 1400-byte buffer is `true` |
| Scenarios.U8WriteRead | src/lib.rs:470-476 | 211 reads back as 211 |
| Scenarios.U8PartWriteRead | src/lib.rs:479-485 | 15 in 4 bits reads back as 15 |
| Scenarios.I8PartWriteRead | src/lib.rs:488-494 | 6 in 4 bits reads back as 6 |
| Scenarios.I8WriteRead | src/lib.rs:497-503 | -109 reads back as -109 |
| Scenarios.U16WriteRead | src/lib.rs:506-512 | 34507 reads back as 34507 |
| Scenarios.U16PartWriteRead | src/lib.rs:515-523 | 448 in 13 bits reads back as 448 |
| Scenarios.I16WriteRead | src/lib.rs:526-532 | -11066 reads back as -11066 |
| Scenarios.I16PartWriteRead | src/lib.rs:535-541 | 10034 in 15 bits reads back as 10034 |
| Scenarios.U32WriteRead | src/lib.rs:544-550 | 193772 reads back as 193772 |
| Scenarios.U32PartWriteRead | src/lib.rs:553-559 | 839011 in 27 bits reads back as 839011 |
| Scenarios.I32PartWriteRead | src/lib.rs:562-568 | 54397 in 22 bits reads back as 54397 |
| Scenarios.I32WriteRead | src/lib.rs:571-577 | -23498225 reads back as -23498225 |
| Scenarios.U64PartWriteRead | src/lib.rs:580-586 | 32944949231715 in 59 bits reads back as itself |
| Scenarios.U64WriteRead | src/lib.rs:589-595 | 248394023907611 reads back as itself |
| Scenarios.I64PartWriteRead | src/lib.rs:598-604 | 1998372011 in 50 bits reads back as itself |
| Scenarios.I64WriteRead | src/lib.rs:607-613 | -24839402390 reads back as itself |
| Scenarios.F32WriteRead | src/lib.rs:616-622 | the bytes of the test value `3.0393124f32` read back as themselves |
| Scenarios.F64WriteRead | src/lib.rs:625-631 | the bytes of the test value `3.0395831239485302f64` read back as themselves |
| Scenarios.StringWriteRead | src/lib.rs:634-640 | the test string reads back as itself |
| Findings.FitMaskCounterexample | src/lib.rs:422 | the mask as written keeps all eight bits for a field that ends at the end of its byte, so a write of 0 into bits 4..8 of `0xF0` leaves `0xF0` |
| Findings.ReadByteCounterexample | src/lib.rs:443 | the remainder as written wraps, so a 4-bit read of `[0x3F, 0x00]` returns `0x3F`, not 15 |
| Findings.FillOneByte | src/lib.rs:97-99 | on a one-byte buffer a `u8` fits and its write succeeds, while the check as written says it does not fit |

## Left out

- The `unsafe` transmutes of `FourByte` and `EightByte`: a float is modelled as its memory bytes, first to last, so float arithmetic and byte order in memory are not modelled.
- `String::from_utf8(..).unwrap()` in `read_string`: a string is its byte sequence; UTF-8 validation and the panic on invalid UTF-8 are not modelled.
- `Vec::with_capacity` and `set_len` in `with_len`: the model allocates an array and zeroes it, which is what the loop after them achieves.
- Buffer.BitBuf.WriteU16Part, Buffer.BitBuf.WriteU32, Buffer.BitBuf.WriteU64, Buffer.BitBuf.WriteU8Slice, Buffer.BitBuf.WriteString and every other write or read of more than one byte: the source accesses the leading bytes and then panics at the first index past the end of the buffer; the model compares the whole field with the capacity first and, when it ends with `OutOfBounds`, leaves the bytes and the cursor as they were. The partly written bytes that a caller catching the panic would see are not modelled.
- Buffer.BitBuf.ReadString: when the length it has read does not fit, the model puts the cursor back where it was; the source has already moved past the length when it panics.
- Buffer.BitBuf.ReadU16Part: for a count outside 1..16 the source returns 0 and reads nothing; the model returns `InvalidBitCount`, with the cursor unchanged. The same holds for the 32-bit part reads with counts outside 1..32 and for the 64-bit part reads with a count of 0.
- Buffer.BitBuf.ReadU64Part, Buffer.BitBuf.ReadI64Part: for a count above 64 the source reads the low 32 bits, skips the second half, whose count is above 32, and returns those 32 bits as a normal result with the cursor 32 bits on; the model makes the same read and leaves the cursor 32 bits on, but returns `InvalidBitCount` instead of the value.
- Buffer.BitBuf.WriteU16Part: for a count outside 1..16 the source writes nothing and returns silently; the model returns `InvalidBitCount`, with nothing changed. The same holds for the 32-bit part writes with counts outside 1..32 and for the 64-bit part writes with a count of 0.
- Buffer.BitBuf.WriteU64Part, Buffer.BitBuf.WriteI64Part: for a count above 64 the source writes the low 32 bits, skips the second half, whose count is above 32, and returns normally with the cursor 32 bits on; the model makes the same write and leaves the cursor 32 bits on, but returns `InvalidBitCount`.
- Buffer.BitBuf.InWriteByte, Buffer.BitBuf.InReadByte, Buffer.BitBuf.WriteU8Part, Buffer.BitBuf.ReadU8Part, Buffer.BitBuf.WriteI8Part, Buffer.BitBuf.ReadI8Part: the source does not refuse a count of 0 or above 8. A write shifts by an out-of-range amount. A read wraps its remainder for 0 and, for a count above 8 such as 9 bits at an offset of 4, returns a truncated byte and still advances the cursor by the whole count. The model refuses such a count with `InvalidBitCount` up front and changes nothing.
- Bit counts are `nat`, not `u8`, so the `u8` overflow of `bits + 7` for counts from 249 up is not modelled.
- Buffer.BitBuf.WriteString: the length is written as `len as u32`, cut to 32 bits; RoundTrips.StringRoundTrip requires a length below `2^32`.
- A bitwise OR of fields with disjoint bits is modelled as a sum where a value is assembled from bytes.
- Buffer.BitBuf.ReadI16Part and the other signed part reads: the source does not sign-extend, so a negative value written as a part does not read back as itself (Ints.PartIsNonNegative); the round trips require a non-negative value that fits.
- The commented-out benchmarks (lines 642-837) are not modelled. The unit tests are modelled as the methods of `Scenarios`.

## Findings

| source | as written | input that shows it | evidently intended | confidence | as-written member | corrected member |
|---|---|---|---|---|---|---|
| src/lib.rs:422 | the mask is `(0xFF >> bits_free) \| (0xFF << (8 - bits_left))`; when the field ends at the end of its byte, `bits_left` is 0, the second shift is by 8 and wraps to a shift by 0 in an optimised build, and the mask keeps every bit | writing 0 in 4 bits at bit 4 of a byte holding `0xF0`: the byte stays `0xF0` | keep only the bits outside the field: no high part of the mask when `bits_left` is 0 | not executed | Findings.FitMaskCounterexample | Engine.FitByte |
| src/lib.rs:443 | `remainder` is the `u8` difference `bits - (8 - bits_used)`, which wraps whenever the field ends inside its byte, so the read takes the two-byte branch and does not clear the bits above the field | reading 4 bits at bit 0 of the bytes `[0x3F, 0x00]`: returns `0x3F` instead of 15 | a signed remainder, so that a field ending inside its byte is masked to its width | not executed | Findings.ReadByteCounterexample | Engine.FitReadByte |
| src/lib.rs:97-99 | `can_write_bits` compares `bit_size + pos < size`; `bit_size` is not defined there and the comparison is strict | `bit_count` 8 on a fresh one-byte buffer: the check says the byte does not fit, yet the write succeeds | `pos + bit_count <= size`, which `can_read_bits` at lines 101-103 shares | not executed | Findings.FillOneByte | Buffer.BitBuf.CanWriteBits |
