/**
 * What each branch of the primitive engine does to the bit stream of the
 * whole byte array: the byte-level descriptions of `Engine` become
 * `Put` (for writes) and stream slices (for reads).
 */
module Primitive {
  import opened Bits
  import opened BitStream
  import opened Fields

  /** An aligned write of `bits` bits at byte `p` stores the field and clears the rest of the byte. */
  lemma AlignedWrite(bytes: seq<bv8>, p: nat, value: bv8, bits: nat, x: bv8)
    requires p < |bytes| && 1 <= bits <= 8
    requires ByteBits(x, 8) == ByteBits(value, bits) + Zeros(8 - bits)
    ensures StreamOf(bytes[p := x]) == Put(StreamOf(bytes), 8 * p, ByteBits(value, bits))
  {
    var t := ByteBits(value, bits) + Zeros(8 - bits);
    var after := bytes[p := x];
    AlignedPad(p, bits);
    PutAfter(StreamOf(bytes), 8 * p, ByteBits(value, bits), Zeros(8 - bits));
    AlignedChange(bytes, p, x, t);
    StreamUpdate(bytes, after, p, 0, t);
  }

  lemma AlignedChange(before: seq<bv8>, p: nat, x: bv8, t: seq<bool>)
    requires p < |before| && |t| == 8 && ByteBits(x, 8) == t
    ensures TwoByteChange(before, before[p := x], p, 0, t)
  {
  }

  lemma AlignedPad(p: nat, bits: nat)
    requires 1 <= bits <= 8
    ensures Pad((8 * p) % 8 == 0, bits) == Zeros(8 - bits)
  {
    assert (8 * p) % 8 == 0;
  }

  /** An unaligned write that ends inside byte `p` changes the field's bits only. */
  lemma FitWrite(bytes: seq<bv8>, p: nat, used: nat, value: bv8, bits: nat, x: bv8)
    requires p < |bytes| && 1 <= used <= 7 && 1 <= bits <= 8 - used
    requires forall r | 0 <= r < 8 :: (ByteBits(x, 8)[r] ==
      if used <= r < used + bits then ByteBits(value, bits)[r - used] else ByteBits(bytes[p], 8)[r])
    ensures StreamOf(bytes[p := x]) == Put(StreamOf(bytes), 8 * p + used, ByteBits(value, bits))
  {
    var t := ByteBits(value, bits);
    UnalignedPad(p, used, bits);
    assert t + [] == t;
    StreamUpdate(bytes, bytes[p := x], p, used, t);
  }

  lemma UnalignedPad(p: nat, used: nat, bits: nat)
    requires 1 <= used <= 7
    ensures Pad((8 * p + used) % 8 == 0, bits) == []
  {
    DivModUnique(8 * p + used, 8, p, used);
  }

  /** An unaligned write across bytes `p` and `p + 1` changes the field's bits only. */
  lemma SpanWrite(bytes: seq<bv8>, p: nat, used: nat, value: bv8, bits: nat, x0: bv8, x1: bv8)
    requires p + 1 < |bytes| && 1 <= used <= 7 && 8 - used < bits <= 8
    requires SpanStored(bytes[p], bytes[p + 1], ByteBits(value, bits), used, x0, x1)
    ensures StreamOf(bytes[p := x0][p + 1 := x1]) == Put(StreamOf(bytes), 8 * p + used, ByteBits(value, bits))
  {
    var t := ByteBits(value, bits);
    UnalignedPad(p, used, bits);
    assert t + [] == t;
    var after := bytes[p := x0][p + 1 := x1];
    assert after[p] == x0 && after[p + 1] == x1;
    StreamUpdate(bytes, after, p, used, t);
  }

  /** An aligned read of a whole byte is the byte. */
  lemma AlignedRead(bytes: seq<bv8>, p: nat)
    requires p < |bytes|
    ensures ByteBits(bytes[p], 8) == StreamOf(bytes)[8 * p..8 * p + 8] + Zeros(0)
  {
    var s := StreamOf(bytes);
    forall r | 0 <= r < 8
      ensures ByteBits(bytes[p], 8)[r] == s[8 * p + r]
    {
      StreamBit(bytes, p, r);
    }
    assert s[8 * p..8 * p + 8] + Zeros(0) == s[8 * p..8 * p + 8];
  }

  /** A read that ends inside byte `p` is that run of the stream. */
  lemma FitRead(bytes: seq<bv8>, p: nat, used: nat, bits: nat, x: bv8)
    requires p < |bytes| && used <= 7 && 1 <= bits <= 8 - used
    requires forall r | 0 <= r < 8 :: ByteBits(x, 8)[r] == (r < bits && ByteBits(bytes[p], 8)[used + r])
    ensures ByteBits(x, 8) == StreamOf(bytes)[8 * p + used..8 * p + used + bits] + Zeros(8 - bits)
  {
    StreamRead(bytes, p, used, bits, x);
  }

  /** A read across bytes `p` and `p + 1` is that run of the stream. */
  lemma SpanRead(bytes: seq<bv8>, p: nat, used: nat, bits: nat, x: bv8)
    requires p + 1 < |bytes| && 1 <= used <= 7 && 8 - used < bits <= 8
    requires forall r | 0 <= r < 8 :: (ByteBits(x, 8)[r] == (r < bits &&
      if used + r < 8 then ByteBits(bytes[p], 8)[used + r] else ByteBits(bytes[p + 1], 8)[used + r - 8]))
    ensures ByteBits(x, 8) == StreamOf(bytes)[8 * p + used..8 * p + used + bits] + Zeros(8 - bits)
  {
    StreamRead(bytes, p, used, bits, x);
  }
}
