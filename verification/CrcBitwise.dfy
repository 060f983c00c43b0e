/**
 The bit-by-bit reference of crc64.c: an unreflected register fed from its most significant
 end, reversed once at the end. It computes `CrcSpec.Crc` of the reversed seed.
 */
module CrcBitwise {
  import opened Words
  import opened Shifts
  import opened CrcSpec

  const POLY: bv64 := 0xad93_d235_94c9_35a9

  /**
   Reverse the bits of a word in six exchange steps. The source also takes a width and drops
   the bits above it; every caller passes 64, which drops none.
   */
  function Reflect(data: bv64): bv64 {
    // odd and even bits, consecutive pairs, nibbles
    var d := ((data >> 1) & 0x5555_5555_5555_5555) | ((data & 0x5555_5555_5555_5555) << 1);
    var d := ((d >> 2) & 0x3333_3333_3333_3333) | ((d & 0x3333_3333_3333_3333) << 2);
    var d := ((d >> 4) & 0x0F0F_0F0F_0F0F_0F0F) | ((d & 0x0F0F_0F0F_0F0F_0F0F) << 4);
    // bytes, two-byte pairs, four-byte quads
    var d := ((d >> 8) & 0x00FF_00FF_00FF_00FF) | ((d & 0x00FF_00FF_00FF_00FF) << 8);
    var d := ((d >> 16) & 0x0000_FFFF_0000_FFFF) | ((d & 0x0000_FFFF_0000_FFFF) << 16);
    ((d >> 32) & 0x0000_0000_FFFF_FFFF) | ((d & 0x0000_0000_FFFF_FFFF) << 32)
  }

  /** Bit `i` of the reflected word is bit `63 - i` of the word. */
  lemma ReflectReversesBits(data: bv64, i: bv8)
    requires i < 64
    ensures (Reflect(data) >> i) & 1 == (data >> (63 - i)) & 1
  {
  }

  lemma ReflectDouble(c: bv64)
    ensures Reflect(Double(c)) == Half(Reflect(c))
  {
    ReflectShift(c);
    hide Reflect;
  }

  lemma ReflectShift(c: bv64)
    ensures Reflect(c << 1) == Reflect(c) >> 1
  {
  }

  lemma ReflectTop(c: bv64)
    ensures TopSet(c) <==> Odd(Reflect(c))
  {
  }

  lemma ReflectXorPoly(c: bv64)
    ensures Reflect(Xor(c, POLY)) == Xor(Reflect(c), REVERSED_POLY)
  {
    ReflectXorPolyBits(c);
    assert POLY == 0xad93_d235_94c9_35a9 && REVERSED_POLY == 0x95ac_9329_ac4b_c9b5;
    hide Reflect;
  }

  lemma ReflectXorPolyBits(c: bv64)
    ensures Reflect(c ^ 0xad93_d235_94c9_35a9) == Reflect(c) ^ 0x95ac_9329_ac4b_c9b5
  {
  }

  lemma ReflectZero()
    ensures Reflect(0) == 0
  {
  }

  /** One turn of the inner loop: feed one data bit into the unreflected register. */
  function FeedBit(crc: bv64, dataBit: bool): bv64 {
    var bit := TopSet(crc) != dataBit;
    if bit then Xor(Double(crc), POLY) else Double(crc)
  }

  lemma ReflectFeedBit(crc: bv64, dataBit: bool)
    ensures Reflect(FeedBit(crc, dataBit)) == ZeroBit(Xor(Reflect(crc), if dataBit then 1 else 0))
  {
    var r := Reflect(crc);
    assert Half(1) == 0 && Odd(1) && Half(0) == 0 && !Odd(0);
    hide Reflect, Xor, Half, Double, Odd, TopSet;
    ReflectDouble(crc);
    ReflectTop(crc);
    ReflectXorPoly(Double(crc));
    HalfXor(r, 1);
    OddXor(r, 1);
    XorUnit(Half(r));
    XorUnit(r);
  }

  // The loop feeds bit `k` of the byte; the reflected register sees the bits still to come.

  ghost function Mask(k: nat): bv8 {
    if k == 0 then 1 else Mask(k - 1) << 1
  }

  ghost function Remaining(c: bv8, k: nat): bv64
    decreases k
  {
    if k == 0 then OfByte(c) else Half(Remaining(c, k - 1))
  }

  lemma MaskValues()
    ensures Mask(0) == 1 && Mask(1) == 2 && Mask(2) == 4 && Mask(3) == 8
    ensures Mask(4) == 16 && Mask(5) == 32 && Mask(6) == 64 && Mask(7) == 128
    ensures Mask(8) == 0
  {
  }

  lemma RemainingValues(c: bv8)
    ensures var w := OfByte(c);
      && Remaining(c, 1) == w >> 1 && Remaining(c, 2) == w >> 2 && Remaining(c, 3) == w >> 3
      && Remaining(c, 4) == w >> 4 && Remaining(c, 5) == w >> 5 && Remaining(c, 6) == w >> 6
      && Remaining(c, 7) == w >> 7 && Remaining(c, 8) == 0
  {
  }

  lemma BitsOfByte(c: bv8)
    ensures var w := OfByte(c);
      && (c & 1 != 0 <==> Odd(w)) && (c & 2 != 0 <==> Odd(w >> 1))
      && (c & 4 != 0 <==> Odd(w >> 2)) && (c & 8 != 0 <==> Odd(w >> 3))
      && (c & 16 != 0 <==> Odd(w >> 4)) && (c & 32 != 0 <==> Odd(w >> 5))
      && (c & 64 != 0 <==> Odd(w >> 6)) && (c & 128 != 0 <==> Odd(w >> 7))
  {
  }

  lemma MaskSelectsBit(c: bv8, k: nat)
    requires k < 8
    ensures (c & Mask(k) != 0) <==> Odd(Remaining(c, k))
    ensures Mask(k) != 0
  {
    hide Odd, Mask, Remaining;
    MaskValues();
    RemainingValues(c);
    BitsOfByte(c);
    ByteStart(c);
  }

  lemma ByteStart(c: bv8)
    ensures Mask(0) == 1 && Remaining(c, 0) == OfByte(c)
  {
  }

  lemma ByteEnd(c: bv8)
    ensures Mask(8) == 0 && Remaining(c, 8) == 0
  {
    MaskValues();
    RemainingValues(c);
  }

  lemma RemainingIsShort(c: bv8, k: nat)
    requires k < 8
    ensures !TopSet(Remaining(c, k + 1))
  {
    hide Remaining;
    RemainingValues(c);
  }

  lemma AbsorbOneBit(r: bv64, w: bv64)
    requires !TopSet(Half(w))
    ensures ZeroBit(Xor(r, w)) == Xor(ZeroBit(Xor(r, if Odd(w) then 1 else 0)), Half(w))
  {
    hide Xor, Half, Odd, TopSet, Double, ZeroBit;
    var low, rest := if Odd(w) then 1 else 0, Double(Half(w));
    LowBitAndRest(w);
    XorAssoc(r, low, rest);
    ZeroBitXor(Xor(r, low), rest);
    HalfOfDouble(Half(w));
    EvenStep(rest);
  }

  lemma AbsorbNextBit(r: bv64, c: bv8, k: nat)
    requires k < 8
    ensures ZeroBits(Xor(r, Remaining(c, k)), 8 - k)
         == ZeroBits(Xor(ZeroBit(Xor(r, if Odd(Remaining(c, k)) then 1 else 0)), Remaining(c, k + 1)), 7 - k)
  {
    hide Xor, Half, Odd, TopSet, ZeroBit, OfByte;
    RemainingIsShort(c, k);
    AbsorbOneBit(r, Remaining(c, k));
  }

  method FeedByte(crc0: bv64, c: bv8) returns (crc: bv64)
    ensures Reflect(crc) == Absorb(Reflect(crc0), c)
  {
    hide *;
    ByteStart(c);
    ByteEnd(c);
    crc := crc0;
    var i: bv8 := 1;
    ghost var k := 0;
    ghost var whole := ZeroBits(Xor(Reflect(crc0), OfByte(c)), 8);
    while i != 0
      invariant 0 <= k <= 8 && i == Mask(k)
      invariant ZeroBits(Xor(Reflect(crc), Remaining(c, k)), 8 - k) == whole
      decreases 8 - k
    {
      MaskSelectsBit(c, k);
      MaskDoubles(k);
      ReflectFeedBit(crc, c & i != 0);
      AbsorbNextBit(Reflect(crc), c, k);
      crc := FeedBit(crc, c & i != 0);
      i := i << 1;
      k := k + 1;
    }
    if k < 8 {
      MaskSelectsBit(c, k);
      assert false;
    }
    XorUnit(Reflect(crc));
    AbsorbIs(Reflect(crc0), Reflect(crc), c);
  }

  lemma MaskDoubles(k: nat)
    ensures Mask(k + 1) == Mask(k) << 1
  {
  }

  lemma AbsorbIs(r: bv64, z: bv64, c: bv8)
    ensures Absorb(r, c) == ZeroBits(Xor(r, OfByte(c)), 8) && ZeroBits(z, 0) == z
  {
  }

  /** `_crc64`: the checksum of `data`, for any seed, is the reflected checksum of the reflected seed. */
  method BitwiseCrc(seed: bv64, data: seq<bv8>) returns (r: bv64)
    ensures r == Crc(Reflect(seed), data)
    ensures seed == 0 ==> r == Crc(0, data)
  {
    ReflectZero();
    hide Reflect, Absorb;
    var crc := seed;
    for offset := 0 to |data|
      invariant Crc(Reflect(crc), data[offset..]) == Crc(Reflect(seed), data)
    {
      crc := FeedByte(crc, data[offset]);
      assert data[offset..][1..] == data[offset + 1..];
    }
    r := Reflect(crc);
  }
}
