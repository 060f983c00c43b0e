/**
 The CRC-64 every fast path has to reproduce: a reflected register that absorbs one byte at a
 time, each byte being eight steps of the zero-bit shift register. Advancing a register over
 zero bits is linear, which is what lets the fast code split a buffer and merge the parts.
 */
module CrcSpec {
  import opened Words
  import opened Shifts

  // The reversed polynomial handed to the combine code.
  const REVERSED_POLY: bv64 := 0x95ac_9329_ac4b_c9b5

  /** Shift one zero bit into the reflected register. */
  function ZeroBit(c: bv64): bv64 {
    Xor(Half(c), if Odd(c) then REVERSED_POLY else 0)
  }

  function ZeroBits(c: bv64, n: nat): bv64
    decreases n
  {
    if n == 0 then c else ZeroBits(ZeroBit(c), n - 1)
  }

  function Absorb(c: bv64, b: bv8): bv64 {
    ZeroBits(Xor(c, OfByte(b)), 8)
  }

  /** The checksum register after absorbing `s`, starting from `c`. */
  function Crc(c: bv64, s: seq<bv8>): bv64
    decreases s
  {
    if s == [] then c else Crc(Absorb(c, s[0]), s[1..])
  }

  // Advancing over zero bits is linear.

  lemma ZeroBitXor(a: bv64, b: bv64)
    ensures ZeroBit(Xor(a, b)) == Xor(ZeroBit(a), ZeroBit(b))
  {
    hide Xor, Half, Odd;
    HalfXor(a, b);
    OddXor(a, b);
    var p := if Odd(a) then REVERSED_POLY else 0;
    var q := if Odd(b) then REVERSED_POLY else 0;
    XorUnit(REVERSED_POLY);
    XorUnit(0);
    XorSwap(Half(a), p, Half(b), q);
  }

  lemma {:induction false} ZeroBitsXor(a: bv64, b: bv64, n: nat)
    ensures ZeroBits(Xor(a, b), n) == Xor(ZeroBits(a, n), ZeroBits(b, n))
    decreases n
  {
    hide Xor, ZeroBit;
    if n != 0 {
      ZeroBitXor(a, b);
      ZeroBitsXor(ZeroBit(a), ZeroBit(b), n - 1);
    }
  }

  lemma {:induction false} ZeroBitsOfZero(n: nat)
    ensures ZeroBits(0, n) == 0
  {
    if n != 0 {
      ZeroBitsOfZero(n - 1);
    }
  }

  lemma {:induction false} ZeroBitsAdd(c: bv64, m: nat, n: nat)
    ensures ZeroBits(c, m + n) == ZeroBits(ZeroBits(c, m), n)
    decreases m
  {
    hide ZeroBit;
    if m != 0 {
      ZeroBitsAdd(ZeroBit(c), m - 1, n);
    }
  }

  // One byte through the register: the low byte is looked up, the rest only moves down.

  lemma EvenStep(c: bv64)
    requires !Odd(c)
    ensures ZeroBit(c) == Half(c)
  {
    hide Xor, Half, Odd;
    XorUnit(Half(c));
  }

  ghost predicate LowBitsClear(c: bv64, n: nat)
    decreases n
  {
    n == 0 || (!Odd(c) && LowBitsClear(Half(c), n - 1))
  }

  lemma {:induction false} ClearBitsShiftOut(c: bv64, n: nat)
    requires LowBitsClear(c, n)
    ensures ZeroBits(c, n) == Halves(c, n)
    decreases n
  {
    hide Xor, Half, Odd, ZeroBit;
    if n != 0 {
      EvenStep(c);
      ClearBitsShiftOut(Half(c), n - 1);
    }
  }

  lemma ClearByteShiftsOut(c: bv64)
    requires c & 0xff == 0
    ensures LowBitsClear(c, 8) && Halves(c, 8) == DropByte(c)
  {
    assert LowBitsClear(c >> 6, 2) && Halves(c >> 6, 2) == c >> 8;
    assert LowBitsClear(c >> 4, 4) && Halves(c >> 4, 4) == c >> 8;
    assert LowBitsClear(c >> 2, 6) && Halves(c >> 2, 6) == c >> 8;
  }

  lemma ZeroByteSplit(c: bv64)
    ensures ZeroBits(c, 8) == Xor(ZeroBits(OfByte(LowByte(c)), 8), DropByte(c))
  {
    var high := c & 0xffff_ffff_ffff_ff00;
    ClearByteShiftsOut(high);
    ClearBitsShiftOut(high, 8);
    hide Xor, ZeroBit, LowByte, DropByte, OfByte;
    LowByteAndRest(c);
    ZeroBitsXor(OfByte(LowByte(c)), high, 8);
  }

  // Concatenation, and the closed form that separates the seed from the data.

  lemma {:induction false} CrcAppend(c: bv64, s: seq<bv8>, t: seq<bv8>)
    ensures Crc(c, s + t) == Crc(Crc(c, s), t)
    decreases s
  {
    hide Absorb;
    if s == [] {
      assert s + t == t;
    } else {
      assert (s + t)[1..] == s[1..] + t;
      CrcAppend(Absorb(c, s[0]), s[1..], t);
    }
  }

  lemma {:induction false} CrcSeed(c: bv64, s: seq<bv8>)
    ensures Crc(c, s) == Xor(ZeroBits(c, 8 * |s|), Crc(0, s))
    decreases s
  {
    hide Xor, ZeroBit, OfByte;
    if s == [] {
      XorUnit(c);
    } else {
      var b, r := OfByte(s[0]), s[1..];
      var zc, zb := ZeroBits(c, 8), ZeroBits(b, 8);
      ZeroBitsXor(c, b, 8);
      XorUnit(b);
      CrcSeed(Xor(zc, zb), r);
      CrcSeed(zb, r);
      ZeroBitsXor(zc, zb, 8 * |r|);
      ZeroBitsAdd(c, 8, 8 * |r|);
      XorAssoc(ZeroBits(zc, 8 * |r|), ZeroBits(zb, 8 * |r|), Crc(0, r));
    }
  }

  /** A checksum from seed zero can be moved past a prefix by advancing the prefix's checksum. */
  lemma CrcConcat(c: bv64, s: seq<bv8>, t: seq<bv8>)
    ensures Crc(c, s + t) == Xor(ZeroBits(Crc(c, s), 8 * |t|), Crc(0, t))
  {
    CrcAppend(c, s, t);
    CrcSeed(Crc(c, s), t);
  }

  // A register holding several little-endian bytes absorbs them all at once.

  ghost predicate Holds(w: bv64, s: seq<bv8>) {
    if s == [] then w == 0 else LowByte(w) == s[0] && Holds(DropByte(w), s[1..])
  }

  lemma {:induction false} CrcOfHeldBytes(c: bv64, w: bv64, s: seq<bv8>)
    requires Holds(w, s)
    ensures Crc(c, s) == ZeroBits(Xor(c, w), 8 * |s|)
    decreases s
  {
    if s == [] {
      XorUnit(c);
    } else {
      AbsorbLowByte(c, w);
      hide Xor, ZeroBit, OfByte, LowByte, DropByte;
      CrcOfHeldBytes(Absorb(c, s[0]), DropByte(w), s[1..]);
      ZeroBitsAdd(Xor(c, w), 8, 8 * |s[1..]|);
    }
  }

  lemma AbsorbLowByte(c: bv64, w: bv64)
    ensures ZeroBits(Xor(c, w), 8) == Xor(Absorb(c, LowByte(w)), DropByte(w))
  {
    var b := OfByte(LowByte(w));
    ByteRoundTrip(LowByte(w));
    hide Xor, ZeroBit, OfByte, LowByte, DropByte;
    ZeroByteSplit(Xor(c, w));
    ZeroByteSplit(Xor(c, b));
    LowByteXor(c, w);
    LowByteXor(c, b);
    DropByteXor(c, w);
    DropByteXor(c, b);
    XorUnit(DropByte(c));
    XorAssoc(ZeroBits(OfByte(LowByte(Xor(c, w))), 8), DropByte(c), DropByte(w));
  }
}
