/**
 Sixty-four bit registers and the handful of operations the checksum code applies to them.

 Every operation is a named function, so that a proof about registers can `hide` the bit
 vectors and work with the laws stated here: exclusive or is an abelian group, and shifting,
 doubling and byte extraction are linear with respect to it.
 */
module Words {

  function Xor(a: bv64, b: bv64): bv64 { a ^ b }

  function Half(a: bv64): bv64 { a >> 1 }

  function Double(a: bv64): bv64 { a << 1 }

  predicate Odd(a: bv64) { a & 1 == 1 }

  predicate TopSet(a: bv64) { a & 0x8000_0000_0000_0000 != 0 }

  function LowByte(a: bv64): bv8 { (a & 0xff) as bv8 }

  function DropByte(a: bv64): bv64 { a >> 8 }

  function OfByte(b: bv8): bv64 { b as bv64 }

  // The group laws of exclusive or.

  lemma XorAssoc(a: bv64, b: bv64, c: bv64)
    ensures Xor(Xor(a, b), c) == Xor(a, Xor(b, c))
  {
    assert Xor(Xor(a, b), c) == (a ^ b) ^ c;
    assert Xor(a, Xor(b, c)) == a ^ (b ^ c);
  }

  lemma XorComm(a: bv64, b: bv64)
    ensures Xor(a, b) == Xor(b, a)
  {
  }

  lemma XorUnit(a: bv64)
    ensures Xor(a, a) == 0 && Xor(a, 0) == a && Xor(0, a) == a
  {
  }

  /** (a + p) + (b + q) == (a + b) + (p + q). */
  lemma XorSwap(a: bv64, p: bv64, b: bv64, q: bv64)
    ensures Xor(Xor(a, p), Xor(b, q)) == Xor(Xor(a, b), Xor(p, q))
  {
    hide Xor;
    XorAssoc(a, p, Xor(b, q));
    XorAssoc(p, b, q);
    XorComm(p, b);
    XorAssoc(b, p, q);
    XorAssoc(a, b, Xor(p, q));
  }

  // Linearity.

  lemma HalfXor(a: bv64, b: bv64)
    ensures Half(Xor(a, b)) == Xor(Half(a), Half(b))
  {
  }

  lemma DoubleXor(a: bv64, b: bv64)
    ensures Double(Xor(a, b)) == Xor(Double(a), Double(b))
  {
  }

  lemma OddXor(a: bv64, b: bv64)
    ensures Odd(Xor(a, b)) <==> (Odd(a) != Odd(b))
  {
  }

  lemma LowByteXor(a: bv64, b: bv64)
    ensures OfByte(LowByte(Xor(a, b))) == Xor(OfByte(LowByte(a)), OfByte(LowByte(b)))
  {
  }

  lemma DropByteXor(a: bv64, b: bv64)
    ensures DropByte(Xor(a, b)) == Xor(DropByte(a), DropByte(b))
  {
  }

  // Taking registers apart and putting them together again.

  lemma LowBitAndRest(a: bv64)
    ensures a == Xor(if Odd(a) then 1 else 0, Double(Half(a)))
  {
  }

  lemma HalfOfDouble(a: bv64)
    requires !TopSet(a)
    ensures Half(Double(a)) == a && !Odd(Double(a))
  {
  }

  lemma LowByteAndRest(a: bv64)
    ensures a == Xor(OfByte(LowByte(a)), a & 0xffff_ffff_ffff_ff00)
    ensures DropByte(a & 0xffff_ffff_ffff_ff00) == DropByte(a)
  {
  }

  lemma ByteRoundTrip(b: bv8)
    ensures LowByte(OfByte(b)) == b && DropByte(OfByte(b)) == 0
  {
  }

  /** A byte is a valid index of a 256-entry table, and the index names the byte. */
  lemma ByteIndex(b: bv8)
    ensures 0 <= b as int < 256 && (b as int) as bv8 == b
  {
  }
}
