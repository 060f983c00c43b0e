/**
 Integers packed into a bitmap at any offset (bitops.c): reading and writing a field bit by
 bit, and detecting overflow of a field with nothing wider than 64-bit arithmetic.
 */
module Bitfields {
  import opened Powers
  import opened Bitmaps

  // ----- machine integers -----

  const TWO64: int := 0x1_0000_0000_0000_0000
  const TWO63: int := 0x8000_0000_0000_0000

  function U64(x: int): (r: nat)
    ensures r < TWO64
  {
    x % TWO64
  }

  function I64(x: int): (r: int)
    ensures -TWO63 <= r < TWO63
  {
    (x + TWO63) % TWO64 - TWO63
  }

  predicate IsI64(x: int) { -TWO63 <= x < TWO63 }

  lemma I64Exact(x: int)
    ensures I64(x) == x <==> IsI64(x)
  {
  }

  // ----- remainders modulo powers of two -----

  lemma ModUnique(x: int, a: int, q: int, r: int)
    requires a > 0 && x == a * q + r && 0 <= r < a
    ensures x % a == r && x / a == q
  {
    var d := x / a - q;
    assert a * d == r - x % a;
    assert d > 0 ==> a * d >= a;
    assert d < 0 ==> a * d <= -a;
  }

  lemma ModDrop(x: int, a: int, k: int)
    requires a > 0
    ensures (x + a * k) % a == x % a
  {
    ModUnique(x + a * k, a, x / a + k, x % a);
  }

  lemma Pow2Divides(bits: nat)
    requires bits <= 64
    ensures exists k :: 0 < k && TWO64 == Pow2(bits) * k
  {
    Pow2Add(bits, 64 - bits);
    Pow2Of64();
  }

  /** Going through 64 bits does not change a value modulo a smaller power of two. */
  lemma ModU64(x: int, bits: nat)
    requires bits <= 64
    ensures U64(x) % Pow2(bits) == x % Pow2(bits)
  {
    hide Pow2;
    Pow2Divides(bits);
    var p := Pow2(bits);
    var k :| 0 < k && TWO64 == p * k;
    var q := x / TWO64;
    assert x == U64(x) + TWO64 * q;
    assert TWO64 * q == p * (k * q);
    ModDrop(U64(x), p, k * q);
  }

  lemma {:induction false} Pow2Grows(m: nat, n: nat)
    requires m <= n
    ensures Pow2(m) <= Pow2(n)
  {
    if m < n {
      Pow2Grows(m, n - 1);
    }
  }

  lemma Pow2Of63()
    ensures Pow2(63) == TWO63 && Pow2(64) == TWO64
  {
    Pow2Of64();
  }

  // ----- bits of a number -----

  /** Bit `n` of a number, the least significant being bit 0. */
  predicate NumberBit(v: nat, n: nat)
    decreases n
  {
    if n == 0 then v % 2 == 1 else NumberBit(v / 2, n - 1)
  }

  /** The number read from `bits` bits at `offset`, most significant first. */
  function Field(s: seq<bv8>, offset: nat, bits: nat): (v: nat)
    requires offset + bits <= 8 * |s|
    ensures v < Pow2(bits)
    decreases bits
  {
    if bits == 0 then 0 else 2 * Field(s, offset, bits - 1) + AsNat(BitAt(s, offset + bits - 1))
  }

  /** The bitmap holds the low bits of `v` at `offset`. */
  ghost predicate Holds(s: seq<bv8>, offset: nat, bits: nat, v: nat)
    requires offset + bits <= 8 * |s|
  {
    forall i :: offset <= i < offset + bits ==> BitAt(s, i) == NumberBit(v, offset + bits - 1 - i)
  }

  /** Bits that hold a number read back as that number, modulo 2^bits. */
  lemma {:induction false} HoldsReadsBack(s: seq<bv8>, offset: nat, bits: nat, v: nat)
    requires offset + bits <= 8 * |s| && Holds(s, offset, bits, v)
    ensures Field(s, offset, bits) == v % Pow2(bits)
    decreases bits
  {
    hide BitAt;
    if bits > 0 {
      forall i | offset <= i < offset + bits - 1
        ensures BitAt(s, i) == NumberBit(v / 2, offset + bits - 2 - i)
      {
        assert BitAt(s, i) == NumberBit(v, offset + bits - 1 - i);
      }
      HoldsReadsBack(s, offset, bits - 1, v / 2);
      ModHalf(v, Pow2(bits - 1));
      assert BitAt(s, offset + bits - 1) == NumberBit(v, 0);
    }
  }

  /** A field's number names its bits. */
  lemma {:induction false} FieldDetermines(s: seq<bv8>, t: seq<bv8>, offset: nat, bits: nat, i: nat)
    requires offset + bits <= 8 * |s| && offset + bits <= 8 * |t|
    requires Field(s, offset, bits) == Field(t, offset, bits)
    requires offset <= i < offset + bits
    ensures BitAt(s, i) == BitAt(t, i)
    decreases bits
  {
    hide BitAt, Pow2;
    if i < offset + bits - 1 {
      FieldDetermines(s, t, offset, bits - 1, i);
    }
  }

  lemma ModHalf(v: nat, p: nat)
    requires p > 0
    ensures v % (2 * p) == 2 * (v / 2 % p) + v % 2
  {
    var h := v / 2;
    var q := h / p;
    assert h == p * q + h % p;
    assert v == 2 * h + v % 2;
    assert 2 * (p * q) == (2 * p) * q;
    ModUnique(v, 2 * p, q, 2 * (h % p) + v % 2);
  }

  // ----- writing and reading -----

  /** The byte with only bit `n` set, the least significant being bit 0. */
  function OneBit(n: nat): bv8
    requires n < 8
  {
    if n == 0 then 1 else OneBit(n - 1) << 1
  }

  lemma OneBitValues()
    ensures OneBit(0) == 1 && OneBit(1) == 2 && OneBit(2) == 4 && OneBit(3) == 8
    ensures OneBit(4) == 16 && OneBit(5) == 32 && OneBit(6) == 64 && OneBit(7) == 128
  {
    assert OneBit(1) == 2;
    assert OneBit(2) == 4;
    assert OneBit(3) == 8;
    assert OneBit(4) == 16;
    assert OneBit(5) == 32;
    assert OneBit(6) == 64;
  }

  lemma OneBitAt(n: nat, j: nat)
    requires n < 8 && j < 8
    ensures BitOf(OneBit(n), j) <==> j == 7 - n
  {
    OneBitValues();
    hide OneBit;
  }

  /** Bit `k` from the top, cleared and then set to `v`. */
  function WithBit(b: bv8, k: nat, v: bool): bv8
    requires k < 8
  {
    Or(And(b, Not(OneBit(7 - k))), if v then OneBit(7 - k) else 0)
  }

  lemma WithBitAt(b: bv8, k: nat, v: bool, j: nat)
    requires k < 8 && j < 8
    ensures BitOf(WithBit(b, k, v), j) == if j == k then v else BitOf(b, j)
  {
    hide BitOf, And, Or, Not, OneBit;
    var one := OneBit(7 - k);
    OrBit(And(b, Not(one)), if v then one else 0, j);
    AndBit(b, Not(one), j);
    NotBit(one, j);
    OneBitAt(7 - k, j);
    ZeroByte(j);
  }

  /** Everything outside the field is as it was. */
  ghost predicate SameOutside(s: seq<bv8>, t: seq<bv8>, lo: nat, hi: nat) {
    |s| == |t| && forall i :: 0 <= i < 8 * |s| && !(lo <= i < hi) ==> BitAt(t, i) == BitAt(s, i)
  }

  lemma WriteOneBit(s: seq<bv8>, i: nat, v: bool)
    requires i < 8 * |s|
    ensures var t := s[i / 8 := WithBit(s[i / 8], i % 8, v)];
      BitAt(t, i) == v && SameOutside(s, t, i, i + 1)
  {
    hide BitOf, WithBit;
    var t := s[i / 8 := WithBit(s[i / 8], i % 8, v)];
    forall n | 0 <= n < 8 * |s|
      ensures BitAt(t, n) == if n == i then v else BitAt(s, n)
    {
      if n / 8 == i / 8 {
        WithBitAt(s[i / 8], i % 8, v, n % 8);
      }
    }
  }

  /**
   Writing a field: it reads back as the value modulo 2^bits, and no other bit changes. The
   caller provides the room, and values of up to 64 bits.
   */
  method SetUnsigned(p: array<bv8>, offset: nat, bits: nat, value: nat)
    requires offset + bits <= 8 * p.Length
    modifies p
    ensures Holds(p[..], offset, bits, value)
    ensures Field(p[..], offset, bits) == value % Pow2(bits)
    ensures SameOutside(old(p[..]), p[..], offset, offset + bits)
  {
    hide BitAt, WithBit, Pow2;
    ghost var before := p[..];
    for j := 0 to bits
      invariant forall i :: offset <= i < offset + j ==> BitAt(p[..], i) == NumberBit(value, offset + bits - 1 - i)
      invariant SameOutside(before, p[..], offset, offset + j)
    {
      ghost var now := p[..];
      var at := offset + j;
      WriteOneBit(now, at, NumberBit(value, bits - 1 - j));
      p[at / 8] := WithBit(p[at / 8], at % 8, NumberBit(value, bits - 1 - j));
      assert p[..] == now[at / 8 := WithBit(now[at / 8], at % 8, NumberBit(value, bits - 1 - j))];
    }
    HoldsReadsBack(p[..], offset, bits, value);
  }

  method SetSigned(p: array<bv8>, offset: nat, bits: nat, value: int)
    requires offset + bits <= 8 * p.Length && bits <= 64
    modifies p
    ensures Field(p[..], offset, bits) == value % Pow2(bits)
    ensures SameOutside(old(p[..]), p[..], offset, offset + bits)
  {
    SetUnsigned(p, offset, bits, U64(value));
    ModU64(value, bits);
  }

  method GetUnsigned(p: seq<bv8>, offset: nat, bits: nat) returns (value: nat)
    requires offset + bits <= 8 * |p| && bits <= 64
    ensures value == Field(p, offset, bits)
  {
    hide BitAt;
    value := 0;
    for j := 0 to bits
      invariant value == Field(p, offset, j)
    {
      DoubleFits(value, j);
      value := U64(2 * value) + AsNat(BitAt(p, offset + j));
    }
  }

  lemma DoubleFits(v: nat, j: nat)
    requires v < Pow2(j) && j < 64
    ensures U64(2 * v) == 2 * v && 2 * v + 1 < TWO64
  {
    Pow2Grows(j + 1, 64);
    Pow2Of63();
  }

  /** The two's complement reading of a field. */
  function Signed(u: nat, bits: nat): int
    requires bits >= 1
  {
    if u < Pow2(bits - 1) then u else u - Pow2(bits)
  }

  predicate InSigned(v: int, bits: nat)
    requires bits >= 1
  {
    0 <= v + Pow2(bits - 1) < Pow2(bits)
  }

  lemma Pow2Half(bits: nat)
    requires bits >= 1
    ensures Pow2(bits) == 2 * Pow2(bits - 1)
  {
  }

  /** It is the number in the signed range that the field stands for modulo 2^bits. */
  lemma SignedReading(u: nat, bits: nat)
    requires bits >= 1 && u < Pow2(bits)
    ensures InSigned(Signed(u, bits), bits) && Signed(u, bits) % Pow2(bits) == u
  {
    hide Pow2;
    Pow2Half(bits);
    if u < Pow2(bits - 1) {
      ModUnique(u, Pow2(bits), 0, u);
    } else {
      ModUnique(u - Pow2(bits), Pow2(bits), -1, u);
    }
  }

  lemma {:induction false} TopNumberBit(u: nat, n: nat)
    requires u < Pow2(n + 1)
    ensures NumberBit(u, n) <==> u >= Pow2(n)
    decreases n
  {
    if n > 0 {
      TopNumberBit(u / 2, n - 1);
    }
  }

  /**
   Setting every bit from `bits` up: for a number below 2^bits this is an addition.
   */
  function OrAbove(u: nat, bits: nat): nat
    requires u < Pow2(bits) && bits <= 64
  {
    Pow2Of63();
    Pow2Grows(bits, 64);
    u + (TWO64 - Pow2(bits))
  }

  method GetSigned(p: seq<bv8>, offset: nat, bits: nat) returns (value: int)
    requires offset + bits <= 8 * |p| && 1 <= bits <= 64
    ensures value == Signed(Field(p, offset, bits), bits)
  {
    hide Pow2, I64, NumberBit, OrAbove;
    var u := GetUnsigned(p, offset, bits);
    Pow2Half(bits);
    TopNumberBit(u, bits - 1);
    Extend(u, bits);
    if bits < 64 && NumberBit(u, bits - 1) {
      value := I64(OrAbove(u, bits));
    } else {
      value := I64(u);
    }
  }

  lemma Extend(u: nat, bits: nat)
    requires 1 <= bits <= 64 && u < Pow2(bits)
    ensures bits < 64 && u >= Pow2(bits - 1) ==> I64(OrAbove(u, bits)) == u - Pow2(bits)
    ensures bits == 64 || u < Pow2(bits - 1) ==> I64(u) == Signed(u, bits)
  {
    hide Pow2;
    Pow2Of63();
    Pow2Half(bits);
    Pow2Grows(bits - 1, 63);
    Pow2Grows(bits, 64);
    if bits < 64 {
      Pow2Grows(bits, 63);
    }
  }

  /** The signed value that fits is the one that comes back. */
  lemma SignedRoundTrip(v: int, bits: nat)
    requires bits >= 1 && InSigned(v, bits)
    ensures v % Pow2(bits) >= 0 && Signed(v % Pow2(bits), bits) == v
  {
    hide Pow2;
    Pow2Half(bits);
    if v < 0 {
      ModUnique(v, Pow2(bits), -1, v + Pow2(bits));
    } else {
      ModUnique(v, Pow2(bits), 0, v);
    }
  }
}
