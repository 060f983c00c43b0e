/**
 Overflow of bitfields (bitops.c). The two checks decide, in 64-bit arithmetic that itself
 wraps around, whether a value plus an increment fits a field, and what to store if it does not.
 */
module FieldOverflow {
  import opened Common
  import opened Powers
  import opened Bitfields

  datatype Policy = Wrap | Sat | Fail

  /** The outcome of a check: -1, 0 or 1, and the value to store if the policy names one. */
  datatype Check = Check(code: int, limit: Option<int>)

  /** Keeping the low bits, which is what clearing the mask above them does. */
  function LowBits(x: nat, bits: nat): nat { x % Pow2(bits) }

  // ----- the source's checks -----

  function CheckUnsigned(value: nat, incr: int, bits: nat, policy: Policy): Check {
    var max := Pow2(bits) - 1;
    var maxincr := I64(U64(max - value));
    var minincr := I64(U64(0 - value));
    var wrapped := LowBits(U64(value + incr), bits);
    if value > max || (incr > 0 && incr > maxincr) then
      match policy
      case Wrap => Check(1, Some(wrapped))
      case Sat => Check(1, Some(max))
      case Fail => Check(1, None)
    else if incr < 0 && incr < minincr then
      match policy
      case Wrap => Check(1, Some(wrapped))
      case Sat => Check(-1, Some(0))
      case Fail => Check(-1, None)
    else Check(0, None)
  }

  /** The wrapped value as the source computes it, from a 64-bit sum. */
  function SignExtended(c: nat, bits: nat): int
    requires bits >= 1
  {
    if bits >= 64 then I64(c)
    else if NumberBit(c, bits - 1) then I64(LowBits(c, bits) + (TWO64 - Pow2(bits)))
    else I64(LowBits(c, bits))
  }

  function CheckSigned(value: int, incr: int, bits: nat, policy: Policy): Check
    requires bits >= 1
  {
    var max := Pow2(bits - 1) - 1;
    var min := -max - 1;
    var maxincr := I64(U64(max - value));
    var minincr := I64(min - value);
    var c := U64(U64(value) + U64(incr));
    var wrapped := SignExtended(c, bits);
    if value > max || (bits != 64 && incr > maxincr) || (value >= 0 && incr > 0 && incr > maxincr) then
      match policy
      case Wrap => Check(1, Some(wrapped))
      case Sat => Check(1, Some(max))
      case Fail => Check(1, None)
    else if value < min || (bits != 64 && incr < minincr) || (value < 0 && incr < 0 && incr < minincr) then
      match policy
      case Wrap => Check(1, Some(wrapped))
      case Sat => Check(-1, Some(min))
      case Fail => Check(-1, None)
    else Check(0, None)
  }

  // ----- what they should decide -----

  function Lowest(signed: bool, bits: nat): int
    requires bits >= 1
  {
    if signed then 0 - Pow2(bits - 1) else 0
  }

  function Highest(signed: bool, bits: nat): int
    requires bits >= 1
  {
    if signed then Pow2(bits - 1) - 1 else Pow2(bits) - 1
  }

  predicate Fits(signed: bool, bits: nat, v: int)
    requires bits >= 1
  {
    Lowest(signed, bits) <= v <= Highest(signed, bits)
  }

  /** The widths a field may have. */
  predicate Width(signed: bool, bits: nat) {
    1 <= bits <= if signed then 64 else 63
  }

  function Clamp(signed: bool, bits: nat, v: int): int
    requires bits >= 1
  {
    if v > Highest(signed, bits) then Highest(signed, bits)
    else if v < Lowest(signed, bits) then Lowest(signed, bits)
    else v
  }

  /** The number congruent to `v` modulo 2^bits that fits. */
  function Wrapped(signed: bool, bits: nat, v: int): int
    requires bits >= 1
  {
    if signed then Signed(v % Pow2(bits), bits) else v % Pow2(bits)
  }

  /** There is exactly one such number. */
  lemma WrappedIsUnique(signed: bool, bits: nat, v: int, w: int)
    requires bits >= 1
    ensures Fits(signed, bits, w) && w % Pow2(bits) == v % Pow2(bits) <==> w == Wrapped(signed, bits, v)
  {
    hide Pow2;
    Pow2Half(bits);
    var u := v % Pow2(bits);
    if signed {
      SignedReading(u, bits);
      if Fits(signed, bits, w) {
        SignedRoundTrip(w, bits);
      }
    } else {
      ModUnique(u, Pow2(bits), 0, u);
      if Fits(signed, bits, w) {
        ModUnique(w, Pow2(bits), 0, w);
      }
    }
  }

  function Limit(signed: bool, bits: nat, policy: Policy, sum: int): Option<int>
    requires bits >= 1
  {
    match policy
    case Wrap => Some(Wrapped(signed, bits, sum))
    case Sat => Some(Clamp(signed, bits, sum))
    case Fail => None
  }

  /** The check reports exactly the sums that do not fit, with the right replacement. */
  predicate Right(check: Check, signed: bool, bits: nat, policy: Policy, sum: int)
    requires bits >= 1
  {
    && (check.code == 0 <==> Fits(signed, bits, sum))
    && (check.code != 0 ==> check.limit == Limit(signed, bits, policy, sum))
  }

  // ----- bounds -----

  lemma WidthBounds(bits: nat)
    requires 1 <= bits <= 64
    ensures Pow2(bits) == 2 * Pow2(bits - 1) && 1 <= Pow2(bits - 1) <= TWO63
    ensures bits < 64 ==> Pow2(bits) <= TWO63
    ensures bits == 64 ==> Pow2(bits) == TWO64
  {
    hide Pow2;
    Pow2Half(bits);
    Pow2Of63();
    Pow2Grows(bits - 1, 63);
    if bits < 64 {
      Pow2Grows(bits, 63);
    }
  }

  lemma I64OfU64(x: int)
    ensures I64(U64(x)) == I64(x)
  {
  }

  lemma U64Sum(a: int, b: int)
    ensures U64(U64(a) + U64(b)) == U64(a + b)
  {
  }

  lemma U64Of(v: int)
    requires IsI64(v)
    ensures U64(v) == if v < 0 then v + TWO64 else v
  {
  }

  lemma I64Above(x: int)
    requires TWO63 <= x < TWO64
    ensures I64(x) == x - TWO64
  {
  }

  lemma WrapUnsigned(x: int, bits: nat)
    requires 1 <= bits <= 64
    ensures LowBits(U64(x), bits) == Wrapped(false, bits, x)
  {
    hide U64;
    ModU64(x, bits);
  }

  /** Sign extension of the low bits is two's complement. */
  lemma WrapSigned(x: int, bits: nat)
    requires 1 <= bits <= 64
    ensures SignExtended(U64(x), bits) == Wrapped(true, bits, x)
  {
    hide Pow2, NumberBit, U64, I64;
    ModU64(x, bits);
    ExtendLow(U64(x), bits);
  }

  lemma ExtendLow(c: nat, bits: nat)
    requires 1 <= bits <= 64 && c < TWO64
    ensures SignExtended(c, bits) == Signed(c % Pow2(bits), bits)
  {
    hide Pow2, NumberBit, I64;
    WidthBounds(bits);
    LowNumberBit(c, bits - 1);
    var u := c % Pow2(bits);
    if bits == 64 {
      ModUnique(c, Pow2(bits), 0, c);
      ExtendNumber(c, bits);
    } else {
      ExtendNumber(u, bits);
    }
  }

  lemma ExtendNumber(u: nat, bits: nat)
    requires 1 <= bits <= 64 && u < Pow2(bits)
    ensures bits < 64 && u >= Pow2(bits - 1) ==> I64(u + (TWO64 - Pow2(bits))) == Signed(u, bits)
    ensures bits < 64 && u < Pow2(bits - 1) ==> I64(u) == Signed(u, bits)
    ensures bits == 64 ==> I64(u) == Signed(u, bits)
  {
    hide Pow2, I64;
    WidthBounds(bits);
    if u < Pow2(bits - 1) {
      I64Exact(u);
    } else if bits == 64 {
      I64Above(u);
    } else {
      I64Above(u + (TWO64 - Pow2(bits)));
    }
  }

  /** Bit `n` of a number is the top bit of its low `n + 1` bits. */
  lemma {:induction false} LowNumberBit(c: nat, n: nat)
    ensures NumberBit(c, n) <==> c % Pow2(n + 1) >= Pow2(n)
    decreases n
  {
    if n > 0 {
      LowNumberBit(c / 2, n - 1);
      ModHalf(c, Pow2(n));
    }
  }

  // ----- the checks decide it -----

  /** INCRBY on an unsigned field. */
  lemma UnsignedRight(value: nat, incr: int, bits: nat, policy: Policy)
    requires Width(false, bits) && Fits(false, bits, value) && IsI64(incr)
    ensures Right(CheckUnsigned(value, incr, bits, policy), false, bits, policy, value + incr)
  {
    hide Pow2, U64, I64, Wrapped, LowBits;
    WidthBounds(bits);
    I64OfU64(Pow2(bits) - 1 - value);
    I64Exact(Pow2(bits) - 1 - value);
    I64OfU64(0 - value);
    I64Exact(0 - value);
    WrapUnsigned(value + incr, bits);
  }

  /** INCRBY on a signed field. */
  lemma SignedRight(value: int, incr: int, bits: nat, policy: Policy)
    requires Width(true, bits) && Fits(true, bits, value) && IsI64(incr)
    ensures Right(CheckSigned(value, incr, bits, policy), true, bits, policy, value + incr)
  {
    hide Pow2, U64, I64, Wrapped, SignExtended;
    WidthBounds(bits);
    I64OfU64(Pow2(bits - 1) - 1 - value);
    I64Exact(Pow2(bits - 1) - 1 - value);
    I64Exact(0 - Pow2(bits - 1) - value);
    U64Sum(value, incr);
    WrapSigned(value + incr, bits);
  }

  /**
   SET on an unsigned field: a negative value arrives as a huge unsigned one, so saturation
   takes it to the top of the range. Everything else is right.
   */
  lemma UnsignedSet(v: int, bits: nat, policy: Policy)
    requires Width(false, bits) && IsI64(v)
    ensures Right(CheckUnsigned(U64(v), 0, bits, policy), false, bits, policy, v) <==> !(policy.Sat? && v < 0)
    ensures policy.Sat? && v < 0 ==>
              CheckUnsigned(U64(v), 0, bits, policy) == Check(1, Some(Highest(false, bits)))
  {
    hide Pow2, U64, I64, Wrapped, LowBits;
    WidthBounds(bits);
    U64Of(v);
    U64Twice(v);
    WrapUnsigned(v, bits);
  }

  lemma U64Twice(v: int)
    ensures U64(U64(v) + 0) == U64(v)
  {
  }

  /**
   SET on a signed field: close to the lowest 64-bit number the room above the value no longer
   fits a signed 64-bit number, and saturation goes the wrong way.
   */
  lemma SignedSet(v: int, bits: nat, policy: Policy)
    requires Width(true, bits) && IsI64(v)
    ensures Right(CheckSigned(v, 0, bits, policy), true, bits, policy, v)
       <==> !(policy.Sat? && bits < 64 && Pow2(bits - 1) - 1 - v >= TWO63)
    ensures policy.Sat? && bits < 64 && Pow2(bits - 1) - 1 - v >= TWO63 ==>
              CheckSigned(v, 0, bits, policy) == Check(1, Some(Highest(true, bits)))
  {
    hide Pow2, U64, I64, Wrapped, SignExtended;
    WidthBounds(bits);
    var room := Pow2(bits - 1) - 1 - v;
    I64OfU64(room);
    I64Exact(room);
    if TWO63 <= room < TWO64 {
      I64Above(room);
    }
    I64Exact(0 - Pow2(bits - 1) - v);
    U64Sum(v, 0);
    WrapSigned(v, bits);
  }

  /** For instance, saturating the lowest 64-bit number into eight bits gives 127. */
  lemma SaturatesUpwards()
    ensures CheckSigned(0 - TWO63, 0, 8, Sat) == Check(1, Some(127))
  {
    assert Pow2(3) == 8;
    assert Pow2(7) == 128;
    I64OfU64(127 + TWO63);
    I64Above(127 + TWO63);
    hide U64, I64;
  }
}
