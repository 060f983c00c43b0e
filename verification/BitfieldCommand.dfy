/**
 The execution of BITFIELD and BITFIELD_RO (bitops.c): the string is first made long enough for
 every write, then the operations run in order, each reading and possibly writing one field.
 */
module BitfieldCommand {
  import opened Common
  import opened Powers
  import opened Bitmaps
  import opened Bitfields
  import opened FieldOverflow

  datatype Kind = Get | Set | IncrBy

  datatype Op = Op(kind: Kind, signed: bool, bits: nat, offset: nat, i64: int, policy: Policy)

  /** What parsing lets through. */
  predicate Parsed(op: Op) {
    Width(op.signed, op.bits) && IsI64(op.i64)
  }

  predicate Writes(op: Op) { !op.kind.Get? }

  // ----- reading past the end -----

  /** A field of the bitmap continued with zeros. */
  function PaddedField(s: seq<bv8>, offset: nat, bits: nat): (v: nat)
    ensures v < Pow2(bits)
    decreases bits
  {
    if bits == 0 then 0 else 2 * PaddedField(s, offset, bits - 1) + AsNat(Padded(s, offset + bits - 1))
  }

  lemma {:induction false} PaddedAgrees(s: seq<bv8>, offset: nat, t: seq<bv8>, at: nat, bits: nat)
    requires at + bits <= 8 * |t|
    requires forall i :: at <= i < at + bits ==> BitAt(t, i) == Padded(s, i - at + offset)
    ensures Field(t, at, bits) == PaddedField(s, offset, bits)
    decreases bits
  {
    hide BitAt, Padded, Pow2;
    if bits > 0 {
      PaddedAgrees(s, offset, t, at, bits - 1);
      assert BitAt(t, at + bits - 1) == Padded(s, offset + bits - 1);
    }
  }

  lemma FieldInside(s: seq<bv8>, offset: nat, bits: nat)
    requires offset + bits <= 8 * |s|
    ensures Field(s, offset, bits) == PaddedField(s, offset, bits)
  {
    hide BitAt, Pow2;
    PaddedAgrees(s, offset, s, offset, bits);
  }

  /** The value an operation reads. */
  function Value(s: seq<bv8>, op: Op): int
    requires op.bits >= 1
  {
    var u := PaddedField(s, op.offset, op.bits);
    if op.signed then Signed(u, op.bits) else u
  }

  lemma ValueFits(s: seq<bv8>, op: Op)
    requires op.bits >= 1
    ensures Fits(op.signed, op.bits, Value(s, op))
  {
    hide Pow2;
    Pow2Half(op.bits);
    SignedReading(PaddedField(s, op.offset, op.bits), op.bits);
  }

  /** GET copies nine bytes, enough for 64 bits at any offset inside a byte. */
  method GetField(s: seq<bv8>, op: Op) returns (v: int)
    requires Parsed(op)
    ensures v == Value(s, op)
  {
    hide BitAt, Pow2, Signed;
    var buf := new bv8[9](_ => 0);
    var byte := op.offset / 8;
    var i := 0;
    while i < 9 && i + byte < |s|
      invariant 0 <= i <= 9
      invariant forall k :: 0 <= k < i ==> k + byte < |s| && buf[k] == s[k + byte]
      invariant forall k :: i <= k < 9 ==> buf[k] == 0
    {
      buf[i] := s[i + byte];
      i := i + 1;
    }
    ghost var at := op.offset - 8 * byte;
    BufferBits(s, buf[..], byte, op.offset, op.bits);
    PaddedAgrees(s, op.offset, buf[..], at, op.bits);
    if op.signed {
      v := GetSigned(buf[..], op.offset - 8 * byte, op.bits);
    } else {
      v := GetUnsigned(buf[..], op.offset - 8 * byte, op.bits);
    }
  }

  lemma BufferBits(s: seq<bv8>, buf: seq<bv8>, byte: nat, offset: nat, bits: nat)
    requires |buf| == 9 && byte == offset / 8 && bits <= 64
    requires forall k :: 0 <= k < 9 ==> buf[k] == if k + byte < |s| then s[k + byte] else 0
    ensures var at := offset - 8 * byte;
      forall i :: at <= i < at + bits ==> BitAt(buf, i) == Padded(s, i - at + offset)
  {
    hide BitOf;
    var at := offset - 8 * byte;
    forall i | at <= i < at + bits
      ensures BitAt(buf, i) == Padded(s, i - at + offset)
    {
      var n := i + 8 * byte;
      assert n / 8 == i / 8 + byte && n % 8 == i % 8;
      ZeroByte(i % 8);
    }
  }

  // ----- writing -----

  /** SET with saturation goes to the top of the range for some values below the range. */
  predicate Misdirected(op: Op)
    requires op.bits >= 1
  {
    op.policy.Sat? && if op.signed then op.bits < 64 && Highest(true, op.bits) - op.i64 >= TWO63 else op.i64 < 0
  }

  /** The value an operation stores over `current`, if it stores one. */
  function Stored(op: Op, current: int): Option<int>
    requires op.bits >= 1
  {
    var wanted := if op.kind.IncrBy? then current + op.i64 else op.i64;
    if Fits(op.signed, op.bits, wanted) then Some(wanted)
    else if op.kind.Set? && Misdirected(op) then Some(Highest(op.signed, op.bits))
    else Limit(op.signed, op.bits, op.policy, wanted)
  }

  /** One operation, on bitmaps. */
  ghost predicate Effect(s: seq<bv8>, op: Op, t: seq<bv8>, reply: Option<int>)
    requires Parsed(op)
  {
    var current := Value(s, op);
    if op.kind.Get? then t == s && reply == Some(current)
    else match Stored(op, current)
      case None => t == s && reply == None
      case Some(w) =>
        && Value(t, op) == w
        && SameOutside(s, t, op.offset, op.offset + op.bits)
        && reply == Some(if op.kind.Set? then current else w)
  }

  lemma StoredFits(op: Op, current: int)
    requires Parsed(op) && Stored(op, current).Some?
    ensures Fits(op.signed, op.bits, Stored(op, current).value)
  {
    hide Pow2, Wrapped;
    Pow2Half(op.bits);
    var wanted := if op.kind.IncrBy? then current + op.i64 else op.i64;
    WrappedIsUnique(op.signed, op.bits, wanted, Wrapped(op.signed, op.bits, wanted));
  }

  /** The decision as the source takes it. */
  function Decide(op: Op, current: int): (r: Option<int>)
    requires Parsed(op) && (!op.signed ==> current >= 0)
  {
    var wanted := if op.kind.IncrBy? then current + op.i64 else op.i64;
    var check :=
      if op.signed then
        if op.kind.IncrBy? then CheckSigned(current, op.i64, op.bits, op.policy)
        else CheckSigned(op.i64, 0, op.bits, op.policy)
      else
        if op.kind.IncrBy? then CheckUnsigned(current, op.i64, op.bits, op.policy)
        else CheckUnsigned(U64(op.i64), 0, op.bits, op.policy);
    if check.code != 0 then check.limit
    else Some(if op.signed then I64(wanted) else U64(wanted))
  }

  lemma FitsMachine(op: Op, v: int)
    requires Parsed(op) && Fits(op.signed, op.bits, v)
    ensures (if op.signed then I64(v) else U64(v)) == v
  {
    hide Pow2, I64;
    WidthBounds(op.bits);
    I64Exact(v);
  }

  lemma DecideIsStored(op: Op, current: int)
    requires Parsed(op) && Writes(op) && Fits(op.signed, op.bits, current)
    ensures Decide(op, current) == Stored(op, current)
  {
    hide Pow2, I64, U64, CheckSigned, CheckUnsigned, Limit;
    var wanted := if op.kind.IncrBy? then current + op.i64 else op.i64;
    if op.kind.IncrBy? {
      if op.signed {
        SignedRight(current, op.i64, op.bits, op.policy);
      } else {
        UnsignedRight(current, op.i64, op.bits, op.policy);
      }
    } else if op.signed {
      SignedSet(op.i64, op.bits, op.policy);
      WidthBounds(op.bits);
    } else {
      UnsignedSet(op.i64, op.bits, op.policy);
      WidthBounds(op.bits);
    }
    if Fits(op.signed, op.bits, wanted) {
      FitsMachine(op, wanted);
    }
  }

  /** Reading back what fits gives it back. */
  lemma ReadsBack(t: seq<bv8>, op: Op, w: int)
    requires Parsed(op) && op.offset + op.bits <= 8 * |t|
    requires Field(t, op.offset, op.bits) == w % Pow2(op.bits) && Fits(op.signed, op.bits, w)
    ensures Value(t, op) == w
  {
    hide Pow2;
    FieldInside(t, op.offset, op.bits);
    Pow2Half(op.bits);
    if op.signed {
      SignedRoundTrip(w, op.bits);
    } else {
      ModUnique(w, Pow2(op.bits), 0, w);
    }
  }

  /** One operation on a string with room for it. */
  method Step(p: array<bv8>, op: Op) returns (reply: Option<int>)
    requires Parsed(op)
    requires Writes(op) ==> op.offset + op.bits <= 8 * p.Length
    modifies p
    ensures Effect(old(p[..]), op, p[..], reply)
  {
    hide Pow2, Decide, Stored, Field, PaddedField, SameOutside;
    if op.kind.Get? {
      var v := GetField(p[..], op);
      return Some(v);
    }
    var current;
    FieldInside(p[..], op.offset, op.bits);
    if op.signed {
      current := GetSigned(p[..], op.offset, op.bits);
    } else {
      current := GetUnsigned(p[..], op.offset, op.bits);
    }
    ValueFits(p[..], op);
    var decision := Decide(op, current);
    DecideIsStored(op, current);
    if decision.None? {
      return None;
    }
    var w := decision.value;
    StoredFits(op, current);
    if op.signed {
      SetSigned(p, op.offset, op.bits, w);
    } else {
      SetUnsigned(p, op.offset, op.bits, w);
    }
    ReadsBack(p[..], op, w);
    reply := Some(if op.kind.Set? then current else w);
  }

  /** The effect of an operation leaves nothing open: neither the bitmap nor the reply. */
  lemma EffectDetermines(s: seq<bv8>, op: Op, t: seq<bv8>, reply: Option<int>, t': seq<bv8>, reply': Option<int>)
    requires Parsed(op) && (Writes(op) ==> op.offset + op.bits <= 8 * |s|)
    requires Effect(s, op, t, reply) && Effect(s, op, t', reply')
    ensures t == t' && reply == reply'
  {
    hide Pow2, Stored, Field, PaddedField, BitAt;
    if Writes(op) && Stored(op, Value(s, op)).Some? {
      FieldInside(t, op.offset, op.bits);
      FieldInside(t', op.offset, op.bits);
      SignedReading(PaddedField(t, op.offset, op.bits), op.bits);
      SignedReading(PaddedField(t', op.offset, op.bits), op.bits);
      forall i | 0 <= i < 8 * |t|
        ensures BitAt(t, i) == BitAt(t', i)
      {
        if op.offset <= i < op.offset + op.bits {
          FieldDetermines(t, t', op.offset, op.bits, i);
        }
      }
      BitmapsAgree(t, t');
    }
  }

  /** The value wanted is above the range, or SET takes it for one that is. */
  predicate TakenAsHigh(op: Op, wanted: int, hi: int) {
    wanted > hi || (op.kind.Set? && if op.signed then op.bits < 64 && hi - op.i64 >= 0x8000_0000_0000_0000 else op.i64 < 0)
  }

  /**
   The effect in numbers. A value that fits is stored; of one that does not, wrapping stores the
   congruent number that fits, saturation the bound, and failing nothing. SET replies what was
   there, INCRBY what is there now.
   */
  lemma EffectMeans(s: seq<bv8>, op: Op, t: seq<bv8>, reply: Option<int>, lo: int, hi: int, wanted: int)
    requires Parsed(op) && Writes(op) && Effect(s, op, t, reply)
    requires lo == (if op.signed then 0 - Pow2(op.bits - 1) else 0)
    requires hi == (if op.signed then Pow2(op.bits - 1) - 1 else Pow2(op.bits) - 1)
    requires wanted == if op.kind == IncrBy then Value(s, op) + op.i64 else op.i64
    ensures lo <= wanted <= hi ==> Value(t, op) == wanted && reply.Some?
    ensures !(lo <= wanted <= hi) && op.policy == Fail ==> t == s && reply == None
    ensures !(lo <= wanted <= hi) && op.policy == Wrap ==>
      reply.Some? && lo <= Value(t, op) <= hi && Value(t, op) % Pow2(op.bits) == wanted % Pow2(op.bits)
    ensures !(lo <= wanted <= hi) && op.policy == Sat ==>
      reply.Some? && Value(t, op) == if TakenAsHigh(op, wanted, hi) then hi else lo
    ensures reply.Some? ==> reply.value == if op.kind == Set then Value(s, op) else Value(t, op)
    ensures |t| == |s|
    ensures forall i :: 0 <= i < 8 * |s| && !(op.offset <= i < op.offset + op.bits) ==> BitAt(t, i) == BitAt(s, i)
  {
    hide Pow2, Value, BitAt, Wrapped;
    WrappedIsUnique(op.signed, op.bits, wanted, Wrapped(op.signed, op.bits, wanted));
  }

  /** A read changes nothing and replies the number its bits hold, the first being the sign of a signed one. */
  lemma GetMeans(s: seq<bv8>, op: Op, t: seq<bv8>, reply: Option<int>, i: nat)
    requires Parsed(op) && op.kind == Get && Effect(s, op, t, reply) && i < op.bits
    ensures t == s && reply == Some(Value(s, op))
    ensures NumberBit(Value(s, op) % Pow2(op.bits), op.bits - 1 - i) <==> Padded(s, op.offset + i)
    ensures Value(s, op) < 0 <==> op.signed && Padded(s, op.offset)
  {
    var u := PaddedField(s, op.offset, op.bits);
    hide Pow2, Padded, PaddedField, NumberBit;
    Pow2Half(op.bits);
    SignedReading(u, op.bits);
    ModUnique(u, Pow2(op.bits), 0, u);
    FieldBit(s, op.offset, op.bits, i);
    TopBit(s, op.offset, op.bits);
  }

  lemma {:induction false} FieldBit(s: seq<bv8>, offset: nat, bits: nat, i: nat)
    requires i < bits
    ensures NumberBit(PaddedField(s, offset, bits), bits - 1 - i) <==> Padded(s, offset + i)
    decreases bits
  {
    hide Padded;
    var front, last := PaddedField(s, offset, bits - 1), AsNat(Padded(s, offset + bits - 1));
    assert (2 * front + last) / 2 == front && (2 * front + last) % 2 == last;
    if i < bits - 1 {
      FieldBit(s, offset, bits - 1, i);
    }
  }

  lemma {:induction false} TopBit(s: seq<bv8>, offset: nat, bits: nat)
    requires bits >= 1
    ensures PaddedField(s, offset, bits) >= Pow2(bits - 1) <==> Padded(s, offset)
    decreases bits
  {
    hide Padded;
    if bits > 1 {
      TopBit(s, offset, bits - 1);
    }
  }

  // ----- the command -----

  /** The number of bytes the writes need. */
  function Needed(ops: seq<Op>): nat {
    if ops == [] then 0
    else
      var n := Needed(ops[..|ops| - 1]);
      var op := ops[|ops| - 1];
      var last := (op.offset + op.bits - 1) / 8 + 1;
      if Writes(op) && op.bits >= 1 && n < last then last else n
  }

  lemma {:induction false} NeededCovers(ops: seq<Op>, k: nat)
    requires k < |ops| && Writes(ops[k]) && ops[k].bits >= 1
    ensures ops[k].offset + ops[k].bits <= 8 * Needed(ops)
    decreases |ops|
  {
    if k < |ops| - 1 {
      NeededCovers(ops[..|ops| - 1], k);
    }
  }

  /** The string a command works on: a missing one is empty, and writes make room for themselves. */
  function Prepared(key: Option<seq<bv8>>, ops: seq<Op>): seq<bv8> {
    var s := if key.Some? then key.value else [];
    if |s| >= Needed(ops) then s else s + seq(Needed(ops) - |s|, _ => 0)
  }

  /** The string grows exactly as far as the last byte that a write touches. */
  lemma {:induction false} NeededIsLeast(ops: seq<Op>) returns (k: nat)
    requires Needed(ops) > 0
    ensures k < |ops| && Writes(ops[k]) && ops[k].bits >= 1
    ensures 8 * (Needed(ops) - 1) < ops[k].offset + ops[k].bits <= 8 * Needed(ops)
    decreases |ops|
  {
    var n := |ops| - 1;
    var last := (ops[n].offset + ops[n].bits - 1) / 8 + 1;
    if Writes(ops[n]) && ops[n].bits >= 1 && Needed(ops[..n]) < last {
      k := n;
    } else {
      k := NeededIsLeast(ops[..n]);
    }
  }

  lemma PreparedLength(key: Option<seq<bv8>>, ops: seq<Op>)
    ensures var s, p := if key.Some? then key.value else [], Prepared(key, ops);
      && s <= p
      && (forall k :: 0 <= k < |ops| && Writes(ops[k]) && ops[k].bits >= 1 ==> ops[k].offset + ops[k].bits <= 8 * |p|)
      && (p == s || exists k :: 0 <= k < |ops| && Writes(ops[k]) && 8 * (|p| - 1) < ops[k].offset + ops[k].bits)
  {
    var s, p := if key.Some? then key.value else [], Prepared(key, ops);
    forall k | 0 <= k < |ops| && Writes(ops[k]) && ops[k].bits >= 1
      ensures ops[k].offset + ops[k].bits <= 8 * |p|
    {
      NeededCovers(ops, k);
    }
    if |s| < Needed(ops) {
      var k := NeededIsLeast(ops);
    }
  }

  /** Making room shows no reader anything new. */
  lemma PreparedIsPadding(key: Option<seq<bv8>>, ops: seq<Op>, i: nat)
    ensures Padded(Prepared(key, ops), i) == Padded(if key.Some? then key.value else [], i)
  {
    hide BitOf;
    ZeroByte(i % 8);
  }

  /** The run of a list of operations, state by state. */
  ghost predicate Runs(states: seq<seq<bv8>>, ops: seq<Op>, replies: seq<Option<int>>)
    requires forall k :: 0 <= k < |ops| ==> Parsed(ops[k])
  {
    && |states| == |ops| + 1 && |replies| == |ops|
    && forall k :: 0 <= k < |ops| ==> Effect(states[k], ops[k], states[k + 1], replies[k])
  }

  /** The whole command: every operation has its effect on what the one before it left. */
  method Execute(key: Option<seq<bv8>>, ops: seq<Op>)
    returns (after: Option<seq<bv8>>, replies: seq<Option<int>>, ghost states: seq<seq<bv8>>)
    requires forall k :: 0 <= k < |ops| ==> Parsed(ops[k])
    ensures Runs(states, ops, replies)
    ensures states[0] == Prepared(key, ops)
    ensures (forall k :: 0 <= k < |ops| ==> !Writes(ops[k])) ==> after == key
    ensures (exists k :: 0 <= k < |ops| && Writes(ops[k])) ==> after == Some(states[|ops|])
  {
    hide Effect, Parsed;
    var s := Prepared(key, ops);
    var p := new bv8[|s|](i requires 0 <= i < |s| => s[i]);
    assert p[..] == s;
    replies, states := [], [s];
    var readonly := true;
    for j := 0 to |ops|
      invariant p.Length == |s|
      invariant |states| == j + 1 && |replies| == j
      invariant states[0] == s && states[j] == p[..]
      invariant forall k :: 0 <= k < j ==> Effect(states[k], ops[k], states[k + 1], replies[k])
      invariant readonly <==> forall k :: 0 <= k < j ==> !Writes(ops[k])
    {
      if Writes(ops[j]) {
        ParsedWidth(ops[j]);
        NeededCovers(ops, j);
        readonly := false;
      }
      var reply := Step(p, ops[j]);
      replies, states := replies + [reply], states + [p[..]];
    }
    after := if readonly then key else Some(p[..]);
  }

  lemma ParsedWidth(op: Op)
    requires Parsed(op)
    ensures op.bits >= 1
  {
  }
}
