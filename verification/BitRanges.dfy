/**
 The ranges of BITCOUNT and BITPOS (bitops.c): positions counted from either end, in bytes or
 in bits. Both commands work on whole bytes and correct the two bytes at the edges of a bit
 range with masks.
 */
module BitRanges {
  import opened Common
  import opened Bitmaps
  import opened BitSearch
  import Popcount

  // ----- ranges -----

  /** A range as given: `end` may be missing (BITPOS only), both may be negative. */
  datatype Range = Range(start: int, end: Option<int>, isBit: bool)

  function Units(r: Range, s: seq<bv8>): nat {
    if r.isBit then 8 * |s| else |s|
  }

  function FromEnd(i: int, total: nat): int {
    if i < 0 then total + i else i
  }

  function Lo(r: Range, total: nat): nat {
    var i := FromEnd(r.start, total);
    if i < 0 then 0 else i
  }

  function Hi(r: Range, total: nat): int {
    var i := FromEnd(if r.end.None? then total - 1 else r.end.value, total);
    var j := if i < 0 then 0 else i;
    if j >= total then total - 1 else j
  }

  /** The first bit of the range, and the first bit after it. */
  function FirstBit(r: Range, s: seq<bv8>): nat {
    if r.isBit then Lo(r, Units(r, s)) else 8 * Lo(r, Units(r, s))
  }

  function EndBit(r: Range, s: seq<bv8>): (e: int)
    ensures e <= 8 * |s|
  {
    if r.isBit then Hi(r, Units(r, s)) + 1 else 8 * (Hi(r, Units(r, s)) + 1)
  }

  /** BITCOUNT, but not BITPOS, answers at once when both ends are negative and crossed. */
  predicate Crossed(r: Range) {
    r.end.Some? && r.start < 0 && r.end.value < 0 && r.start > r.end.value
  }

  /** The positions a command looks at. */
  predicate Selects(r: Range, total: nat, i: int) {
    Lo(r, total) <= i <= Hi(r, total)
  }

  /**
   The positions between the two ends, before they are brought inside the string: a negative
   position counts from the end of the string, and a missing end is that end.
   */
  predicate Between(r: Range, total: nat, i: int) {
    && (if r.start < 0 then total + r.start else r.start) <= i
    && (r.end.Some? ==> i <= if r.end.value < 0 then total + r.end.value else r.end.value)
  }

  /** Both ends lie before the string, or the start is its first position. */
  predicate Before(r: Range, total: nat) {
    && r.end.Some? && r.end.value < 0 && total + r.end.value < 0
    && (if r.start < 0 then total + r.start else r.start) <= 0
  }

  /**
   The bits of a string that a range means: a BIT range counts bits, a BYTE range counts bytes.
   A range that ends before the string is taken for its first position.
   */
  predicate Meant(r: Range, s: seq<bv8>, i: int) {
    if r.isBit then Between(r, 8 * |s|, i) || (Before(r, 8 * |s|) && i == 0)
    else Between(r, |s|, i / 8) || (Before(r, |s|) && i / 8 == 0)
  }

  lemma FirstToEnd(r: Range, s: seq<bv8>, i: nat)
    requires i < 8 * |s|
    ensures FirstBit(r, s) <= i < EndBit(r, s) <==> Meant(r, s, i)
  {
    assert 0 <= i / 8 < |s| && i == 8 * (i / 8) + i % 8;
    SelectsIsMeant(r, if r.isBit then 8 * |s| else |s|, if r.isBit then i else i / 8);
  }

  lemma SelectsIsMeant(r: Range, total: nat, i: nat)
    requires i < total
    ensures Selects(r, total, i) <==> Between(r, total, i) || (Before(r, total) && i == 0)
  {
  }

  /**
   Bringing an end that lies before the string up to position 0 makes a command look at
   position 0, which is in no sense between the two ends. This is when, exactly.
   */
  lemma SelectsIsBetween(r: Range, total: nat)
    requires r.end.Some?
    ensures (forall i :: 0 <= i < total ==> (Selects(r, total, i) <==> Between(r, total, i)))
       <==> !(total > 0 && Before(r, total))
  {
    if total > 0 && Before(r, total) {
      assert Selects(r, total, 0) && !Between(r, total, 0);
    }
  }

  /** With the extra test, BITCOUNT falls for it only when the start is not the later of the two. */
  lemma CountsBetween(r: Range, total: nat)
    requires r.end.Some?
    ensures (forall i :: 0 <= i < total ==> (!Crossed(r) && Selects(r, total, i) <==> Between(r, total, i)))
       <==> !(total > 0 && Before(r, total) && !Crossed(r))
  {
    if !Crossed(r) {
      SelectsIsBetween(r, total);
      if total > 0 && Before(r, total) {
        assert Selects(r, total, 0) && !Between(r, total, 0);
      }
    }
  }

  // ----- masks -----

  /** The low `n` bits. */
  function LowOnes(n: nat): bv8 {
    if n == 0 then 0 else (LowOnes(n - 1) << 1) | 1
  }

  /** The bits before bit `k`, and the bits after it. */
  function HeadMask(k: nat): bv8
    requires k < 8
  {
    Not(LowOnes(8 - k))
  }

  function TailMask(k: nat): bv8
    requires k < 8
  {
    LowOnes(7 - k)
  }

  lemma LowOnesValues()
    ensures LowOnes(0) == 0 && LowOnes(1) == 1 && LowOnes(2) == 3 && LowOnes(3) == 7 && LowOnes(4) == 15
    ensures LowOnes(5) == 31 && LowOnes(6) == 63 && LowOnes(7) == 127 && LowOnes(8) == 255
  {
    assert LowOnes(1) == 1;
    assert LowOnes(2) == 3;
    assert LowOnes(3) == 7;
    assert LowOnes(4) == 15;
    assert LowOnes(5) == 31;
    assert LowOnes(6) == 63;
    assert LowOnes(7) == 127;
  }

  lemma LowOnesBits(n: nat, j: nat)
    requires n <= 8 && j < 8
    ensures BitOf(LowOnes(n), j) <==> j + n >= 8
  {
    LowOnesValues();
    hide LowOnes;
  }

  lemma HeadMaskBit(k: nat, j: nat)
    requires k < 8 && j < 8
    ensures BitOf(HeadMask(k), j) <==> j < k
  {
    hide BitOf, LowOnes;
    LowOnesBits(8 - k, j);
    NotBit(LowOnes(8 - k), j);
  }

  lemma TailMaskBit(k: nat, j: nat)
    requires k < 8 && j < 8
    ensures BitOf(TailMask(k), j) <==> j > k
  {
    hide BitOf, LowOnes;
    LowOnesBits(7 - k, j);
  }

  lemma HeadMaskEmpty(k: nat)
    requires k < 8
    ensures HeadMask(k) == 0 <==> k == 0
  {
    LowOnesValues();
    hide LowOnes;
  }

  lemma TailMaskEmpty(k: nat)
    requires k < 8
    ensures TailMask(k) == 0 <==> k == 7
  {
    LowOnesValues();
    hide LowOnes;
  }

  // ----- counting -----

  /** Keeping the first `k` bits of a byte and clearing the others. */
  lemma {:induction false} CountHead(b: bv8, c: bv8, k: nat, n: nat)
    requires k <= 8 && n <= 8
    requires forall j :: 0 <= j < 8 ==> (BitOf(c, j) <==> j < k && BitOf(b, j))
    ensures CountOf(c, n) == CountOf(b, if n < k then n else k)
    decreases n
  {
    hide BitOf;
    if n > 0 {
      CountHead(b, c, k, n - 1);
    }
  }

  /** Keeping the other bits. */
  lemma {:induction false} CountTail(b: bv8, c: bv8, k: nat, n: nat)
    requires k <= 8 && n <= 8
    requires forall j :: 0 <= j < 8 ==> (BitOf(c, j) <==> j >= k && BitOf(b, j))
    ensures CountOf(c, n) + CountOf(b, if n < k then n else k) == CountOf(b, n)
    decreases n
  {
    hide BitOf;
    if n > 0 {
      CountTail(b, c, k, n - 1);
    }
  }

  lemma HeadCount(b: bv8, k: nat)
    requires k < 8
    ensures ByteCount(And(b, HeadMask(k))) == CountOf(b, k)
  {
    hide BitOf, HeadMask, And, CountOf;
    forall j | 0 <= j < 8
      ensures BitOf(And(b, HeadMask(k)), j) <==> j < k && BitOf(b, j)
    {
      AndBit(b, HeadMask(k), j);
      HeadMaskBit(k, j);
    }
    CountHead(b, And(b, HeadMask(k)), k, 8);
  }

  lemma TailCount(b: bv8, k: nat)
    requires k < 8
    ensures ByteCount(And(b, TailMask(k))) + CountOf(b, k + 1) == ByteCount(b)
  {
    hide BitOf, TailMask, And, CountOf;
    forall j | 0 <= j < 8
      ensures BitOf(And(b, TailMask(k)), j) <==> j >= k + 1 && BitOf(b, j)
    {
      AndBit(b, TailMask(k), j);
      TailMaskBit(k, j);
    }
    CountTail(b, And(b, TailMask(k)), k + 1, 8);
  }

  lemma HeadBits(s: seq<bv8>, i: nat)
    requires i < 8 * |s|
    ensures CountBits(s, i - i % 8, i) == ByteCount(And(s[i / 8], HeadMask(i % 8)))
  {
    hide HeadMask, And, CountOf, CountBits;
    HeadCount(s[i / 8], i % 8);
    CountByte(s, i / 8, i % 8);
  }

  lemma TailBits(s: seq<bv8>, i: nat)
    requires i < 8 * |s|
    ensures CountBits(s, i + 1, i - i % 8 + 8) == ByteCount(And(s[i / 8], TailMask(i % 8)))
  {
    hide TailMask, And, CountOf, CountBits;
    TailCount(s[i / 8], i % 8);
    CountByte(s, i / 8, i % 8 + 1);
    CountByte(s, i / 8, 8);
    CountSplit(s, i - i % 8, i + 1, i - i % 8 + 8);
  }

  /** A slice of bytes has the bits it was cut from. */
  lemma CountSlice(s: seq<bv8>, a: nat, b: nat)
    requires a <= b <= |s|
    ensures CountBits(s[a..b], 0, 8 * (b - a)) == CountBits(s, 8 * a, 8 * b)
  {
    hide CountBits;
    CountIsSum(s[a..b], b - a);
    assert s[a..b][..b - a] == s[a..b];
    CountIsSum(s, a);
    CountIsSum(s, b);
    CountSplit(s, 0, 8 * a, 8 * b);
    assert s[..b] == s[..a] + s[a..b];
    SumAppend(s[..a], s[a..b]);
  }

  lemma CountPair(x: bv8, y: bv8)
    ensures CountBits([x, y], 0, 16) == ByteCount(x) + ByteCount(y)
  {
    hide CountBits, CountOf;
    CountIsSum([x, y], 2);
    assert [x, y][..2] == [x, y];
    assert [x, y][..1] == [x];
    assert [x][..0] == [];
    assert SumCounts([x]) == ByteCount(x);
  }

  /** What the masks take off is what lies outside the range. */
  lemma CountInside(s: seq<bv8>, lo: nat, hi: nat)
    requires lo <= hi < 8 * |s|
    ensures CountBits(s, lo, hi + 1)
            + ByteCount(And(s[lo / 8], HeadMask(lo % 8))) + ByteCount(And(s[hi / 8], TailMask(hi % 8)))
         == CountBits(s, 8 * (lo / 8), 8 * (hi / 8 + 1))
  {
    hide CountBits, CountOf, HeadMask, TailMask, And;
    HeadBits(s, lo);
    TailBits(s, hi);
    CountSplit(s, lo - lo % 8, lo, hi + 1);
    CountSplit(s, lo - lo % 8, hi + 1, hi - hi % 8 + 8);
  }

  lemma CountNothing(s: seq<bv8>, b: bv8)
    ensures CountBits(s, 0, 0) == 0 && ByteCount(And(b, 0)) == 0
  {
    ZeroCount(8);
  }

  lemma {:induction false} ZeroCount(n: nat)
    requires n <= 8
    ensures CountOf(0, n) == 0
  {
    if n > 0 {
      ZeroCount(n - 1);
    }
  }

  /** Counting one by one is the size of the set. */
  lemma {:induction false} CountIsSize(s: seq<bv8>, a: nat, b: nat)
    requires a <= b <= 8 * |s|
    ensures CountBits(s, a, b) == |set i | a <= i < b && BitAt(s, i)|
    decreases b - a
  {
    hide BitAt;
    var all := set i | a <= i < b && BitAt(s, i);
    if a == b {
      assert all == {};
    } else {
      CountIsSize(s, a, b - 1);
      var front := set i | a <= i < b - 1 && BitAt(s, i);
      assert all == front + if BitAt(s, b - 1) then {b - 1} else {};
    }
  }

  lemma CountsAll(s: seq<bv8>)
    ensures CountBits(s, 0, 8 * |s|) == |set i | 0 <= i < 8 * |s| && BitAt(s, i)|
  {
    CountIsSize(s, 0, 8 * |s|);
  }

  lemma CountsMeant(r: Range, s: seq<bv8>)
    ensures |set i | 0 <= i < 8 * |s| && Meant(r, s, i) && BitAt(s, i)|
         == if FirstBit(r, s) >= EndBit(r, s) then 0 else CountBits(s, FirstBit(r, s), EndBit(r, s))
  {
    hide BitAt, CountBits, Meant;
    var lo, hi := FirstBit(r, s), EndBit(r, s);
    var meant := set i | 0 <= i < 8 * |s| && Meant(r, s, i) && BitAt(s, i);
    forall i | 0 <= i < 8 * |s|
      ensures Meant(r, s, i) <==> lo <= i < hi
    {
      FirstToEnd(r, s, i);
    }
    if lo < hi {
      CountIsSize(s, lo, hi);
      assert meant == set i | lo <= i < hi && BitAt(s, i);
    } else {
      assert meant == {};
    }
  }

  /**
   BITCOUNT, of a whole string or of a range. A missing key counts like an empty string.
   Addresses are where the string and the two-byte buffer happen to be.
   */
  method BitCount(key: Option<seq<bv8>>, range: Option<Range>, address: nat, edges: nat, usePopcnt: bool)
    returns (count: nat)
    requires range.Some? ==> range.value.end.Some?
    ensures key.None? ==> count == 0
    ensures key.Some? && range.None? ==> count == |set i | 0 <= i < 8 * |key.value| && BitAt(key.value, i)|
    ensures key.Some? && range.Some? ==>
      count == if Crossed(range.value) then 0
               else |set i | 0 <= i < 8 * |key.value| && Meant(range.value, key.value, i) && BitAt(key.value, i)|
  {
    hide CountBits, HeadMask, TailMask, ByteCount, And, BitAt, Meant;
    if key.None? {
      return 0;
    }
    var s := key.value;
    CountsAll(s);
    if range.Some? {
      CountsMeant(range.value, s);
    }
    var start, end, headMask, tailMask := 0, |s| - 1, 0, 0;
    if range.Some? {
      var r := range.value;
      if Crossed(r) {
        return 0;
      }
      start, end := Lo(r, Units(r, s)), Hi(r, Units(r, s));
      if r.isBit && start <= end {
        headMask, tailMask := HeadMask(start % 8), TailMask(end % 8);
        CountInside(s, start, end);
        start, end := start / 8, end / 8;
      }
    }
    if start > end {
      CountNothing(s, 0);
      return 0;
    }
    CountNothing(s, s[start]);
    CountNothing(s, s[end]);
    count := CountBytes(s, start, end, headMask, tailMask, address, edges, usePopcnt);
  }

  /** The bits of whole bytes, less those under the two masks. */
  method CountBytes(s: seq<bv8>, start: nat, end: nat, headMask: bv8, tailMask: bv8,
                    address: nat, edges: nat, usePopcnt: bool) returns (count: int)
    requires start <= end < |s|
    ensures count + ByteCount(And(s[start], headMask)) + ByteCount(And(s[end], tailMask))
         == CountBits(s, 8 * start, 8 * (end + 1))
  {
    hide CountBits, ByteCount, And;
    CountNothing(s, s[start]);
    CountNothing(s, s[end]);
    count := Popcount.Count(s[start..end + 1], address + start, usePopcnt);
    CountSlice(s, start, end + 1);
    if headMask != 0 || tailMask != 0 {
      var outside := Popcount.Count([And(s[start], headMask), And(s[end], tailMask)], edges, usePopcnt);
      CountPair(And(s[start], headMask), And(s[end], tailMask));
      count := count - outside;
    }
  }

  // ----- searching -----

  /** Bits under the mask are given the value that is not wanted. */
  function Restrict(b: bv8, bit: bool, mask: bv8): bv8 {
    if bit then And(b, Not(mask)) else Or(b, mask)
  }

  lemma RestrictBit(b: bv8, bit: bool, mask: bv8, j: nat)
    requires j < 8
    ensures BitOf(Restrict(b, bit, mask), j) == bit <==> !BitOf(mask, j) && BitOf(b, j) == bit
  {
    hide BitOf, And, Or, Not;
    AndBit(b, Not(mask), j);
    NotBit(mask, j);
    OrBit(b, mask, j);
  }

  lemma RestrictTwice(b: bv8, bit: bool, m: bv8, n: bv8)
    ensures Restrict(Restrict(b, bit, m), bit, n) == Restrict(b, bit, Or(m, n))
  {
    AndTwice(b, m, n);
    OrTwice(b, m, n);
    hide And, Or, Not;
  }

  lemma AndTwice(b: bv8, m: bv8, n: bv8)
    ensures And(And(b, Not(m)), Not(n)) == And(b, Not(Or(m, n)))
  {
  }

  lemma OrTwice(b: bv8, m: bv8, n: bv8)
    ensures Or(Or(b, m), n) == Or(b, Or(m, n))
  {
  }

  /** The first wanted bit of byte `at`, outside a mask that leaves `lo` to `hi`. */
  method FindInByte(c: bv8, bit: bool, address: nat,
                    ghost s: seq<bv8>, ghost at: nat, ghost mask: bv8, ghost lo: nat, ghost hi: nat)
    returns (pos: int)
    requires at < |s| && c == Restrict(s[at], bit, mask)
    requires 8 * at <= lo && hi <= 8 * at + 8
    requires forall j :: 0 <= j < 8 ==> (BitOf(mask, j) <==> !(lo <= 8 * at + j < hi))
    ensures 0 <= pos < 8 ==> First(s, bit, lo, hi, 8 * at + pos)
    ensures !(0 <= pos < 8) ==> Absent(s, bit, lo, hi) && pos == if bit then -1 else 8
  {
    hide BitOf, Restrict;
    pos := Find([c], address, bit);
    forall j | 0 <= j < 8
      ensures BitAt([c], j) == bit <==> !BitOf(mask, j) && BitOf(s[at], j) == bit
    {
      RestrictBit(s[at], bit, mask, j);
    }
    var end := if 0 <= pos < 8 then 8 * at + pos else hi;
    forall i | lo <= i < end
      ensures BitAt(s, i) != bit
    {
      assert i / 8 == at && i % 8 == i - 8 * at;
      assert BitAt([c], i - 8 * at) != bit;
    }
    if 0 <= pos < 8 {
      assert (8 * at + pos) / 8 == at && (8 * at + pos) % 8 == pos;
    }
  }

  /** `pos` is the first wanted bit from `lo` on, before `hi`. */
  ghost predicate First(s: seq<bv8>, bit: bool, lo: nat, hi: nat, pos: int)
    requires hi <= 8 * |s|
  {
    lo <= pos < hi && BitAt(s, pos) == bit && Absent(s, bit, lo, pos)
  }

  /** From a slice of whole bytes to the string. */
  lemma SliceToString(s: seq<bv8>, bit: bool, a: nat, b: nat, pos: int)
    requires a <= b <= |s|
    requires 0 <= pos < 8 * (b - a) ==> BitAt(s[a..b], pos) == bit && Absent(s[a..b], bit, 0, pos)
    requires !(0 <= pos < 8 * (b - a)) ==> Absent(s[a..b], bit, 0, 8 * (b - a))
    ensures 0 <= pos < 8 * (b - a) ==> First(s, bit, 8 * a, 8 * b, 8 * a + pos)
    ensures !(0 <= pos < 8 * (b - a)) ==> Absent(s, bit, 8 * a, 8 * b)
  {
    hide BitOf;
    forall i | 8 * a <= i < 8 * b
      ensures BitAt(s, i) == BitAt(s[a..b], i - 8 * a)
    {
      assert (i - 8 * a) / 8 == i / 8 - a && (i - 8 * a) % 8 == i % 8;
    }
  }

  lemma AbsentJoin(s: seq<bv8>, bit: bool, lo: nat, mid: nat, hi: nat)
    requires lo <= mid <= hi <= 8 * |s| && Absent(s, bit, lo, mid)
    ensures Absent(s, bit, mid, hi) ==> Absent(s, bit, lo, hi)
    ensures forall pos :: First(s, bit, mid, hi, pos) ==> First(s, bit, lo, hi, pos)
  {
  }

  /** A missing range is the whole string. */
  function Given(range: Option<Range>): Range {
    if range.Some? then range.value else Range(0, None, false)
  }

  /** The reply: nothing found in a closed range is -1, otherwise add the bytes skipped. */
  function Reply(pos: int, bit: bool, endGiven: bool, start: nat, bytes: nat): int {
    if endGiven && !bit && pos == 8 * bytes then -1 else if pos != -1 then pos + 8 * start else pos
  }

  lemma HeadMaskLeaves(k: nat, at: nat)
    requires k < 8
    ensures forall j :: 0 <= j < 8 ==> (BitOf(HeadMask(k), j) <==> !(8 * at + k <= 8 * at + j < 8 * at + 8))
  {
    hide BitOf, HeadMask;
    forall j | 0 <= j < 8
      ensures BitOf(HeadMask(k), j) <==> j < k
    {
      HeadMaskBit(k, j);
    }
  }

  lemma TailMaskLeaves(e: nat, at: nat)
    requires e < 8
    ensures forall j :: 0 <= j < 8 ==> (BitOf(TailMask(e), j) <==> !(8 * at <= 8 * at + j < 8 * at + e + 1))
  {
    hide BitOf, TailMask;
    forall j | 0 <= j < 8
      ensures BitOf(TailMask(e), j) <==> j > e
    {
      TailMaskBit(e, j);
    }
  }

  lemma BothMasksLeave(k: nat, e: nat, at: nat)
    requires k < 8 && e < 8
    ensures forall j :: 0 <= j < 8 ==>
              (BitOf(Or(HeadMask(k), TailMask(e)), j) <==> !(8 * at + k <= 8 * at + j < 8 * at + e + 1))
  {
    hide BitOf, HeadMask, TailMask, Or;
    forall j | 0 <= j < 8
      ensures BitOf(Or(HeadMask(k), TailMask(e)), j) <==> j < k || j > e
    {
      OrBit(HeadMask(k), TailMask(e), j);
      HeadMaskBit(k, j);
      TailMaskBit(e, j);
    }
  }

  /**
   The first wanted bit from `lo` to `hi`, and -1 if there is none; except that a clear bit is
   found just past the end of the string when the range was left open.
   */
  ghost predicate Found(s: seq<bv8>, bit: bool, endGiven: bool, lo: nat, hi: nat, pos: int)
    requires hi <= 8 * |s|
  {
    if Absent(s, bit, lo, hi) then pos == if !bit && !endGiven then 8 * |s| else -1
    else First(s, bit, lo, hi, pos)
  }

  lemma FoundLater(s: seq<bv8>, bit: bool, endGiven: bool, lo: nat, mid: nat, hi: nat, pos: int)
    requires lo <= mid <= hi <= 8 * |s| && Absent(s, bit, lo, mid)
    ensures Found(s, bit, endGiven, mid, hi, pos) ==> Found(s, bit, endGiven, lo, hi, pos)
  {
    AbsentJoin(s, bit, lo, mid, hi);
  }

  lemma FoundHere(s: seq<bv8>, bit: bool, endGiven: bool, lo: nat, mid: nat, hi: nat, pos: int)
    requires mid <= hi <= 8 * |s| && First(s, bit, lo, mid, pos)
    ensures Found(s, bit, endGiven, lo, hi, pos)
  {
    assert BitAt(s, pos) == bit;
  }

  /** Whole bytes from `start` on, then the last byte, if its tail is masked. */
  method SearchRest(s: seq<bv8>, bit: bool, endGiven: bool, start0: nat, hi: nat, address: nat, edge: nat)
    returns (pos: int)
    requires 8 * start0 < hi <= 8 * |s|
    requires !endGiven ==> hi == 8 * |s|
    ensures Found(s, bit, endGiven, 8 * start0, hi, pos)
  {
    hide BitAt, BitOf, TailMask, Restrict, Absent;
    var start, end := start0, (hi - 1) / 8;
    var bytes, tailMask := end - start + 1, TailMask((hi - 1) % 8);
    TailMaskEmpty((hi - 1) % 8);
    var whole := if tailMask != 0 then bytes - 1 else bytes;
    if whole > 0 {
      pos := Find(s[start..start + whole], address + start, bit);
      SliceToString(s, bit, start, start + whole, pos);
      if bytes == whole || (pos != -1 && pos != 8 * whole) {
        pos := Reply(pos, bit, endGiven, start, bytes);
        if 8 * start <= pos < 8 * (start + whole) {
          FoundHere(s, bit, endGiven, 8 * start, 8 * (start + whole), hi, pos);
        }
        return;
      }
      start, bytes := start + whole, bytes - whole;
    } else {
      AbsentNowhere(s, bit, 8 * start0);
    }
    TailMaskLeaves((hi - 1) % 8, end);
    pos := FindInByte(Restrict(s[end], bit, tailMask), bit, edge, s, end, tailMask, 8 * end, hi);
    if 0 <= pos < 8 {
      FoundHere(s, bit, endGiven, 8 * end, hi, hi, 8 * end + pos);
    }
    pos := Reply(pos, bit, endGiven, start, bytes);
    FoundLater(s, bit, endGiven, 8 * start0, 8 * end, hi, pos);
  }

  lemma AbsentNowhere(s: seq<bv8>, bit: bool, i: nat)
    requires i <= 8 * |s|
    ensures Absent(s, bit, i, i)
  {
  }

  /** The bits from `lo` to `hi`: a masked first byte, then the rest. */
  method SearchBits(s: seq<bv8>, bit: bool, endGiven: bool, lo: nat, hi: nat, address: nat, edge: nat)
    returns (pos: int)
    requires lo < hi <= 8 * |s|
    requires !endGiven ==> lo % 8 == 0 && hi == 8 * |s|
    ensures Found(s, bit, endGiven, lo, hi, pos)
  {
    hide BitAt, BitOf, HeadMask, TailMask, Restrict, Absent;
    var start, end := lo / 8, (hi - 1) / 8;
    var headMask, tailMask := HeadMask(lo % 8), TailMask((hi - 1) % 8);
    HeadMaskEmpty(lo % 8);
    TailMaskEmpty((hi - 1) % 8);
    var bytes := end - start + 1;
    if headMask != 0 {
      var c := Restrict(s[start], bit, headMask);
      ghost var mid := 8 * start + 8;
      if tailMask != 0 && bytes == 1 {
        RestrictTwice(s[start], bit, headMask, tailMask);
        c := Restrict(c, bit, tailMask);
        BothMasksLeave(lo % 8, (hi - 1) % 8, start);
        mid := hi;
        pos := FindInByte(c, bit, edge, s, start, Or(headMask, tailMask), lo, mid);
      } else {
        HeadMaskLeaves(lo % 8, start);
        pos := FindInByte(c, bit, edge, s, start, headMask, lo, mid);
      }
      if bytes == 1 || (pos != -1 && pos != 8) {
        if 0 <= pos < 8 {
          FoundHere(s, bit, endGiven, lo, mid, hi, 8 * start + pos);
        }
        return Reply(pos, bit, endGiven, start, bytes);
      }
      pos := SearchRest(s, bit, endGiven, start + 1, hi, address, edge);
      FoundLater(s, bit, endGiven, lo, mid, hi, pos);
    } else {
      pos := SearchRest(s, bit, endGiven, start, hi, address, edge);
    }
  }

  /**
   The answer for a range as given: the first of the bits meant that has the value; if none has
   it, -1, or just past the string when clear bits are sought with no end given. An empty range
   holds neither bit.
   */
  ghost predicate Answers(s: seq<bv8>, bit: bool, r: Range, pos: int) {
    if exists i :: 0 <= i < 8 * |s| && Meant(r, s, i) && BitAt(s, i) == bit then
      && 0 <= pos < 8 * |s| && Meant(r, s, pos) && BitAt(s, pos) == bit
      && forall i :: 0 <= i < pos && Meant(r, s, i) ==> BitAt(s, i) != bit
    else if !bit && r.end.None? && exists i :: 0 <= i < 8 * |s| && Meant(r, s, i) then pos == 8 * |s|
    else pos == -1
  }

  lemma FoundAnswers(s: seq<bv8>, bit: bool, r: Range, pos: int)
    requires var lo, hi := FirstBit(r, s), EndBit(r, s);
      if lo >= hi then pos == -1 else Found(s, bit, r.end.Some?, lo, hi, pos)
    ensures Answers(s, bit, r, pos)
  {
    hide BitAt, Meant;
    var lo, hi := FirstBit(r, s), EndBit(r, s);
    forall i | 0 <= i < 8 * |s|
      ensures Meant(r, s, i) <==> lo <= i < hi
    {
      FirstToEnd(r, s, i);
    }
    if lo < hi {
      assert Meant(r, s, lo);
      OpenEnd(r, s);
    }
  }

  lemma OpenEnd(r: Range, s: seq<bv8>)
    ensures r.end.None? ==> EndBit(r, s) == 8 * |s|
  {
  }

  /** BITPOS. Giving a unit needs an end. */
  method BitPos(key: Option<seq<bv8>>, bit: bool, range: Option<Range>, address: nat, edge: nat) returns (pos: int)
    requires range.Some? && range.value.isBit ==> range.value.end.Some?
    ensures key.None? ==> pos == if bit then -1 else 0
    ensures key.Some? && range.Some? ==> Answers(key.value, bit, range.value, pos)
    ensures key.Some? && range.None? ==> Answers(key.value, bit, Range(0, None, false), pos)
  {
    hide Answers;
    if key.None? {
      return if bit then -1 else 0;
    }
    var s, r := key.value, Given(range);
    var lo, hi := FirstBit(r, s), EndBit(r, s);
    if lo >= hi {
      FoundAnswers(s, bit, r, -1);
      return -1;
    }
    pos := SearchBits(s, bit, r.end.Some?, lo, hi, address, edge);
    FoundAnswers(s, bit, r, pos);
  }
}
