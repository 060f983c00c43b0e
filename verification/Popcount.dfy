/**
 Counting set bits (bitops.c): the byte loop, the 32-byte path built on the population count
 instruction, and the 28-byte path that adds bits in parallel inside seven 32-bit words. The
 last is proved byte by byte: every step of it treats the four bytes of a word independently,
 because no byte of a sum ever carries into the next.
 */
module Popcount {
  import opened Bitmaps

  // Bytes, under names that proofs about whole words can hide.

  function Val(b: bv8): (n: nat) { b as int }

  function Plus(a: bv8, b: bv8): bv8 { a + b }

  function OddOf(b: bv8): bv8 { (b >> 1) & 0x55 }

  function EvenOf(b: bv8): bv8 { b & 0x55 }

  function Next(b: bv8): bv8 { b + 1 }

  function Previous(b: bv8): bv8 { b - 1 }

  lemma NextVal(b: bv8)
    requires Val(b) < 255
    ensures Val(Next(b)) == Val(b) + 1
  {
  }

  lemma PreviousVal(b: bv8)
    requires Val(b) > 0
    ensures Val(Previous(b)) == Val(b) - 1
  {
  }

  lemma MoveOne(a: bv8, b: bv8)
    ensures Plus(a, b) == Plus(Next(a), Previous(b))
  {
  }

  lemma AddNothing(a: bv8, b: bv8)
    requires Val(b) == 0
    ensures Plus(a, b) == a
  {
  }

  lemma {:induction false} PlusVal(a: bv8, b: bv8)
    requires Val(a) + Val(b) <= 255
    ensures Val(Plus(a, b)) == Val(a) + Val(b)
    decreases Val(b)
  {
    hide Val, Plus, Next, Previous;
    if Val(b) == 0 {
      AddNothing(a, b);
    } else {
      NextVal(a);
      PreviousVal(b);
      MoveOne(a, b);
      PlusVal(Next(a), Previous(b));
    }
  }

  lemma HighBit(b: bv8)
    ensures Val(b) <= 127 <==> b & 0x80 == 0
  {
  }

  /** The four bytes of a 32-bit word, least significant first. */
  datatype Quad = Quad(b0: bv8, b1: bv8, b2: bv8, b3: bv8)

  function Word(b0: bv8, b1: bv8, b2: bv8, b3: bv8): bv32 {
    (b0 as bv32) | ((b1 as bv32) << 8) | ((b2 as bv32) << 16) | ((b3 as bv32) << 24)
  }

  function Join(q: Quad): bv32 {
    Word(q.b0, q.b1, q.b2, q.b3)
  }

  function Add(p: Quad, q: Quad): Quad {
    Quad(Plus(p.b0, q.b0), Plus(p.b1, q.b1), Plus(p.b2, q.b2), Plus(p.b3, q.b3))
  }

  predicate AtMost(q: Quad, m: nat) {
    Val(q.b0) <= m && Val(q.b1) <= m && Val(q.b2) <= m && Val(q.b3) <= m
  }

  function Total(q: Quad): nat {
    Val(q.b0) + Val(q.b1) + Val(q.b2) + Val(q.b3)
  }

  function Sum(a: bv32, b: bv32): bv32 { a + b }

  /** Bytes below 128 add without a carry between them. */
  lemma AddJoin(p: Quad, q: Quad)
    requires AtMost(p, 127) && AtMost(q, 127)
    ensures Sum(Join(p), Join(q)) == Join(Add(p, q))
  {
    hide Word, Val, Plus, Sum;
    AddWords(p.b0, p.b1, p.b2, p.b3, q.b0, q.b1, q.b2, q.b3);
  }

  lemma AddWords(a0: bv8, a1: bv8, a2: bv8, a3: bv8, b0: bv8, b1: bv8, b2: bv8, b3: bv8)
    requires Val(a0) <= 127 && Val(a1) <= 127 && Val(a2) <= 127 && Val(a3) <= 127
    requires Val(b0) <= 127 && Val(b1) <= 127 && Val(b2) <= 127 && Val(b3) <= 127
    ensures Sum(Word(a0, a1, a2, a3), Word(b0, b1, b2, b3)) == Word(Plus(a0, b0), Plus(a1, b1), Plus(a2, b2), Plus(a3, b3))
  {
    HighBits(a0, a1, a2, a3);
    HighBits(b0, b1, b2, b3);
    AddRaw(a0, a1, a2, a3, b0, b1, b2, b3);
  }

  lemma HighBits(b0: bv8, b1: bv8, b2: bv8, b3: bv8)
    requires Val(b0) <= 127 && Val(b1) <= 127 && Val(b2) <= 127 && Val(b3) <= 127
    ensures b0 & 0x80 == 0 && b1 & 0x80 == 0 && b2 & 0x80 == 0 && b3 & 0x80 == 0
  {
    hide Val;
    HighBit(b0);
    HighBit(b1);
    HighBit(b2);
    HighBit(b3);
  }

  lemma AddRaw(a0: bv8, a1: bv8, a2: bv8, a3: bv8, b0: bv8, b1: bv8, b2: bv8, b3: bv8)
    requires a0 & 0x80 == 0 && a1 & 0x80 == 0 && a2 & 0x80 == 0 && a3 & 0x80 == 0
    requires b0 & 0x80 == 0 && b1 & 0x80 == 0 && b2 & 0x80 == 0 && b3 & 0x80 == 0
    ensures Word(a0, a1, a2, a3) + Word(b0, b1, b2, b3) == Word(a0 + b0, a1 + b1, a2 + b2, a3 + b3)
  {
  }

  lemma AddTotal(p: Quad, q: Quad, m: nat, n: nat)
    requires AtMost(p, m) && AtMost(q, n) && m <= 127 && n <= 127
    ensures AtMost(Add(p, q), m + n) && Total(Add(p, q)) == Total(p) + Total(q)
  {
    hide Val, Plus;
    PlusVal(p.b0, q.b0);
    PlusVal(p.b1, q.b1);
    PlusVal(p.b2, q.b2);
    PlusVal(p.b3, q.b3);
  }

  // The three parallel steps, on a word and on one byte.

  function Pairs(x: bv32): bv32 { x - ((x >> 1) & 0x55555555) }

  function Nibbles(x: bv32): bv32 { (x & 0x33333333) + ((x >> 2) & 0x33333333) }

  function Bytes(x: bv32): bv32 { (x + (x >> 4)) & 0x0F0F0F0F }

  function PairsOf(x: bv8): bv8 { x - ((x >> 1) & 0x55) }

  function NibblesOf(x: bv8): bv8 { (x & 0x33) + ((x >> 2) & 0x33) }

  function BytesOf(x: bv8): bv8 { (x + (x >> 4)) & 0x0F }

  function OnesOf(x: bv8): bv8 { BytesOf(NibblesOf(PairsOf(x))) }

  function Ones(q: Quad): Quad {
    Quad(OnesOf(q.b0), OnesOf(q.b1), OnesOf(q.b2), OnesOf(q.b3))
  }

  /** One byte: the steps count its bits. */
  lemma OnesCount(b: bv8)
    ensures Val(OnesOf(b)) == ByteCount(b) <= 8
  {
    hide BitOf, AsNat;
    assert CountOf(b, 2) == AsNat(BitOf(b, 0)) + AsNat(BitOf(b, 1));
    assert CountOf(b, 4) == CountOf(b, 2) + AsNat(BitOf(b, 2)) + AsNat(BitOf(b, 3));
    assert CountOf(b, 6) == CountOf(b, 4) + AsNat(BitOf(b, 4)) + AsNat(BitOf(b, 5));
    assert CountOf(b, 8) == CountOf(b, 6) + AsNat(BitOf(b, 6)) + AsNat(BitOf(b, 7));
    OnesSum(b);
  }

  lemma OnesSum(b: bv8)
    ensures OnesOf(b) as int
         == AsNat(BitOf(b, 0)) + AsNat(BitOf(b, 1)) + AsNat(BitOf(b, 2)) + AsNat(BitOf(b, 3))
          + AsNat(BitOf(b, 4)) + AsNat(BitOf(b, 5)) + AsNat(BitOf(b, 6)) + AsNat(BitOf(b, 7))
  {
  }

  // Each step on a word is the step on its bytes.

  function OddBits(x: bv32): bv32 { (x >> 1) & 0x55555555 }

  function EvenBits(x: bv32): bv32 { x & 0x55555555 }

  /** Taking the odd bits off a word is adding its odd and its even bits. */
  lemma PairsAdd(x: bv32)
    ensures Pairs(x) == Sum(OddBits(x), EvenBits(x))
  {
    OddAndEven(x);
    Cancel((x >> 1) & 0x55555555, x & 0x55555555);
  }

  lemma OddAndEven(x: bv32)
    ensures var odd := (x >> 1) & 0x55555555; x == odd + odd + (x & 0x55555555)
  {
  }

  lemma Cancel(m: bv32, v: bv32)
    ensures (m + m + v) - m == m + v
  {
  }

  lemma OddWord(b0: bv8, b1: bv8, b2: bv8, b3: bv8)
    ensures OddBits(Word(b0, b1, b2, b3)) == Word(OddOf(b0), OddOf(b1), OddOf(b2), OddOf(b3))
  {
    OddRaw(b0, b1, b2, b3);
    hide Word;
  }

  lemma OddRaw(b0: bv8, b1: bv8, b2: bv8, b3: bv8)
    ensures (Word(b0, b1, b2, b3) >> 1) & 0x55555555
         == Word((b0 >> 1) & 0x55, (b1 >> 1) & 0x55, (b2 >> 1) & 0x55, (b3 >> 1) & 0x55)
  {
  }

  lemma EvenWord(b0: bv8, b1: bv8, b2: bv8, b3: bv8)
    ensures EvenBits(Word(b0, b1, b2, b3)) == Word(EvenOf(b0), EvenOf(b1), EvenOf(b2), EvenOf(b3))
  {
    EvenRaw(b0, b1, b2, b3);
    hide Word;
  }

  lemma EvenRaw(b0: bv8, b1: bv8, b2: bv8, b3: bv8)
    ensures Word(b0, b1, b2, b3) & 0x55555555 == Word(b0 & 0x55, b1 & 0x55, b2 & 0x55, b3 & 0x55)
  {
  }

  lemma PairsOfAdd(b: bv8)
    ensures PairsOf(b) == Plus(OddOf(b), EvenOf(b)) && Val(OddOf(b)) <= 127 && Val(EvenOf(b)) <= 127
  {
    HighBit(OddOf(b));
    HighBit(EvenOf(b));
  }

  lemma PairsWord(b0: bv8, b1: bv8, b2: bv8, b3: bv8)
    ensures Pairs(Word(b0, b1, b2, b3)) == Word(PairsOf(b0), PairsOf(b1), PairsOf(b2), PairsOf(b3))
  {
    hide Word, Pairs, PairsOf, Val, Plus, OddOf, EvenOf, OddBits, EvenBits, Sum;
    PairsAdd(Word(b0, b1, b2, b3));
    OddWord(b0, b1, b2, b3);
    EvenWord(b0, b1, b2, b3);
    PairsOfAdd(b0);
    PairsOfAdd(b1);
    PairsOfAdd(b2);
    PairsOfAdd(b3);
    AddWords(OddOf(b0), OddOf(b1), OddOf(b2), OddOf(b3), EvenOf(b0), EvenOf(b1), EvenOf(b2), EvenOf(b3));
  }

  lemma NibblesWord(b0: bv8, b1: bv8, b2: bv8, b3: bv8)
    ensures Nibbles(Word(b0, b1, b2, b3)) == Word(NibblesOf(b0), NibblesOf(b1), NibblesOf(b2), NibblesOf(b3))
  {
  }

  predicate NibblesFit(b: bv8) { b & 0x88 == 0 }

  lemma NibblesOfPairs(b: bv8)
    ensures NibblesFit(NibblesOf(PairsOf(b)))
  {
  }

  lemma BytesWord(b0: bv8, b1: bv8, b2: bv8, b3: bv8)
    requires NibblesFit(b0) && NibblesFit(b1) && NibblesFit(b2) && NibblesFit(b3)
    ensures Bytes(Word(b0, b1, b2, b3)) == Word(BytesOf(b0), BytesOf(b1), BytesOf(b2), BytesOf(b3))
  {
  }

  /** The three steps leave in each byte the number of bits it had. */
  lemma OnesJoin(q: Quad)
    ensures Bytes(Nibbles(Pairs(Join(q)))) == Join(Ones(q))
    ensures AtMost(Ones(q), 8)
    ensures Total(Ones(q)) == ByteCount(q.b0) + ByteCount(q.b1) + ByteCount(q.b2) + ByteCount(q.b3)
  {
    hide Word, Pairs, Nibbles, Bytes, PairsOf, NibblesOf, BytesOf, CountOf, Val, NibblesFit;
    PairsWord(q.b0, q.b1, q.b2, q.b3);
    NibblesWord(PairsOf(q.b0), PairsOf(q.b1), PairsOf(q.b2), PairsOf(q.b3));
    NibblesOfPairs(q.b0);
    NibblesOfPairs(q.b1);
    NibblesOfPairs(q.b2);
    NibblesOfPairs(q.b3);
    BytesWord(NibblesOf(PairsOf(q.b0)), NibblesOf(PairsOf(q.b1)), NibblesOf(PairsOf(q.b2)), NibblesOf(PairsOf(q.b3)));
    OnesCount(q.b0);
    OnesCount(q.b1);
    OnesCount(q.b2);
    OnesCount(q.b3);
  }

  // Adding the four bytes of a word by one multiplication.

  function TimesTop(x: bv32): bv8 { ((x * 0x01010101) >> 24) as bv8 }

  function Byte0(x: bv32): bv8 { (x & 0xff) as bv8 }

  function Byte1(x: bv32): bv8 { ((x >> 8) & 0xff) as bv8 }

  function Byte2(x: bv32): bv8 { ((x >> 16) & 0xff) as bv8 }

  function Byte3(x: bv32): bv8 { (x >> 24) as bv8 }

  predicate Room(x: bv32) { x & 0xC0C0C0C0 == 0 }

  lemma TimesTopIsSum(x: bv32)
    requires Room(x)
    ensures TimesTop(x) == Plus(Byte3(x), Plus(Byte2(x), Plus(Byte1(x), Byte0(x))))
  {
  }

  lemma BytesOfWord(b0: bv8, b1: bv8, b2: bv8, b3: bv8)
    ensures Byte0(Word(b0, b1, b2, b3)) == b0 && Byte1(Word(b0, b1, b2, b3)) == b1
    ensures Byte2(Word(b0, b1, b2, b3)) == b2 && Byte3(Word(b0, b1, b2, b3)) == b3
  {
  }

  predicate RoomIn(b: bv8) { b & 0xC0 == 0 }

  lemma SmallHasRoom(b: bv8)
    requires Val(b) <= 56
    ensures RoomIn(b)
  {
  }

  lemma RoomInWord(b0: bv8, b1: bv8, b2: bv8, b3: bv8)
    requires RoomIn(b0) && RoomIn(b1) && RoomIn(b2) && RoomIn(b3)
    ensures Room(Word(b0, b1, b2, b3))
  {
  }

  /** Up to 56 in each byte, 224 in all: the multiplication's top byte is the sum. */
  lemma TimesAddsBytes(q: Quad)
    requires AtMost(q, 56)
    ensures Val(TimesTop(Join(q))) == Total(q)
  {
    hide Word, TimesTop, Byte0, Byte1, Byte2, Byte3, Room, RoomIn, Val, Plus;
    SmallHasRoom(q.b0);
    SmallHasRoom(q.b1);
    SmallHasRoom(q.b2);
    SmallHasRoom(q.b3);
    RoomInWord(q.b0, q.b1, q.b2, q.b3);
    TimesTopIsSum(Join(q));
    BytesOfWord(q.b0, q.b1, q.b2, q.b3);
    PlusVal(q.b1, q.b0);
    PlusVal(q.b2, Plus(q.b1, q.b0));
    PlusVal(q.b3, Plus(q.b2, Plus(q.b1, q.b0)));
  }

  // Strings.

  /** The four bytes at `p`. */
  function QuadAt(s: seq<bv8>, p: nat): Quad
    requires p + 4 <= |s|
  {
    Quad(s[p], s[p + 1], s[p + 2], s[p + 3])
  }

  /** The word read at `p`, after the three steps. */
  function OnesAt(s: seq<bv8>, p: nat): bv32
    requires p + 4 <= |s|
  {
    Bytes(Nibbles(Pairs(Join(QuadAt(s, p)))))
  }

  lemma SumNext(s: seq<bv8>, p: nat)
    requires p < |s|
    ensures SumCounts(s[..p + 1]) == SumCounts(s[..p]) + ByteCount(s[p])
  {
    hide CountOf;
    assert s[..p + 1][..p] == s[..p];
  }

  lemma SumQuad(s: seq<bv8>, p: nat)
    requires p + 4 <= |s|
    ensures SumCounts(s[..p + 4])
         == SumCounts(s[..p]) + ByteCount(s[p]) + ByteCount(s[p + 1]) + ByteCount(s[p + 2]) + ByteCount(s[p + 3])
  {
    hide CountOf, SumCounts;
    SumNext(s, p);
    SumNext(s, p + 1);
    SumNext(s, p + 2);
    SumNext(s, p + 3);
  }

  lemma SumBlock(s: seq<bv8>, p: nat, n: nat)
    requires p + n <= |s|
    ensures SumCounts(s[..p + n]) == SumCounts(s[..p]) + SumCounts(s[p..p + n])
  {
    hide SumCounts;
    assert s[..p + n] == s[..p] + s[p..p + n];
    SumAppend(s[..p], s[p..p + n]);
  }

  /** The words read so far, added up: each byte holds the bits of the bytes it stands for. */
  ghost predicate Gathers(sum: bv32, q: Quad, s: seq<bv8>, from: nat, words: nat)
    requires from + 4 * words <= |s|
  {
    && sum == Join(q)
    && AtMost(q, 8 * words)
    && SumCounts(s[..from]) + Total(q) == SumCounts(s[..from + 4 * words])
  }

  lemma GatherFirst(s: seq<bv8>, from: nat)
    requires from + 4 <= |s|
    ensures Gathers(OnesAt(s, from), Ones(QuadAt(s, from)), s, from, 1)
  {
    hide Join, Total, SumCounts, CountOf, Bytes, Nibbles, Pairs, OnesOf, AtMost;
    OnesJoin(QuadAt(s, from));
    SumQuad(s, from);
  }

  lemma GatherNext(sum: bv32, q: Quad, s: seq<bv8>, from: nat, words: nat)
    requires 1 <= words < 7 && from + 4 * words + 4 <= |s|
    requires Gathers(sum, q, s, from, words)
    ensures var p := from + 4 * words;
            Gathers(Sum(sum, OnesAt(s, p)), Add(q, Ones(QuadAt(s, p))), s, from, words + 1)
  {
    hide Join, Add, Total, AtMost, Ones, SumCounts, CountOf, Bytes, Nibbles, Pairs, Sum;
    var p := from + 4 * words;
    OnesJoin(QuadAt(s, p));
    Weaken(q, 8 * words, 127);
    Weaken(Ones(QuadAt(s, p)), 8, 127);
    AddJoin(q, Ones(QuadAt(s, p)));
    AddTotal(q, Ones(QuadAt(s, p)), 8 * words, 8);
    SumQuad(s, p);
  }

  lemma Weaken(q: Quad, m: nat, n: nat)
    requires AtMost(q, m) && m <= n
    ensures AtMost(q, n)
  {
  }

  lemma GatherAll(sum: bv32, q: Quad, s: seq<bv8>, from: nat)
    requires from + 28 <= |s| && Gathers(sum, q, s, from, 7)
    ensures SumCounts(s[..from]) + Val(TimesTop(sum)) == SumCounts(s[..from + 28])
    ensures Val(TimesTop(sum)) <= 224
  {
    hide Join, Val, SumCounts, TimesTop;
    TimesAddsBytes(q);
  }

  /** Seven words at a time. */
  method CountBlock(s: seq<bv8>, p: nat) returns (n: nat)
    requires p + 28 <= |s|
    ensures SumCounts(s[..p]) + n == SumCounts(s[..p + 28])
  {
    hide Join, OnesAt, Gathers, Add, Sum, TimesTop, Ones, SumCounts;
    var sum := OnesAt(s, p);
    ghost var q := Ones(QuadAt(s, p));
    GatherFirst(s, p);
    GatherNext(sum, q, s, p, 1);
    sum, q := Sum(sum, OnesAt(s, p + 4)), Add(q, Ones(QuadAt(s, p + 4)));
    GatherNext(sum, q, s, p, 2);
    sum, q := Sum(sum, OnesAt(s, p + 8)), Add(q, Ones(QuadAt(s, p + 8)));
    GatherNext(sum, q, s, p, 3);
    sum, q := Sum(sum, OnesAt(s, p + 12)), Add(q, Ones(QuadAt(s, p + 12)));
    GatherNext(sum, q, s, p, 4);
    sum, q := Sum(sum, OnesAt(s, p + 16)), Add(q, Ones(QuadAt(s, p + 16)));
    GatherNext(sum, q, s, p, 5);
    sum, q := Sum(sum, OnesAt(s, p + 20)), Add(q, Ones(QuadAt(s, p + 20)));
    GatherNext(sum, q, s, p, 6);
    sum, q := Sum(sum, OnesAt(s, p + 24)), Add(q, Ones(QuadAt(s, p + 24)));
    GatherAll(sum, q, s, p);
    n := Val(TimesTop(sum));
  }

  /**
   The population count of a string, whatever address it starts at and whether or not the
   processor has the instruction, which is taken to count the bits of the eight bytes it reads.
   */
  method Count(s: seq<bv8>, address: nat, usePopcnt: bool) returns (bits: nat)
    ensures bits == CountBits(s, 0, 8 * |s|)
  {
    hide SumCounts, CountOf, CountBits;
    var align := if usePopcnt then 8 else 4;
    var p := 0;
    bits := 0;
    assert SumCounts(s[..0]) == 0 by {
      assert s[..0] == [];
      EmptySum();
    }
    while (address + p) % align != 0 && p < |s|
      invariant p <= |s| && bits == SumCounts(s[..p])
      decreases |s| - p
    {
      SumNext(s, p);
      bits, p := bits + ByteCount(s[p]), p + 1;
    }
    if usePopcnt {
      var cnt0, cnt1, cnt2, cnt3 := 0, 0, 0, 0;
      while |s| - p >= 32
        invariant p <= |s| && bits + cnt0 + cnt1 + cnt2 + cnt3 == SumCounts(s[..p])
      {
        SumBlock(s, p, 8);
        SumBlock(s, p + 8, 8);
        SumBlock(s, p + 16, 8);
        SumBlock(s, p + 24, 8);
        cnt0 := cnt0 + SumCounts(s[p..p + 8]);
        cnt1 := cnt1 + SumCounts(s[p + 8..p + 16]);
        cnt2 := cnt2 + SumCounts(s[p + 16..p + 24]);
        cnt3 := cnt3 + SumCounts(s[p + 24..p + 32]);
        p := p + 32;
      }
      bits := bits + cnt0 + cnt1 + cnt2 + cnt3;
    } else {
      while |s| - p >= 28
        invariant p <= |s| && bits == SumCounts(s[..p])
      {
        var n := CountBlock(s, p);
        bits, p := bits + n, p + 28;
      }
    }
    while p < |s|
      invariant p <= |s| && bits == SumCounts(s[..p])
    {
      SumNext(s, p);
      bits, p := bits + ByteCount(s[p]), p + 1;
    }
    CountIsSum(s, |s|);
  }

  lemma EmptySum()
    ensures SumCounts([]) == 0
  {
  }
}
