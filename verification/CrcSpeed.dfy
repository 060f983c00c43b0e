/**
 The table-driven checksum of crcspeed.c on a little-endian machine: eight bytes per lookup
 round, and two or three lanes over one buffer merged by the combine cache.
 */
module CrcSpeed {
  import opened Words
  import opened Shifts
  import opened CrcSpec
  import opened CrcBitwise
  import opened CrcCombine

  const SLICES := 8
  const BYTES := 256

  /** Entry `n` of slice `k`: byte `n` advanced over `k + 1` bytes. */
  ghost function Entry(k: nat, n: nat): bv64
    requires n < BYTES
  {
    ZeroBits(OfByte(n as bv8), 8 * (k + 1))
  }

  lemma EntryOfByte(k: nat, b: bv8)
    ensures 0 <= b as int < BYTES && Entry(k, b as int) == ZeroBits(OfByte(b), 8 * (k + 1))
  {
    ByteIndex(b);
  }

  /** The one-byte table step is a byte absorbed bit by bit. */
  lemma AbsorbByTable(c: bv64, b: bv8)
    ensures Absorb(c, b) == Xor(ZeroBits(OfByte(LowByte(Xor(c, OfByte(b)))), 8), DropByte(c))
  {
    ByteRoundTrip(b);
    hide Xor, ZeroBit, OfByte, LowByte, DropByte;
    ZeroByteSplit(Xor(c, OfByte(b)));
    DropByteXor(c, OfByte(b));
    XorUnit(DropByte(c));
  }

  // ----- eight bytes at a time -----

  lemma AdvanceSplit(c: bv64, m: nat)
    requires m >= 1
    ensures ZeroBits(c, 8 * m) == Xor(ZeroBits(OfByte(LowByte(c)), 8 * m), ZeroBits(DropByte(c), 8 * (m - 1)))
  {
    hide Xor, ZeroBit, ZeroBits, OfByte, LowByte, DropByte;
    var low := OfByte(LowByte(c));
    ZeroByteSplit(c);
    ZeroBitsAdd(c, 8, 8 * (m - 1));
    ZeroBitsAdd(low, 8, 8 * (m - 1));
    ZeroBitsXor(ZeroBits(low, 8), DropByte(c), 8 * (m - 1));
  }

  ghost function SliceTerm(c: bv64, m: nat): bv64 { ZeroBits(OfByte(LowByte(c)), 8 * m) }

  lemma AdvanceEightBytes(c: bv64)
    ensures
      var c1 := DropByte(c);
      var c2 := DropByte(c1);
      var c3 := DropByte(c2);
      var c4 := DropByte(c3);
      var c5 := DropByte(c4);
      var c6 := DropByte(c5);
      var c7 := DropByte(c6);
      ZeroBits(c, 64) ==
      Xor(Xor(Xor(Xor(Xor(Xor(Xor(SliceTerm(c, 8), SliceTerm(c1, 7)), SliceTerm(c2, 6)), SliceTerm(c3, 5)),
                      SliceTerm(c4, 4)), SliceTerm(c5, 3)), SliceTerm(c6, 2)), SliceTerm(c7, 1))
  {
    var c1 := DropByte(c);
    var c2 := DropByte(c1);
    var c3 := DropByte(c2);
    var c4 := DropByte(c3);
    var c5 := DropByte(c4);
    var c6 := DropByte(c5);
    var c7 := DropByte(c6);
    EightBytesDropped(c);
    hide *;
    AdvanceTwo(c, 8);
    AdvanceTwo(c2, 6);
    AdvanceTwo(c4, 4);
    AdvanceTwo(c6, 2);
    var p0 := Xor(SliceTerm(c, 8), SliceTerm(c1, 7));
    var p1 := Xor(SliceTerm(c2, 6), SliceTerm(c3, 5));
    var p2 := Xor(SliceTerm(c4, 4), SliceTerm(c5, 3));
    var p3 := Xor(SliceTerm(c6, 2), SliceTerm(c7, 1));
    ZeroBitsStart(0);
    XorUnit(p3);
    assert ZeroBits(c, 64) == Xor(p0, Xor(p1, Xor(p2, p3)));
    XorAssoc(p0, p1, Xor(p2, p3));
    XorAssoc(Xor(p0, p1), p2, p3);
    XorAssoc(p0, SliceTerm(c2, 6), SliceTerm(c3, 5));
    XorAssoc(Xor(p0, p1), SliceTerm(c4, 4), SliceTerm(c5, 3));
    XorAssoc(Xor(Xor(p0, p1), p2), SliceTerm(c6, 2), SliceTerm(c7, 1));
  }

  lemma AdvanceTwo(c: bv64, m: nat)
    requires m >= 2
    ensures var c1 := DropByte(c);
      ZeroBits(c, 8 * m) == Xor(Xor(SliceTerm(c, m), SliceTerm(c1, m - 1)), ZeroBits(DropByte(c1), 8 * (m - 2)))
  {
    var c1 := DropByte(c);
    hide Xor, ZeroBits, OfByte, LowByte, DropByte;
    AdvanceSplit(c, m);
    AdvanceSplit(c1, m - 1);
    XorAssoc(SliceTerm(c, m), SliceTerm(c1, m - 1), ZeroBits(DropByte(c1), 8 * (m - 2)));
  }

  lemma ShiftsAreDrops(c: bv64)
    ensures
      var c1 := DropByte(c);
      var c2 := DropByte(c1);
      var c3 := DropByte(c2);
      var c4 := DropByte(c3);
      var c5 := DropByte(c4);
      var c6 := DropByte(c5);
      var c7 := DropByte(c6);
      && c >> 8 == c1 && c >> 16 == c2 && c >> 24 == c3 && c >> 32 == c4
      && c >> 40 == c5 && c >> 48 == c6 && c >> 56 == c7
  {
    assert DropByte(c) == c >> 8;
    DropShifted(c);
    hide DropByte;
  }

  lemma DropShifted(c: bv64)
    ensures DropByte(c >> 8) == c >> 16 && DropByte(c >> 16) == c >> 24 && DropByte(c >> 24) == c >> 32
    ensures DropByte(c >> 32) == c >> 40 && DropByte(c >> 40) == c >> 48 && DropByte(c >> 48) == c >> 56
  {
  }

  /** An unaligned-agnostic little-endian load of eight bytes. */
  function LoadWord(buf: seq<bv8>, at: nat): bv64
    requires at + 8 <= |buf|
  {
    OfByte(buf[at]) | (OfByte(buf[at + 1]) << 8) | (OfByte(buf[at + 2]) << 16) | (OfByte(buf[at + 3]) << 24)
    | (OfByte(buf[at + 4]) << 32) | (OfByte(buf[at + 5]) << 40) | (OfByte(buf[at + 6]) << 48) | (OfByte(buf[at + 7]) << 56)
  }

  lemma LoadedBytes(b0: bv8, b1: bv8, b2: bv8, b3: bv8, b4: bv8, b5: bv8, b6: bv8, b7: bv8, w: bv64)
    requires w == OfByte(b0) | (OfByte(b1) << 8) | (OfByte(b2) << 16) | (OfByte(b3) << 24)
                  | (OfByte(b4) << 32) | (OfByte(b5) << 40) | (OfByte(b6) << 48) | (OfByte(b7) << 56)
    ensures LowByte(w) == b0 && LowByte(w >> 8) == b1 && LowByte(w >> 16) == b2 && LowByte(w >> 24) == b3
    ensures LowByte(w >> 32) == b4 && LowByte(w >> 40) == b5 && LowByte(w >> 48) == b6 && LowByte(w >> 56) == b7
  {
  }

  /** Dropping one byte after the other brings out the bytes in order, and then nothing. */
  lemma DropsOfLoad(b0: bv8, b1: bv8, b2: bv8, b3: bv8, b4: bv8, b5: bv8, b6: bv8, b7: bv8, w: bv64)
    requires LowByte(w) == b0 && LowByte(w >> 8) == b1 && LowByte(w >> 16) == b2 && LowByte(w >> 24) == b3
    requires LowByte(w >> 32) == b4 && LowByte(w >> 40) == b5 && LowByte(w >> 48) == b6 && LowByte(w >> 56) == b7
    ensures
      var c1 := DropByte(w);
      var c2 := DropByte(c1);
      var c3 := DropByte(c2);
      var c4 := DropByte(c3);
      var c5 := DropByte(c4);
      var c6 := DropByte(c5);
      var c7 := DropByte(c6);
      && LowByte(w) == b0 && LowByte(c1) == b1 && LowByte(c2) == b2 && LowByte(c3) == b3
      && LowByte(c4) == b4 && LowByte(c5) == b5 && LowByte(c6) == b6 && LowByte(c7) == b7
      && DropByte(c7) == 0
  {
    hide LowByte, DropByte;
    ShiftsAreDrops(w);
    EightBytesDropped(w);
  }

  lemma LoadBytes(buf: seq<bv8>, at: nat, w: bv64)
    requires at + 8 <= |buf| && w == LoadWord(buf, at)
    ensures LowByte(w) == buf[at] && LowByte(w >> 8) == buf[at + 1]
    ensures LowByte(w >> 16) == buf[at + 2] && LowByte(w >> 24) == buf[at + 3]
    ensures LowByte(w >> 32) == buf[at + 4] && LowByte(w >> 40) == buf[at + 5]
    ensures LowByte(w >> 48) == buf[at + 6] && LowByte(w >> 56) == buf[at + 7]
  {
    hide LowByte, OfByte;
    LoadedBytes(buf[at], buf[at + 1], buf[at + 2], buf[at + 3], buf[at + 4], buf[at + 5], buf[at + 6], buf[at + 7], w);
  }

  lemma LoadHolds(buf: seq<bv8>, at: nat)
    requires at + 8 <= |buf|
    ensures Holds(LoadWord(buf, at), buf[at..at + 8])
  {
    hide LowByte, DropByte, LoadWord;
    var w, s := LoadWord(buf, at), buf[at..at + 8];
    LoadBytes(buf, at, w);
    DropsOfLoad(s[0], s[1], s[2], s[3], s[4], s[5], s[6], s[7], w);
    HoldsEight(w, s);
  }

  lemma HoldsEight(w: bv64, s: seq<bv8>)
    requires |s| == 8
    requires
      var c1 := DropByte(w);
      var c2 := DropByte(c1);
      var c3 := DropByte(c2);
      var c4 := DropByte(c3);
      var c5 := DropByte(c4);
      var c6 := DropByte(c5);
      var c7 := DropByte(c6);
      && LowByte(w) == s[0] && LowByte(c1) == s[1] && LowByte(c2) == s[2] && LowByte(c3) == s[3]
      && LowByte(c4) == s[4] && LowByte(c5) == s[5] && LowByte(c6) == s[6] && LowByte(c7) == s[7]
      && DropByte(c7) == 0
    ensures Holds(w, s)
  {
    hide LowByte, DropByte;
    var c1 := DropByte(w);
    var c2 := DropByte(c1);
    var c3 := DropByte(c2);
    var c4 := DropByte(c3);
    var c5 := DropByte(c4);
    var c6 := DropByte(c5);
    var c7 := DropByte(c6);
    HoldsStep(c7, s, 7);
    HoldsStep(c6, s, 6);
    HoldsStep(c5, s, 5);
    HoldsStep(c4, s, 4);
    HoldsStep(c3, s, 3);
    HoldsStep(c2, s, 2);
    HoldsStep(c1, s, 1);
    HoldsStep(w, s, 0);
    assert s[0..] == s;
  }

  lemma HoldsStep(w: bv64, s: seq<bv8>, i: nat)
    requires i < |s| && LowByte(w) == s[i] && Holds(DropByte(w), s[i + 1..])
    ensures Holds(w, s[i..])
  {
    hide LowByte, DropByte;
    assert s[i..][1..] == s[i + 1..];
  }

  lemma CrcSlice(c: bv64, buf: seq<bv8>, i: nat, j: nat, k: nat)
    requires i <= j <= k <= |buf|
    ensures Crc(Crc(c, buf[i..j]), buf[j..k]) == Crc(c, buf[i..k])
  {
    hide Crc;
    assert buf[i..k] == buf[i..j] + buf[j..k];
    CrcAppend(c, buf[i..j], buf[j..k]);
  }

  lemma CrcOneByte(c: bv64, buf: seq<bv8>, i: nat)
    requires i < |buf|
    ensures Crc(c, buf[i..i + 1]) == Absorb(c, buf[i])
  {
    hide Absorb;
    var s := buf[i..i + 1];
    assert s[0] == buf[i] && s[1..] == [];
  }

  lemma CrcNoBytes(c: bv64, buf: seq<bv8>, i: nat)
    requires i <= |buf|
    ensures Crc(c, buf[i..i]) == c
  {
    assert buf[i..i] == [];
  }

  /** The tables, the combine cache and the lane cutoffs of a server process. */
  class Crc64 {
    const table: array2<bv64>
    const cache: CombineCache
    var dualCutoff: nat
    var triCutoff: nat

    ghost predicate TablesReady()
      reads table
    {
      && table.Length0 == SLICES && table.Length1 == BYTES
      && forall k, n :: 0 <= k < SLICES && 0 <= n < BYTES ==> table[k, n] == Entry(k, n)
    }

    ghost predicate Valid()
      reads table, cache.mats
    {
      TablesReady() && cache.Valid()
    }

    /** `crc64_init`, with the cutoffs left as `set_crc64_cutoffs` put them. */
    constructor (dual: nat, tri: nat)
      ensures Valid() && fresh(table) && fresh(cache.mats)
      ensures dualCutoff == dual && triCutoff == tri
    {
      table := new bv64[SLICES, BYTES]((k, n) => 0);
      cache := new CombineCache();
      dualCutoff, triCutoff := dual, tri;
      new;
      FillFirstSlice();
      FillOtherSlices();
    }

    method FillFirstSlice()
      requires table.Length0 == SLICES && table.Length1 == BYTES
      modifies table
      ensures forall n :: 0 <= n < BYTES ==> table[0, n] == Entry(0, n)
    {
      hide Entry;
      for n := 0 to BYTES
        invariant forall i :: 0 <= i < n ==> table[0, i] == Entry(0, i)
      {
        var v := n as bv8;
        table[0, n] := BitwiseCrc(0, [v]);
        SingleByteEntry(n);
      }
    }

    method FillOtherSlices()
      requires table.Length0 == SLICES && table.Length1 == BYTES
      requires forall n :: 0 <= n < BYTES ==> table[0, n] == Entry(0, n)
      modifies table
      ensures TablesReady()
    {
      hide Entry, Xor, LowByte, DropByte;
      for n := 0 to BYTES
        invariant forall i :: 0 <= i < BYTES ==> table[0, i] == Entry(0, i)
        invariant forall k, i :: 0 <= k < SLICES && 0 <= i < n ==> table[k, i] == Entry(k, i)
      {
        var crc := table[0, n];
        for k := 1 to SLICES
          invariant crc == Entry(k - 1, n)
          invariant forall i :: 0 <= i < BYTES ==> table[0, i] == Entry(0, i)
          invariant forall j :: 0 <= j < k ==> table[j, n] == Entry(j, n)
          invariant forall j, i :: 0 <= j < SLICES && 0 <= i < n ==> table[j, i] == Entry(j, i)
        {
          NextSlice(k, n, crc);
          crc := Xor(table[0, LowByte(crc) as int], DropByte(crc));
          table[k, n] := crc;
        }
      }
    }

    /** Look one byte up: `table[0][(crc ^ b) & 0xff] ^ (crc >> 8)`. */
    method AbsorbByte(crc: bv64, b: bv8) returns (r: bv64)
      requires TablesReady()
      ensures r == Absorb(crc, b)
    {
      hide Xor, LowByte, DropByte, OfByte, Entry, Absorb, ZeroBits;
      var i := LowByte(Xor(crc, OfByte(b)));
      EntryOfByte(0, i);
      AbsorbByTable(crc, b);
      r := Xor(table[0, i as int], DropByte(crc));
    }

    /** `DO_8_2`: eight table lookups advance the register over eight bytes. */
    method AdvanceWord(crc: bv64) returns (r: bv64)
      requires TablesReady()
      ensures r == ZeroBits(crc, 64)
    {
      ShiftsAreDrops(crc);
      hide Xor, LowByte, DropByte, OfByte, ZeroBits, Entry;
      var b0, b1, b2, b3 := LowByte(crc), LowByte(crc >> 8), LowByte(crc >> 16), LowByte(crc >> 24);
      var b4, b5, b6, b7 := LowByte(crc >> 32), LowByte(crc >> 40), LowByte(crc >> 48), LowByte(crc >> 56);
      var t7, t6, t5, t4 := Lookup(7, b0), Lookup(6, b1), Lookup(5, b2), Lookup(4, b3);
      var t3, t2, t1, t0 := Lookup(3, b4), Lookup(2, b5), Lookup(1, b6), Lookup(0, b7);
      r := Xor(Xor(Xor(Xor(Xor(Xor(Xor(t7, t6), t5), t4), t3), t2), t1), t0);
      AdvanceEightBytes(crc);
    }

    function Lookup(k: nat, b: bv8): (t: bv64)
      requires TablesReady() && k < SLICES
      reads table
      ensures t == ZeroBits(OfByte(b), 8 * (k + 1))
    {
      EntryOfByte(k, b);
      table[k, b as int]
    }

    /** `DO_8_1` and `DO_8_2`: absorb the eight bytes at `next`. */
    method AbsorbWord(crc: bv64, buf: seq<bv8>, next: nat) returns (r: bv64)
      requires TablesReady() && next + 8 <= |buf|
      ensures r == Crc(crc, buf[next..next + 8])
    {
      hide Xor, LoadWord, ZeroBits, Holds, Entry, Crc;
      var word := LoadWord(buf, next);
      LoadHolds(buf, next);
      CrcOfHeldBytes(crc, word, buf[next..next + 8]);
      r := AdvanceWord(Xor(crc, word));
    }

    /** The three-lane branch: `olen` bytes from `start`, all but a remainder absorbed. */
    method ThreeLanes(crc: bv64, buf: seq<bv8>, start: nat, olen: nat) returns (crc1: bv64, next1: nat, len: nat)
      requires Valid() && start + olen == |buf| < 0x1_0000_0000_0000_0000
      modifies cache.mats
      ensures Valid()
      ensures start <= next1 && next1 + len == |buf|
      ensures crc1 == Crc(crc, buf[start..next1])
    {
      hide Crc, Combined, CombineCache.FilledTo, Entry;
      var crc2: bv64, crc3: bv64 := 0, 0;
      crc1, next1 := crc, start;
      var next2 := next1 + LaneLength(olen, 3);
      len := next2 - next1;
      var next3 := next2 + len;
      ghost var lane := len;
      CrcNoBytes(crc, buf, start);
      CrcNoBytes(0, buf, start + lane);
      CrcNoBytes(0, buf, start + 2 * lane);
      while len >= 8
        invariant Valid()
        invariant 0 <= len <= lane && len % 8 == 0
        invariant next1 == start + lane - len && next2 == next1 + lane && next3 == next2 + lane
        invariant crc1 == Crc(crc, buf[start..next1])
        invariant crc2 == Crc(0, buf[start + lane..next2])
        invariant crc3 == Crc(0, buf[start + 2 * lane..next3])
      {
        len := len - 8;
        CrcSlice(crc, buf, start, next1, next1 + 8);
        CrcSlice(0, buf, start + lane, next2, next2 + 8);
        CrcSlice(0, buf, start + 2 * lane, next3, next3 + 8);
        crc1 := AbsorbWord(crc1, buf, next1);
        crc2 := AbsorbWord(crc2, buf, next2);
        crc3 := AbsorbWord(crc3, buf, next3);
        next1, next2, next3 := next1 + 8, next2 + 8, next3 + 8;
      }
      MergeLane(crc, buf, start, next1, next2);
      crc1 := cache.Combine(crc1, crc2, next2 - next1);
      MergeLane(crc, buf, start, next2, next3);
      crc1 := cache.Combine(crc1, crc3, next2 - next1);
      len := olen - (next2 - next1) * 3;
      next1 := next3;
    }

    /** The two-lane branch. */
    method TwoLanes(crc: bv64, buf: seq<bv8>, start: nat, olen: nat) returns (crc1: bv64, next1: nat, len: nat)
      requires Valid() && start + olen == |buf| < 0x1_0000_0000_0000_0000
      modifies cache.mats
      ensures Valid()
      ensures start <= next1 && next1 + len == |buf|
      ensures crc1 == Crc(crc, buf[start..next1])
    {
      hide Crc, Combined, CombineCache.FilledTo, Entry;
      var crc2: bv64 := 0;
      crc1, next1 := crc, start;
      var next2 := next1 + LaneLength(olen, 2);
      len := next2 - next1;
      ghost var lane := len;
      CrcNoBytes(crc, buf, start);
      CrcNoBytes(0, buf, start + lane);
      while len >= 8
        invariant Valid()
        invariant 0 <= len <= lane && len % 8 == 0
        invariant next1 == start + lane - len && next2 == next1 + lane
        invariant crc1 == Crc(crc, buf[start..next1])
        invariant crc2 == Crc(0, buf[start + lane..next2])
      {
        len := len - 8;
        CrcSlice(crc, buf, start, next1, next1 + 8);
        CrcSlice(0, buf, start + lane, next2, next2 + 8);
        crc1 := AbsorbWord(crc1, buf, next1);
        crc2 := AbsorbWord(crc2, buf, next2);
        next1, next2 := next1 + 8, next2 + 8;
      }
      MergeLane(crc, buf, start, next1, next2);
      crc1 := cache.Combine(crc1, crc2, next2 - next1);
      len := olen - (next2 - next1) * 2;
      next1 := next2;
    }

    /**
     `crcspeed64little`: whatever the seed, the bytes, the address of the buffer and the two
     cutoffs, the result is the checksum.
     */
    method Checksum(crc: bv64, buf: seq<bv8>, address: nat) returns (crc1: bv64)
      requires Valid() && |buf| < 0x1_0000_0000_0000_0000
      modifies cache.mats
      ensures Valid()
      ensures crc1 == Crc(crc, buf)
    {
      hide Crc, CombineCache.Valid, Entry, Absorb;
      var next1: nat, len: nat := 0, |buf|;
      crc1 := crc;
      CrcNoBytes(crc, buf, 0);
      if dualCutoff >= 1 {
        // single bytes up to an address divisible by eight
        while len != 0 && (address + next1) % 8 != 0
          invariant Valid()
          invariant next1 + len == |buf|
          invariant crc1 == Crc(crc, buf[..next1])
        {
          CrcOneByte(crc1, buf, next1);
          CrcSlice(crc, buf, 0, next1, next1 + 1);
          crc1 := AbsorbByte(crc1, buf[next1]);
          next1, len := next1 + 1, len - 1;
        }
        ghost var start, seed := next1, crc1;
        if len > triCutoff {
          crc1, next1, len := ThreeLanes(crc1, buf, next1, len);
          CrcSlice(crc, buf, 0, start, next1);
        } else if len > dualCutoff {
          crc1, next1, len := TwoLanes(crc1, buf, next1, len);
          CrcSlice(crc, buf, 0, start, next1);
        }
        while len >= 8
          invariant Valid()
          invariant next1 + len == |buf|
          invariant crc1 == Crc(crc, buf[..next1])
        {
          len := len - 8;
          CrcSlice(crc, buf, 0, next1, next1 + 8);
          crc1 := AbsorbWord(crc1, buf, next1);
          next1 := next1 + 8;
        }
      }
      while len != 0
        invariant Valid()
        invariant next1 + len == |buf|
        invariant crc1 == Crc(crc, buf[..next1])
      {
        CrcOneByte(crc1, buf, next1);
        CrcSlice(crc, buf, 0, next1, next1 + 1);
        crc1 := AbsorbByte(crc1, buf[next1]);
        next1, len := next1 + 1, len - 1;
      }
      assert buf[..next1] == buf;
    }

    /** The pairs that `crc64Test` prints: the function bit by bit and the fast one agree. */
    method CompareBoth(buf: seq<bv8>, address: nat) returns (slow: bv64, fast: bv64)
      requires Valid() && |buf| < 0x1_0000_0000_0000_0000
      modifies cache.mats
      ensures Valid()
      ensures slow == fast
    {
      slow := BitwiseCrc(0, buf);
      fast := Checksum(0, buf, address);
    }
  }

  /** Bytes per lane: `(len / div) & CRC64_LEN_MASK`, whose top bit is already clear for div > 1. */
  function LaneLength(len: nat, div: nat): (lane: nat)
    requires div > 1
    ensures lane % 8 == 0 && div * lane <= len
  {
    var share := len / div;
    assert div * share <= len;
    assert share - share % 8 <= share;
    assert div * (share - share % 8) <= div * share;
    share - share % 8
  }

  lemma MergeLane(c: bv64, buf: seq<bv8>, i: nat, j: nat, k: nat)
    requires i <= j <= k <= |buf|
    ensures Combined(Crc(c, buf[i..j]), Crc(0, buf[j..k]), k - j) == Crc(c, buf[i..k])
  {
    hide Crc, Combined;
    assert buf[i..k] == buf[i..j] + buf[j..k];
    CombinedIsConcatenation(c, buf[i..j], buf[j..k]);
  }

  lemma SingleByteEntry(n: nat)
    requires n < BYTES
    ensures Crc(0, [n as bv8]) == Entry(0, n)
  {
    hide Xor, ZeroBit, OfByte;
    var b := n as bv8;
    assert [b][1..] == [];
    XorUnit(OfByte(b));
  }

  lemma NextSlice(k: nat, n: nat, crc: bv64)
    requires 1 <= k && n < BYTES && crc == Entry(k - 1, n)
    ensures 0 <= LowByte(crc) as int < BYTES
    ensures Entry(k, n) == Xor(Entry(0, LowByte(crc) as int), DropByte(crc))
  {
    hide Xor, ZeroBit, ZeroBits, OfByte, LowByte, DropByte;
    ZeroBitsAdd(OfByte(n as bv8), 8 * k, 8);
    ZeroByteSplit(crc);
    EntryOfByte(0, LowByte(crc));
  }
}
