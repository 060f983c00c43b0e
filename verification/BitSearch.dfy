/**
 Finding the first set or clear bit of a string (bitops.c): byte by byte up to an aligned
 address, then word by word, then bit by bit inside one word loaded with its first byte most
 significant.
 */
module BitSearch {
  import opened Words
  import opened Shifts
  import opened Bitmaps

  /** No bit from `lo` up to `hi` has the wanted value. */
  ghost predicate Absent(s: seq<bv8>, bit: bool, lo: nat, hi: nat)
    requires hi <= 8 * |s|
  {
    forall i :: lo <= i < hi ==> BitAt(s, i) != bit
  }

  // ----- one word -----

  function Append(word: bv64, b: bv8): bv64 { (word << 8) | (b as bv64) }

  /** Bytes loaded one after the other, the first most significant. */
  function Pack(bs: seq<bv8>): bv64 {
    if bs == [] then 0 else Append(Pack(bs[..|bs| - 1]), bs[|bs| - 1])
  }

  lemma PackStep(bs: seq<bv8>, b: bv8)
    ensures Pack(bs + [b]) == Append(Pack(bs), b)
  {
    hide Append;
    assert (bs + [b])[..|bs|] == bs;
  }

  function TopByte(word: bv64): bv8 { (word >> 56) as bv8 }

  function Eight(b0: bv8, b1: bv8, b2: bv8, b3: bv8, b4: bv8, b5: bv8, b6: bv8, b7: bv8): bv64 {
    ((b0 as bv64) << 56) | ((b1 as bv64) << 48) | ((b2 as bv64) << 40) | ((b3 as bv64) << 32)
    | ((b4 as bv64) << 24) | ((b5 as bv64) << 16) | ((b6 as bv64) << 8) | (b7 as bv64)
  }

  lemma EightShifted(b0: bv8, b1: bv8, b2: bv8, b3: bv8, b4: bv8, b5: bv8, b6: bv8, b7: bv8)
    ensures AddByte(Eight(b0, b1, b2, b3, b4, b5, b6, b7)) == Eight(b1, b2, b3, b4, b5, b6, b7, 0)
    ensures TopByte(Eight(b0, b1, b2, b3, b4, b5, b6, b7)) == b0
  {
  }

  lemma EightAppended(b0: bv8, b1: bv8, b2: bv8, b3: bv8, b4: bv8, b5: bv8, b6: bv8, b7: bv8)
    ensures Append(Eight(0, b0, b1, b2, b3, b4, b5, b6), b7) == Eight(b0, b1, b2, b3, b4, b5, b6, b7)
  {
  }

  lemma PackNothing(bs: seq<bv8>)
    ensures Pack(bs[..0]) == Eight(0, 0, 0, 0, 0, 0, 0, 0)
  {
    assert bs[..0] == [];
  }

  lemma PackPrefix(bs: seq<bv8>, k: nat)
    requires 0 < k <= |bs|
    ensures Pack(bs[..k]) == Append(Pack(bs[..k - 1]), bs[k - 1])
  {
    hide Append, Pack;
    assert bs[..k] == bs[..k - 1] + [bs[k - 1]];
    PackStep(bs[..k - 1], bs[k - 1]);
  }

  lemma PackIsEight(bs: seq<bv8>)
    requires |bs| == 8
    ensures Pack(bs) == Eight(bs[0], bs[1], bs[2], bs[3], bs[4], bs[5], bs[6], bs[7])
  {
    hide Append, Eight, Pack;
    PackNothing(bs);
    PackFour(bs);
    PackLastFour(bs);
    assert bs[..8] == bs;
  }

  lemma PackLastFour(bs: seq<bv8>)
    requires |bs| == 8 && Pack(bs[..4]) == Eight(0, 0, 0, 0, bs[0], bs[1], bs[2], bs[3])
    ensures Pack(bs[..8]) == Eight(bs[0], bs[1], bs[2], bs[3], bs[4], bs[5], bs[6], bs[7])
  {
    hide Append, Eight, Pack;
    PackPrefix(bs, 5);
    EightAppended(0, 0, 0, bs[0], bs[1], bs[2], bs[3], bs[4]);
    PackPrefix(bs, 6);
    EightAppended(0, 0, bs[0], bs[1], bs[2], bs[3], bs[4], bs[5]);
    PackPrefix(bs, 7);
    EightAppended(0, bs[0], bs[1], bs[2], bs[3], bs[4], bs[5], bs[6]);
    PackPrefix(bs, 8);
    EightAppended(bs[0], bs[1], bs[2], bs[3], bs[4], bs[5], bs[6], bs[7]);
  }

  lemma PackFour(bs: seq<bv8>)
    requires |bs| == 8 && Pack(bs[..0]) == Eight(0, 0, 0, 0, 0, 0, 0, 0)
    ensures Pack(bs[..4]) == Eight(0, 0, 0, 0, bs[0], bs[1], bs[2], bs[3])
  {
    hide Append, Eight, Pack;
    PackPrefix(bs, 1);
    EightAppended(0, 0, 0, 0, 0, 0, 0, bs[0]);
    PackPrefix(bs, 2);
    EightAppended(0, 0, 0, 0, 0, 0, bs[0], bs[1]);
    PackPrefix(bs, 3);
    EightAppended(0, 0, 0, 0, 0, bs[0], bs[1], bs[2]);
    PackPrefix(bs, 4);
    EightAppended(0, 0, 0, 0, bs[0], bs[1], bs[2], bs[3]);
  }

  /** Shifting a loaded word by a byte brings the next byte to the top. */
  lemma PackShifted(bs: seq<bv8>)
    requires |bs| == 8
    ensures AddByte(Pack(bs)) == Pack(bs[1..] + [0]) && TopByte(Pack(bs)) == bs[0]
  {
    hide Append, Eight, Pack, AddByte, TopByte;
    PackIsEight(bs);
    PackIsEight(bs[1..] + [0]);
    EightShifted(bs[0], bs[1], bs[2], bs[3], bs[4], bs[5], bs[6], bs[7]);
  }

  /** Doubling a word moves every bit of its top byte up by one. */
  lemma TopByteMoves(w: bv64, j: nat)
    requires j < 7
    ensures BitOf(TopByte(Double(w)), j) == BitOf(TopByte(w), j + 1)
  {
  }

  lemma TopBit(w: bv64)
    ensures TopSet(w) == BitOf(TopByte(w), 0)
  {
  }

  /** The top eight bits of a word are the bits of its top byte. */
  lemma {:induction false} TopBits(w: bv64, r: nat)
    requires r < 8
    ensures TopSet(Doubles(w, r)) == BitOf(TopByte(w), r)
    decreases r
  {
    hide Double, TopSet, TopByte, BitOf;
    if r == 0 {
      TopBit(w);
    } else {
      TopByteMoves(w, r - 1);
      TopBits(Double(w), r - 1);
    }
  }

  /** Bit `k` of a loaded word, from the top, is bit `k` of the bytes loaded. */
  lemma {:induction false} WordBits(bs: seq<bv8>, k: nat)
    requires |bs| == 8 && k < 64
    ensures TopSet(Doubles(Pack(bs), k)) == BitAt(bs, k)
    decreases k
  {
    hide Pack, TopSet, Doubles, BitOf, AddByte, TopByte;
    PackShifted(bs);
    if k < 8 {
      TopBits(Pack(bs), k);
    } else {
      DoublesAdd(Pack(bs), 8, k - 8);
      DoublesByte(Pack(bs));
      var next := bs[1..] + [0];
      WordBits(next, k - 8);
      assert next[(k - 8) / 8] == bs[k / 8];
    }
  }

  const TOP: bv64 := 0x8000_0000_0000_0000

  predicate Meets(mask: bv64, w: bv64) { mask & w != 0 }

  lemma HalfMeetsDouble(mask: bv64, w: bv64)
    ensures Meets(Half(mask), w) == Meets(mask, Double(w))
  {
  }

  lemma TopMeets(w: bv64)
    ensures Meets(TOP, w) == TopSet(w)
  {
  }

  /** Shifting the mask down is shifting the word up. */
  lemma {:induction false} MaskMeets(mask: bv64, w: bv64, k: nat)
    ensures Meets(Halves(mask, k), w) == Meets(mask, Doubles(w, k))
    decreases k
  {
    hide Meets, Half, Double;
    if k > 0 {
      MaskMeets(Half(mask), w, k - 1);
      HalfMeetsDouble(mask, Doubles(w, k - 1));
      DoublesAdd(w, k - 1, 1);
    }
  }

  /** The scanning mask after `k` shifts tests bit `k` of the loaded bytes. */
  lemma MaskTests(bs: seq<bv8>, k: nat)
    requires |bs| == 8 && k < 64
    ensures Meets(Halves(TOP, k), Pack(bs)) == BitAt(bs, k)
  {
    hide Meets, Halves, Pack, TopSet, Doubles, BitAt;
    MaskMeets(TOP, Pack(bs), k);
    TopMeets(Doubles(Pack(bs), k));
    WordBits(bs, k);
  }

  // ----- skipping -----

  function SkipByte(bit: bool): bv8 { if bit then 0 else 0xff }

  lemma SkipByteBits(bit: bool, k: nat)
    requires k < 8
    ensures BitOf(SkipByte(bit), k) != bit
  {
  }

  /** A byte holds the wanted bit unless it is the byte to skip. */
  lemma OnlySkipByteSkips(b: bv8, bit: bool)
    requires b != SkipByte(bit)
    ensures exists k :: 0 <= k < 8 && BitOf(b, k) == bit
  {
    hide BitOf, SkipByte;
    if forall k :: 0 <= k < 8 ==> BitOf(b, k) != bit {
      forall k | 0 <= k < 8
        ensures BitOf(b, k) == BitOf(SkipByte(bit), k)
      {
        SkipByteBits(bit, k);
      }
      BytesAgree(b, SkipByte(bit));
    }
  }

  lemma SkipOne(s: seq<bv8>, bit: bool, p: nat)
    requires p < |s| && s[p] == SkipByte(bit) && Absent(s, bit, 0, 8 * p)
    ensures Absent(s, bit, 0, 8 * (p + 1))
  {
    hide BitOf, SkipByte;
    forall i | 0 <= i < 8 * (p + 1)
      ensures BitAt(s, i) != bit
    {
      SkipByteBits(bit, i % 8);
    }
  }

  lemma SkipWord(s: seq<bv8>, bit: bool, p: nat)
    requires p + 8 <= |s| && Absent(s, bit, 0, 8 * p)
    requires s[p..p + 8] == seq(8, _ => SkipByte(bit))
    ensures Absent(s, bit, 0, 8 * (p + 8))
  {
    hide BitOf, SkipByte;
    forall i | 0 <= i < 8 * (p + 8)
      ensures BitAt(s, i) != bit
    {
      if 8 * p <= i {
        assert s[i / 8] == s[p..p + 8][i / 8 - p];
        SkipByteBits(bit, i % 8);
      }
    }
  }

  // ----- the last word -----

  /** The eight bytes at `p`, padded with zeros past the end. */
  function Window(s: seq<bv8>, p: nat): (bs: seq<bv8>)
    requires p <= |s|
    ensures |bs| == 8
  {
    seq(8, j requires 0 <= j => if p + j < |s| then s[p + j] else 0)
  }

  /** A window holds the wanted bit, unless it consists of bytes to skip. */
  lemma WindowHolds(bs: seq<bv8>, bit: bool, j: nat) returns (f: nat)
    requires |bs| == 8 && j < 8 && bs[j] != SkipByte(bit)
    ensures f < 64 && BitAt(bs, f) == bit
  {
    hide BitOf, SkipByte;
    OnlySkipByteSkips(bs[j], bit);
    var k :| 0 <= k < 8 && BitOf(bs[j], k) == bit;
    f := 8 * j + k;
    assert f / 8 == j && f % 8 == k;
  }

  lemma WindowBit(s: seq<bv8>, p: nat, k: nat)
    requires p <= |s| && k < 64
    ensures BitAt(Window(s, p), k) == Padded(s, 8 * p + k)
  {
    hide BitOf;
    assert (8 * p + k) / 8 == p + k / 8 && (8 * p + k) % 8 == k % 8;
    if p + k / 8 < |s| {
      assert 8 * p + k < 8 * |s|;
    } else {
      ZeroByte(k % 8);
    }
  }

  lemma ZeroWord(bs: seq<bv8>)
    requires |bs| == 8
    ensures Pack(bs) == 0 <==> forall j :: 0 <= j < 8 ==> bs[j] == 0
  {
    if forall j :: 0 <= j < 8 ==> bs[j] == 0 {
      PackIsEight(bs);
    } else {
      var j :| 0 <= j < 8 && bs[j] != 0;
      var f := WindowHolds(bs, true, j);
      MaskTests(bs, f);
    }
  }

  lemma MaskLasts(k: nat)
    requires k < 64
    ensures Halves(TOP, k) != 0
  {
    hide Pack, Halves;
    var ones := seq(8, _ => 0xff as bv8);
    SkipByteBits(false, k % 8);
    MaskTests(ones, k);
  }

  method LoadWord(s: seq<bv8>, p: nat) returns (word: bv64)
    requires p <= |s|
    ensures word == Pack(Window(s, p))
  {
    hide Append, Pack;
    var c, bs := p, Window(s, p);
    word := 0;
    PackEmpty(bs);
    for j := 0 to 8
      invariant c == if p + j <= |s| then p + j else |s|
      invariant word == Pack(bs[..j])
    {
      PackPrefix(bs, j + 1);
      if c < |s| {
        word := Append(word, s[c]);
        c := c + 1;
      } else {
        word := Append(word, 0);
      }
    }
    assert bs[..8] == bs;
  }

  lemma PackEmpty(bs: seq<bv8>)
    ensures Pack(bs[..0]) == 0
  {
  }

  /** The mask never runs out, so the panic that follows the source's loop is not reached. */
  method ScanWord(word: bv64, bit: bool, ghost bs: seq<bv8>, ghost f: nat) returns (k: nat)
    requires |bs| == 8 && word == Pack(bs)
    requires f < 64 && BitAt(bs, f) == bit
    ensures k < 64 && BitAt(bs, k) == bit
    ensures forall i :: 0 <= i < k ==> BitAt(bs, i) != bit
  {
    hide Pack, Halves, Meets, Half, BitAt;
    var one := TOP;
    k := 0;
    HalvesStart(TOP);
    MaskLasts(0);
    MaskTests(bs, 0);
    while Meets(one, word) != bit
      invariant k <= f && one == Halves(TOP, k) && one != 0
      invariant Meets(one, word) == BitAt(bs, k)
      invariant forall i :: 0 <= i < k ==> BitAt(bs, i) != bit
      decreases f - k
    {
      HalvesAdd(TOP, k, 1);
      HalvesOne(one);
      one := Half(one);
      k := k + 1;
      MaskLasts(k);
      MaskTests(bs, k);
    }
  }

  lemma HalvesOne(v: bv64)
    ensures Halves(v, 1) == Half(v)
  {
  }

  /** What the first bit of a window says about the whole string. */
  lemma FirstInWindow(s: seq<bv8>, bit: bool, p: nat, k: nat)
    requires p <= |s| && Absent(s, bit, 0, 8 * p)
    requires k < 64 && BitAt(Window(s, p), k) == bit
    requires forall i :: 0 <= i < k ==> BitAt(Window(s, p), i) != bit
    ensures 8 * p + k < 8 * |s| ==> BitAt(s, 8 * p + k) == bit && Absent(s, bit, 0, 8 * p + k)
    ensures 8 * p + k >= 8 * |s| ==> !bit && 8 * p + k == 8 * |s| && Absent(s, bit, 0, 8 * |s|)
  {
    hide BitAt, Window;
    WindowBit(s, p, k);
    var end := if 8 * p + k < 8 * |s| then 8 * p + k else 8 * |s|;
    forall i | 8 * p <= i < end
      ensures BitAt(s, i) != bit
    {
      assert BitAt(Window(s, p), i - 8 * p) != bit;
      WindowBit(s, p, i - 8 * p);
    }
    if 8 * p + k > 8 * |s| {
      assert BitAt(Window(s, p), 8 * |s| - 8 * p) != bit;
      WindowBit(s, p, 8 * |s| - 8 * p);
    }
  }

  lemma NothingInWindow(s: seq<bv8>, p: nat)
    requires p <= |s| < p + 8 && Absent(s, true, 0, 8 * p)
    requires forall j :: 0 <= j < 8 ==> Window(s, p)[j] == 0
    ensures Absent(s, true, 0, 8 * |s|)
  {
    forall i | 0 <= i < 8 * |s|
      ensures !BitAt(s, i)
    {
      if 8 * p <= i {
        assert Window(s, p)[i / 8 - p] == s[i / 8];
        ZeroByte(i % 8);
      }
    }
  }

  /**
   The position of the first bit with the wanted value. A string is followed by zeros: looking
   for a clear bit always succeeds, at the latest just past the end; looking for a set bit may
   not, and then the answer is -1.
   */
  method Find(s: seq<bv8>, address: nat, bit: bool) returns (pos: int)
    ensures 0 <= pos < 8 * |s| ==> BitAt(s, pos) == bit && Absent(s, bit, 0, pos)
    ensures !(0 <= pos < 8 * |s|) ==> Absent(s, bit, 0, 8 * |s|) && pos == if bit then -1 else 8 * |s|
  {
    hide BitAt, SkipByte, Pack;
    var p, found := 0, false;
    while (address + p) % 8 != 0 && p < |s|
      invariant p <= |s| && Absent(s, bit, 0, 8 * p) && !found
      decreases |s| - p
    {
      if s[p] != SkipByte(bit) {
        found := true;
        break;
      }
      SkipOne(s, bit, p);
      p := p + 1;
    }
    if !found {
      while |s| - p >= 8
        invariant p <= |s| && Absent(s, bit, 0, 8 * p)
      {
        if s[p..p + 8] != seq(8, _ => SkipByte(bit)) {
          break;
        }
        SkipWord(s, bit, p);
        p := p + 8;
      }
    }
    var word := LoadWord(s, p);
    ghost var bs := Window(s, p);
    ZeroWord(bs);
    if bit && word == 0 {
      SkipIsZero();
      WindowInside(s, p);
      NothingInWindow(s, p);
      return -1;
    }
    ghost var j := Interesting(s, bit, p, found);
    ghost var f := WindowHolds(bs, bit, j);
    var k := ScanWord(word, bit, bs, f);
    FirstInWindow(s, bit, p, k);
    pos := 8 * p + k;
  }

  lemma WindowInside(s: seq<bv8>, p: nat)
    requires p <= |s|
    ensures |s| - p >= 8 ==> s[p..p + 8] == Window(s, p)
  {
  }

  lemma SkipIsZero()
    ensures SkipByte(true) == 0 && SkipByte(false) != 0
  {
  }

  /** Where the search stopped, the window is not made of bytes to skip. */
  lemma Interesting(s: seq<bv8>, bit: bool, p: nat, found: bool) returns (j: nat)
    requires p <= |s|
    requires found ==> p < |s| && s[p] != SkipByte(bit)
    requires !found && |s| - p >= 8 ==> s[p..p + 8] != seq(8, _ => SkipByte(bit))
    requires bit ==> Pack(Window(s, p)) != 0
    ensures j < 8 && Window(s, p)[j] != SkipByte(bit)
  {
    hide SkipByte, Pack;
    SkipIsZero();
    ZeroWord(Window(s, p));
    if bit {
      j :| 0 <= j < 8 && Window(s, p)[j] != 0;
    } else if found {
      j := 0;
    } else if |s| - p >= 8 {
      WindowInside(s, p);
      assert exists i :: 0 <= i < 8 && Window(s, p)[i] != SkipByte(bit);
      j :| 0 <= j < 8 && Window(s, p)[j] != SkipByte(bit);
    } else {
      j := |s| - p;
    }
  }
}
