/**
 Strings as bitmaps: bit 0 is the most significant bit of the first byte. Counting, finding and
 combining bits are specified here one bit at a time.
 */
module Bitmaps {

  /** Bit `k` of a byte, counted from its most significant end. */
  predicate BitOf(b: bv8, k: nat)
    requires k < 8
  {
    if k == 0 then b & 0x80 != 0
    else if k == 1 then b & 0x40 != 0
    else if k == 2 then b & 0x20 != 0
    else if k == 3 then b & 0x10 != 0
    else if k == 4 then b & 0x08 != 0
    else if k == 5 then b & 0x04 != 0
    else if k == 6 then b & 0x02 != 0
    else b & 0x01 != 0
  }

  /** Two bytes with the same bits are the same byte. */
  lemma BytesAgree(a: bv8, b: bv8)
    requires forall k :: 0 <= k < 8 ==> BitOf(a, k) == BitOf(b, k)
    ensures a == b
  {
    assert BitOf(a, 0) == BitOf(b, 0) && BitOf(a, 1) == BitOf(b, 1) && BitOf(a, 2) == BitOf(b, 2);
    assert BitOf(a, 3) == BitOf(b, 3) && BitOf(a, 4) == BitOf(b, 4) && BitOf(a, 5) == BitOf(b, 5);
    assert BitOf(a, 6) == BitOf(b, 6) && BitOf(a, 7) == BitOf(b, 7);
  }

  // The bitwise operators work bit by bit.

  function And(a: bv8, b: bv8): bv8 { a & b }

  function Or(a: bv8, b: bv8): bv8 { a | b }

  function Not(a: bv8): bv8 { !a }

  lemma NotBit(b: bv8, j: nat)
    requires j < 8
    ensures BitOf(Not(b), j) == !BitOf(b, j)
  {
  }

  lemma AndBit(a: bv8, b: bv8, j: nat)
    requires j < 8
    ensures BitOf(And(a, b), j) == (BitOf(a, j) && BitOf(b, j))
  {
    AndBitRaw(a, b, j);
    hide BitOf;
  }

  lemma AndBitRaw(a: bv8, b: bv8, j: nat)
    requires j < 8
    ensures BitOf(a & b, j) == (BitOf(a, j) && BitOf(b, j))
  {
  }

  lemma OrBit(a: bv8, b: bv8, j: nat)
    requires j < 8
    ensures BitOf(Or(a, b), j) == (BitOf(a, j) || BitOf(b, j))
  {
    hide BitOf, And, Or, Not;
    DeMorgan(a, b);
    NotBit(a, j);
    NotBit(b, j);
    AndBit(Not(a), Not(b), j);
    NotBit(And(Not(a), Not(b)), j);
  }

  lemma DeMorgan(a: bv8, b: bv8)
    ensures Or(a, b) == Not(And(Not(a), Not(b)))
  {
  }

  lemma ZeroByte(k: nat)
    requires k < 8
    ensures !BitOf(0, k)
  {
  }

  predicate BitAt(s: seq<bv8>, i: nat)
    requires i < 8 * |s|
  {
    BitOf(s[i / 8], i % 8)
  }

  /** Two strings of one length with the same bits are the same string. */
  lemma BitmapsAgree(s: seq<bv8>, t: seq<bv8>)
    requires |s| == |t|
    requires forall i :: 0 <= i < 8 * |s| ==> BitAt(s, i) == BitAt(t, i)
    ensures s == t
  {
    hide BitOf;
    forall n | 0 <= n < |s|
      ensures s[n] == t[n]
    {
      forall k | 0 <= k < 8
        ensures BitOf(s[n], k) == BitOf(t[n], k)
      {
        assert (8 * n + k) / 8 == n && (8 * n + k) % 8 == k;
        assert BitAt(s, 8 * n + k) == BitAt(t, 8 * n + k);
      }
      BytesAgree(s[n], t[n]);
    }
  }

  /** A bitmap read past its end is zero. */
  predicate Padded(s: seq<bv8>, i: nat) {
    i < 8 * |s| && BitAt(s, i)
  }

  function AsNat(b: bool): (n: nat)
    ensures n <= 1
  {
    if b then 1 else 0
  }

  /** The number of set bits at positions `lo` up to `hi`. */
  function CountBits(s: seq<bv8>, lo: nat, hi: nat): nat
    requires lo <= hi <= 8 * |s|
    decreases hi - lo
  {
    if lo == hi then 0 else CountBits(s, lo, hi - 1) + AsNat(BitAt(s, hi - 1))
  }

  lemma {:induction false} CountSplit(s: seq<bv8>, lo: nat, mid: nat, hi: nat)
    requires lo <= mid <= hi <= 8 * |s|
    ensures CountBits(s, lo, hi) == CountBits(s, lo, mid) + CountBits(s, mid, hi)
    decreases hi - mid
  {
    hide BitAt;
    if mid < hi {
      CountSplit(s, lo, mid, hi - 1);
    }
  }

  /** The number of set bits among the first `k` of a byte. */
  function CountOf(b: bv8, k: nat): (n: nat)
    requires k <= 8
    ensures n <= k
  {
    if k == 0 then 0 else CountOf(b, k - 1) + AsNat(BitOf(b, k - 1))
  }

  function ByteCount(b: bv8): nat {
    CountOf(b, 8)
  }

  function SumCounts(s: seq<bv8>): nat {
    if s == [] then 0 else SumCounts(s[..|s| - 1]) + ByteCount(s[|s| - 1])
  }

  lemma {:induction false} SumAppend(s: seq<bv8>, t: seq<bv8>)
    ensures SumCounts(s + t) == SumCounts(s) + SumCounts(t)
    decreases |t|
  {
    hide ByteCount;
    if t == [] {
      assert s + t == s;
    } else {
      assert (s + t)[..|s + t| - 1] == s + t[..|t| - 1];
      SumAppend(s, t[..|t| - 1]);
    }
  }

  lemma {:induction false} CountByte(s: seq<bv8>, i: nat, k: nat)
    requires i < |s| && k <= 8
    ensures CountBits(s, 8 * i, 8 * i + k) == CountOf(s[i], k)
    decreases k
  {
    hide BitOf;
    if k > 0 {
      CountByte(s, i, k - 1);
      assert (8 * i + k - 1) / 8 == i && (8 * i + k - 1) % 8 == k - 1;
    }
  }

  /** The bits of a string are the bits of its bytes. */
  lemma {:induction false} CountIsSum(s: seq<bv8>, n: nat)
    requires n <= |s|
    ensures CountBits(s, 0, 8 * n) == SumCounts(s[..n])
    decreases n
  {
    hide BitAt, CountOf;
    if n > 0 {
      CountIsSum(s, n - 1);
      CountSplit(s, 0, 8 * (n - 1), 8 * n);
      CountByte(s, n - 1, 8);
      assert s[..n][..n - 1] == s[..n - 1];
    }
  }
}
