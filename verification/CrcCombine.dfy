/**
 Merging checksums of adjacent blocks (crccombine.c). A linear map on registers is kept as the
 64 images of the basis words; repeated squaring turns "advance over one zero bit" into
 "advance over 2^k zero bytes", cached for every k < 64.
 */
module CrcCombine {
  import opened Words
  import opened Shifts
  import opened Powers
  import opened CrcSpec

  const DIM := 64

  // ----- basis words -----

  /** The word with only bit `i` set. */
  ghost function Basis(i: nat): bv64 { Doubles(1, i) }

  ghost predicate TopClear(v: bv64, n: nat)
    decreases n
  {
    n == 0 || (!TopSet(v) && TopClear(Double(v), n - 1))
  }

  lemma {:induction false} TopClearAdd(v: bv64, m: nat, n: nat)
    requires TopClear(v, m) && TopClear(Doubles(v, m), n)
    ensures TopClear(v, m + n)
    decreases m
  {
    hide Double, TopSet;
    if m != 0 {
      TopClearAdd(Double(v), m - 1, n);
    }
  }

  lemma TopClearByte(v: bv64)
    requires v & 0xff00_0000_0000_0000 == 0
    ensures TopClear(v, 8)
  {
    assert TopClear(v << 6, 2);
    assert TopClear(v << 4, 4);
    assert TopClear(v << 2, 6);
  }

  /** The single bit of the word one can be doubled 63 times. */
  lemma OneHasRoom()
    ensures TopClear(1, 63)
  {
    assert TopClear(0x100_0000_0000_0000, 7);
    TopClearPrepend(0x1_0000_0000_0000, 7);
    TopClearPrepend(0x100_0000_0000, 15);
    TopClearPrepend(0x1_0000_0000, 23);
    TopClearPrepend(0x100_0000, 31);
    TopClearPrepend(0x1_0000, 39);
    TopClearPrepend(0x100, 47);
    TopClearPrepend(1, 55);
  }

  lemma TopClearPrepend(v: bv64, n: nat)
    requires v & 0xff00_0000_0000_0000 == 0
    requires TopClear(v << 8, n)
    ensures TopClear(v, 8 + n)
  {
    DoublesByte(v);
    TopClearByte(v);
    hide Doubles;
    TopClearAdd(v, 8, n);
  }

  lemma {:induction false} RoomIsBasis(v: bv64, n: nat, i: nat)
    requires TopClear(v, n) && i < n
    ensures !TopSet(Doubles(v, i))
    decreases i
  {
    hide Double, TopSet;
    if i != 0 {
      RoomIsBasis(Double(v), n - 1, i - 1);
    }
  }

  // ----- matrices over GF(2) -----

  /** The sum of the rows selected by the bits of `v`, its lowest bit selecting row `i`. */
  ghost function Times(row: seq<bv64>, i: nat, v: bv64): bv64
    requires |row| == DIM && i <= DIM
    decreases DIM - i
  {
    if i == DIM then 0
    else Xor(if Odd(v) then row[i] else 0, Times(row, i + 1, Half(v)))
  }

  /** The matrix advances a register over `n` zero bits. */
  ghost predicate Advances(row: seq<bv64>, n: nat) {
    |row| == DIM && forall i :: 0 <= i < DIM ==> row[i] == ZeroBits(Basis(i), n)
  }

  lemma {:induction false} TimesAdvances(row: seq<bv64>, n: nat, i: nat, v: bv64)
    requires Advances(row, n) && i <= DIM
    ensures Times(row, i, v) == ZeroBits(Doubles(v, i), n)
    decreases DIM - i
  {
    if i == DIM {
      AllShiftedOut(v);
      ZeroBitsOfZero(n);
    } else {
      hide Xor, Half, Odd, Double, ZeroBit, ZeroBits;
      TimesAdvances(row, n, i + 1, Half(v));
      var low, rest := if Odd(v) then 1 else 0, Double(Half(v));
      LowBitAndRest(v);
      DoublesXor(low, rest, i);
      DoublesOfZero(i);
      ZeroBitsOfZero(n);
      ZeroBitsXor(Doubles(low, i), Doubles(rest, i), n);
    }
  }

  lemma {:induction false} TimesOfZero(row: seq<bv64>, i: nat)
    requires |row| == DIM && i <= DIM
    ensures Times(row, i, 0) == 0
    decreases DIM - i
  {
    if i < DIM {
      TimesOfZero(row, i + 1);
    }
  }

  /** Multiplying a matrix by its own rows doubles the distance it advances. */
  lemma SquareAdvances(row: seq<bv64>, square: seq<bv64>, n: nat)
    requires Advances(row, n) && |square| == DIM
    requires forall i :: 0 <= i < DIM ==> square[i] == Times(row, 0, row[i])
    ensures Advances(square, 2 * n)
  {
    forall i | 0 <= i < DIM
      ensures square[i] == ZeroBits(Basis(i), 2 * n)
    {
      TimesAdvances(row, n, 0, row[i]);
      ZeroBitsAdd(Basis(i), n, n);
    }
  }

  // ----- four bits at a time -----

  /** The `switch` of the multiplication: the sum of the rows named by a nibble. */
  function NibbleSum(nibble: bv64, m0: bv64, m1: bv64, m2: bv64, m3: bv64): bv64 {
    match nibble
    case 15 => Xor(Xor(Xor(m0, m1), m2), m3)
    case 14 => Xor(Xor(m1, m2), m3)
    case 13 => Xor(Xor(m0, m2), m3)
    case 12 => Xor(m2, m3)
    case 11 => Xor(Xor(m0, m1), m3)
    case 10 => Xor(m1, m3)
    case 9 => Xor(m0, m3)
    case 8 => m3
    case 7 => Xor(Xor(m0, m1), m2)
    case 6 => Xor(m1, m2)
    case 5 => Xor(m0, m2)
    case 4 => m2
    case 3 => Xor(m0, m1)
    case 2 => m1
    case 1 => m0
    case _ => 0
  }

  function LowNibble(v: bv64): bv64 { v & 15 }

  lemma NibbleBits(v: bv64)
    ensures Odd(v) <==> LowNibble(v) in {1, 3, 5, 7, 9, 11, 13, 15}
    ensures Odd(Half(v)) <==> LowNibble(v) in {2, 3, 6, 7, 10, 11, 14, 15}
    ensures Odd(Half(Half(v))) <==> LowNibble(v) in {4, 5, 6, 7, 12, 13, 14, 15}
    ensures Odd(Half(Half(Half(v)))) <==> LowNibble(v) in {8, 9, 10, 11, 12, 13, 14, 15}
  {
  }

  lemma NibbleSumSelects(nibble: bv64, b0: bool, b1: bool, b2: bool, b3: bool,
                         m0: bv64, m1: bv64, m2: bv64, m3: bv64)
    requires b0 <==> nibble in {1, 3, 5, 7, 9, 11, 13, 15}
    requires b1 <==> nibble in {2, 3, 6, 7, 10, 11, 14, 15}
    requires b2 <==> nibble in {4, 5, 6, 7, 12, 13, 14, 15}
    requires b3 <==> nibble in {8, 9, 10, 11, 12, 13, 14, 15}
    ensures NibbleSum(nibble, m0, m1, m2, m3)
         == Xor(Xor(Xor(if b0 then m0 else 0, if b1 then m1 else 0), if b2 then m2 else 0), if b3 then m3 else 0)
  {
    hide Xor;
    XorUnit(0);
    XorUnit(m0);
    XorUnit(m1);
    XorUnit(m2);
    XorUnit(m3);
    XorUnit(Xor(m0, m1));
    XorUnit(Xor(m0, m2));
    XorUnit(Xor(m1, m2));
    XorUnit(Xor(Xor(m0, m1), m2));
  }

  ghost function Selected(v: bv64, m: bv64): bv64 { if Odd(v) then m else 0 }

  lemma NibbleSumOf(v: bv64, m0: bv64, m1: bv64, m2: bv64, m3: bv64)
    ensures NibbleSum(LowNibble(v), m0, m1, m2, m3)
         == Xor(Xor(Xor(Selected(v, m0), Selected(Half(v), m1)), Selected(Half(Half(v)), m2)),
                Selected(Half(Half(Half(v))), m3))
  {
    hide Xor, Half, Odd, NibbleSum, LowNibble;
    NibbleBits(v);
    NibbleSumSelects(LowNibble(v), Odd(v), Odd(Half(v)), Odd(Half(Half(v))), Odd(Half(Half(Half(v)))),
                     m0, m1, m2, m3);
  }

  lemma TimesStep(row: seq<bv64>, i: nat, v: bv64)
    requires |row| == DIM && i < DIM
    ensures Times(row, i, v) == Xor(Selected(v, row[i]), Times(row, i + 1, Half(v)))
  {
    hide Xor, Half, Odd;
  }

  /** Four rows at once, as the multiplication loop takes them. */
  lemma TimesNibble(row: seq<bv64>, i: nat, v: bv64)
    requires |row| == DIM && i + 4 <= DIM
    ensures Times(row, i, v)
         == Xor(NibbleSum(LowNibble(v), row[i], row[i + 1], row[i + 2], row[i + 3]), Times(row, i + 4, Halves(v, 4)))
  {
    var v1 := Half(v);
    var v2 := Half(v1);
    var v3 := Half(v2);
    hide Xor, Half, Odd, NibbleSum, LowNibble, Selected, Times;
    NibbleSumOf(v, row[i], row[i + 1], row[i + 2], row[i + 3]);
    TimesStep(row, i, v);
    TimesStep(row, i + 1, v1);
    TimesStep(row, i + 2, v2);
    TimesStep(row, i + 3, v3);
    var s0, s1, s2, s3 := Selected(v, row[i]), Selected(v1, row[i + 1]), Selected(v2, row[i + 2]), Selected(v3, row[i + 3]);
    assert Halves(v2, 2) == Half(v3);
    assert Halves(v, 4) == Half(v3);
    var rest := Times(row, i + 4, Half(v3));
    XorAssoc(s0, s1, Xor(s2, Xor(s3, rest)));
    XorAssoc(Xor(s0, s1), s2, Xor(s3, rest));
    XorAssoc(Xor(Xor(s0, s1), s2), s3, rest);
  }

  lemma HalvesNibble(v: bv64)
    ensures Halves(v, 4) == v >> 4
  {
    assert Halves(v >> 2, 2) == v >> 4;
  }

  /** The checksum that `Combine` returns. */
  ghost function Combined(crc1: bv64, crc2: bv64, len2: nat): bv64 {
    if len2 == 0 then crc1 else Xor(ZeroBits(crc1, 8 * len2), crc2)
  }

  /** Combining the checksums of two blocks gives the checksum of the blocks end to end. */
  lemma CombinedIsConcatenation(c: bv64, s: seq<bv8>, t: seq<bv8>)
    ensures Combined(Crc(c, s), Crc(0, t), |t|) == Crc(c, s + t)
  {
    hide Xor;
    CrcConcat(c, s, t);
    if t == [] {
      assert s + t == s;
    }
  }

  /** The static cache of squared matrices, filled on first use. */
  class CombineCache {
    const mats: array<seq<bv64>>

    ghost predicate Shaped()
      reads mats
    {
      mats.Length == DIM && forall k :: 0 <= k < DIM ==> |mats[k]| == DIM
    }

    /** Matrix `k` advances a register over 2^k zero bytes. */
    ghost predicate Filled()
      reads mats
    {
      FilledTo(DIM)
    }

    /** The lazy initialisation test of `Combine` is sound. */
    ghost predicate Valid()
      reads mats
    {
      Shaped() && (mats[0][0] != 0 ==> Filled())
    }

    constructor ()
      ensures Valid() && fresh(mats)
    {
      mats := new seq<bv64>[DIM](_ => seq(DIM, _ => 0));
    }

    /** `gf2_matrix_square`. */
    method Square(dst: nat, src: nat, ghost n: nat)
      requires Shaped() && dst < DIM && src < DIM && dst != src
      requires Advances(mats[src], n)
      modifies mats
      ensures Shaped() && Advances(mats[dst], 2 * n)
      ensures forall k :: 0 <= k < DIM && k != dst ==> mats[k] == old(mats[k])
    {
      hide Times, Advances;
      for i := 0 to DIM
        invariant Shaped()
        invariant forall j :: 0 <= j < i ==> mats[dst][j] == Times(mats[src], 0, mats[src][j])
        invariant forall k :: 0 <= k < DIM && k != dst ==> mats[k] == old(mats[k])
      {
        var product := MatrixTimes(mats[src], mats[src][i]);
        mats[dst] := mats[dst][i := product];
      }
      SquareAdvances(mats[src], mats[dst], n);
    }

    /** The rows written out by hand at the start of the initialisation. */
    method FillOneBit()
      requires Shaped()
      modifies mats
      ensures Shaped() && Advances(mats[1], 1)
    {
      hide Basis, Advances, Double;
      mats[1] := mats[1][0 := REVERSED_POLY];
      var row: bv64 := 1;
      BasisStart();
      for n := 1 to DIM
        invariant Shaped()
        invariant row == Basis(n - 1)
        invariant mats[1][0] == REVERSED_POLY
        invariant forall i :: 1 <= i < n ==> mats[1][i] == Basis(i - 1)
      {
        mats[1] := mats[1][n := row];
        BasisNext(n - 1);
        row := Double(row);
      }
      OneBitMatrix(mats[1]);
    }

    ghost predicate FilledTo(n: nat)
      reads mats
    {
      Shaped() && n <= DIM && forall k :: 0 <= k < n ==> Advances(mats[k], 8 * Pow2(k))
    }

    /** One turn of the squaring loop. */
    method SquareNext(cacheNum: nat, prev: int)
      requires Shaped() && cacheNum < DIM && FilledTo(cacheNum)
      requires prev == (if cacheNum == 0 then 1 else -1)
      requires cacheNum == 0 ==> Advances(mats[1], 4)
      modifies mats
      ensures FilledTo(cacheNum + 1)
    {
      hide Advances;
      Square(cacheNum, cacheNum + prev, if cacheNum == 0 then 4 else 8 * Pow2(cacheNum - 1));
    }

    /** `init_combine_cache`. */
    method Init()
      requires Shaped()
      modifies mats
      ensures Filled()
    {
      hide Advances;
      FillOneBit();
      Square(0, 1, 1);
      Square(1, 0, 2);
      hide FilledTo;
      var cacheNum, prev := 0, 1;
      while true
        invariant Shaped() && 0 <= cacheNum < DIM
        invariant prev == (if cacheNum == 0 then 1 else -1)
        invariant cacheNum == 0 ==> Advances(mats[1], 4)
        invariant FilledTo(cacheNum)
        decreases DIM - cacheNum
      {
        SquareNext(cacheNum, prev);
        prev := -1;
        cacheNum := cacheNum + 1;
        if !(cacheNum < 64) {
          break;
        }
      }
    }

    /** `crc64_combine`. */
    method Combine(crc10: bv64, crc2: bv64, len20: nat) returns (crc1: bv64)
      requires Valid() && len20 < 0x1_0000_0000_0000_0000
      modifies mats
      ensures Valid()
      ensures crc1 == Combined(crc10, crc2, len20)
    {
      hide Xor, Advances, ZeroBit, ZeroBits, Pow2;
      crc1 := crc10;
      if len20 == 0 {
        return;
      }
      if mats[0][0] == 0 {
        Init();
      }
      var len2, cacheNum := len20, 0;
      Pow2Of64();
      ghost var whole := ZeroBits(crc10, 8 * len20);
      while true
        invariant 0 <= cacheNum < 64
        invariant 0 < len2 < Pow2(64 - cacheNum)
        invariant ZeroBits(crc1, 8 * Pow2(cacheNum) * len2) == whole
        invariant Filled()
        decreases len2
      {
        HalveDistance(crc1, cacheNum, len2);
        if len2 % 2 == 1 {
          MatrixAdvances(mats[cacheNum], 8 * Pow2(cacheNum), crc1);
          crc1 := MatrixTimes(mats[cacheNum], crc1);
        }
        len2 := len2 / 2;
        cacheNum := (cacheNum + 1) % 64;
        if len2 == 0 {
          break;
        }
      }
      crc1 := Xor(crc1, crc2);
    }
  }

  /** `gf2_matrix_times_switch`. */
  method MatrixTimes(row: seq<bv64>, vec0: bv64) returns (sum: bv64)
    requires |row| == DIM
    ensures sum == Times(row, 0, vec0)
  {
    hide Xor, NibbleSum, LowNibble, Half, Halves, Times;
    var vec, mat := vec0, 0;
    sum := 0;
    HalvesStart(vec0);
    AllHalvedOut(vec0);
    XorUnit(Times(row, 0, vec0));
    while vec != 0
      invariant 0 <= mat <= DIM && mat % 4 == 0
      invariant vec == Halves(vec0, mat)
      invariant Xor(sum, Times(row, mat, vec)) == Times(row, 0, vec0)
      decreases DIM - mat
    {
      var term := NibbleSum(LowNibble(vec), row[mat], row[mat + 1], row[mat + 2], row[mat + 3]);
      TimesNibble(row, mat, vec);
      HalvesAdd(vec0, mat, 4);
      HalvesNibble(vec);
      XorAssoc(sum, term, Times(row, mat + 4, Halves(vec, 4)));
      sum := Xor(sum, term);
      vec := vec >> 4;
      mat := mat + 4;
    }
    TimesOfZero(row, mat);
    XorUnit(sum);
  }

  lemma ZeroBitsStart(c: bv64)
    ensures ZeroBits(c, 0) == c
  {
  }

  lemma BasisStart()
    ensures Basis(0) == 1
  {
  }

  lemma BasisNext(i: nat)
    ensures Basis(i + 1) == Double(Basis(i))
  {
    DoublesAdd(1, i, 1);
  }

  /** The matrix written by hand at the start of the initialisation advances over one bit. */
  lemma OneBitMatrix(row: seq<bv64>)
    requires |row| == DIM && row[0] == REVERSED_POLY
    requires forall i :: 1 <= i < DIM ==> row[i] == Basis(i - 1)
    ensures Advances(row, 1)
  {
    OneHasRoom();
    forall i | 0 <= i < DIM
      ensures row[i] == ZeroBits(Basis(i), 1)
    {
      if i == 0 {
        assert ZeroBit(1) == REVERSED_POLY;
      } else {
        RoomIsBasis(1, 63, i - 1);
        BasisNext(i - 1);
        HalfOfDouble(Basis(i - 1));
        EvenStep(Basis(i));
      }
    }
  }

  /** Multiplying by a matrix that advances over `n` bits is advancing over `n` bits. */
  lemma MatrixAdvances(row: seq<bv64>, n: nat, v: bv64)
    requires Advances(row, n)
    ensures Times(row, 0, v) == ZeroBits(v, n)
  {
    TimesAdvances(row, n, 0, v);
    DoublesStart(v);
  }

  /** One turn of the combining loop: use up the lowest bit of the distance. */
  lemma HalveDistance(c: bv64, k: nat, len: nat)
    requires k < 64 && 0 < len < Pow2(64 - k)
    ensures len / 2 < Pow2(63 - k)
    ensures var c' := if len % 2 == 1 then ZeroBits(c, 8 * Pow2(k)) else c;
      ZeroBits(c, 8 * Pow2(k) * len) == ZeroBits(c', 8 * Pow2(k + 1) * (len / 2))
      && (len / 2 == 0 ==> ZeroBits(c, 8 * Pow2(k) * len) == c')
  {
    hide ZeroBits;
    var half, step := len / 2, 8 * Pow2(k);
    assert step * (2 * half) == 2 * step * half;
    if len % 2 == 1 {
      assert step * len == step + 2 * step * half;
      ZeroBitsAdd(c, step, 2 * step * half);
    }
    ZeroBitsStart(if len % 2 == 1 then ZeroBits(c, step) else c);
  }
}
