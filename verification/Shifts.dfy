/**
 Shifting a register one bit at a time, in either direction, and what whole bytes of such
 steps amount to.
 */
module Shifts {
  import opened Words

  ghost function Doubles(v: bv64, i: nat): bv64
    decreases i
  {
    if i == 0 then v else Doubles(Double(v), i - 1)
  }

  lemma {:induction false} DoublesAdd(v: bv64, i: nat, j: nat)
    ensures Doubles(v, i + j) == Doubles(Doubles(v, i), j)
    decreases i
  {
    hide Double;
    if i != 0 {
      DoublesAdd(Double(v), i - 1, j);
    }
  }

  lemma {:induction false} DoublesXor(a: bv64, b: bv64, i: nat)
    ensures Doubles(Xor(a, b), i) == Xor(Doubles(a, i), Doubles(b, i))
    decreases i
  {
    hide Xor, Double;
    if i != 0 {
      DoubleXor(a, b);
      DoublesXor(Double(a), Double(b), i - 1);
    }
  }

  lemma {:induction false} DoublesOfZero(i: nat)
    ensures Doubles(0, i) == 0
  {
    if i != 0 {
      DoublesOfZero(i - 1);
    }
  }

  ghost function AddByte(v: bv64): bv64 { v << 8 }

  lemma DoublesByte(v: bv64)
    ensures Doubles(v, 8) == AddByte(v)
  {
    assert Doubles(v << 6, 2) == v << 8;
    assert Doubles(v << 4, 4) == v << 8;
    assert Doubles(v << 2, 6) == v << 8;
  }

  lemma EightBytesOverflow(v: bv64)
    ensures AddByte(AddByte(AddByte(AddByte(AddByte(AddByte(AddByte(AddByte(v)))))))) == 0
  {
  }

  lemma {:induction false} DoublesBytes(v: bv64, n: nat)
    ensures Doubles(v, 8 * n) == AddBytes(v, n)
    decreases n
  {
    hide AddByte, Doubles;
    if n == 0 {
      DoublesStart(v);
    } else {
      DoublesAdd(v, 8, 8 * (n - 1));
      DoublesByte(v);
      DoublesBytes(AddByte(v), n - 1);
    }
  }

  lemma DoublesStart(v: bv64)
    ensures Doubles(v, 0) == v
  {
  }

  ghost function AddBytes(v: bv64, n: nat): bv64
    decreases n
  {
    if n == 0 then v else AddBytes(AddByte(v), n - 1)
  }

  /** Sixty-four doublings empty the register. */
  lemma AllShiftedOut(v: bv64)
    ensures Doubles(v, 64) == 0
  {
    EightBytesOverflow(v);
    hide AddByte;
    DoublesBytes(v, 8);
    var v4 := AddByte(AddByte(AddByte(AddByte(v))));
    assert AddBytes(v, 8) == AddBytes(v4, 4);
  }

  ghost function Halves(c: bv64, n: nat): bv64
    decreases n
  {
    if n == 0 then c else Halves(Half(c), n - 1)
  }

  lemma {:induction false} HalvesAdd(v: bv64, i: nat, j: nat)
    ensures Halves(v, i + j) == Halves(Halves(v, i), j)
    decreases i
  {
    hide Half;
    if i != 0 {
      HalvesAdd(Half(v), i - 1, j);
    }
  }

  lemma HalvesByte(v: bv64)
    ensures Halves(v, 8) == DropByte(v)
  {
    assert Halves(v >> 6, 2) == v >> 8;
    assert Halves(v >> 4, 4) == v >> 8;
    assert Halves(v >> 2, 6) == v >> 8;
  }

  ghost function DropBytes(v: bv64, n: nat): bv64
    decreases n
  {
    if n == 0 then v else DropBytes(DropByte(v), n - 1)
  }

  lemma {:induction false} HalvesBytes(v: bv64, n: nat)
    ensures Halves(v, 8 * n) == DropBytes(v, n)
    decreases n
  {
    hide DropByte, Halves;
    if n == 0 {
      HalvesStart(v);
    } else {
      HalvesAdd(v, 8, 8 * (n - 1));
      HalvesByte(v);
      HalvesBytes(DropByte(v), n - 1);
    }
  }

  lemma HalvesStart(v: bv64)
    ensures Halves(v, 0) == v
  {
  }

  lemma EightBytesDropped(v: bv64)
    ensures DropByte(DropByte(DropByte(DropByte(DropByte(DropByte(DropByte(DropByte(v)))))))) == 0
  {
  }

  lemma AllHalvedOut(v: bv64)
    ensures Halves(v, 64) == 0
  {
    EightBytesDropped(v);
    hide DropByte;
    HalvesBytes(v, 8);
    var v4 := DropByte(DropByte(DropByte(DropByte(v))));
    assert DropBytes(v, 8) == DropBytes(v4, 4);
  }
}
