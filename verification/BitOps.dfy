/**
 BITOP (bitops.c): and, or, exclusive or and complement of strings of different lengths. Where
 all of at most sixteen sources have data the work is done four words at a time; the rest is done
 byte by byte, stopping early once further sources cannot change the byte.
 */
module BitOps {
  import opened Bitmaps

  datatype Operation = AndOp | OrOp | XorOp | NotOp

  /** What a source key holds. */
  datatype Source = Missing | Text(bytes: seq<bv8>) | OtherType

  datatype Outcome = Error | Deleted | Stored(bytes: seq<bv8>)

  // ----- what a result byte should be -----

  function Length(s: Source): nat {
    if s.Text? then |s.bytes| else 0
  }

  /** A source continued with zeros. */
  function ByteOf(s: Source, j: nat): bv8 {
    if j < Length(s) then s.bytes[j] else 0
  }

  function Combine(op: Operation, a: bv8, b: bv8): bv8 {
    match op
    case AndOp => a & b
    case OrOp => a | b
    case XorOp => a ^ b
    case NotOp => a
  }

  /** Byte `j` of the operation applied to the first `n` sources in turn. */
  function Folded(op: Operation, sources: seq<Source>, n: nat, j: nat): bv8
    requires 1 <= n <= |sources|
  {
    if n == 1 then
      if op.NotOp? then Not(ByteOf(sources[0], j)) else ByteOf(sources[0], j)
    else Combine(op, Folded(op, sources, n - 1, j), ByteOf(sources[n - 1], j))
  }

  /** Byte values that no further source can change. */
  predicate Final(op: Operation, b: bv8) {
    match op
    case AndOp => b == 0
    case OrOp => b == 0xff
    case XorOp => false
    case NotOp => false
  }

  lemma FinalStays(op: Operation, a: bv8, b: bv8)
    requires Final(op, a)
    ensures Combine(op, a, b) == a
  {
  }

  lemma {:induction false} FoldedStays(op: Operation, sources: seq<Source>, i: nat, n: nat, j: nat)
    requires 1 <= i <= n <= |sources| && Final(op, Folded(op, sources, i, j))
    ensures Folded(op, sources, n, j) == Folded(op, sources, i, j)
    decreases n
  {
    hide Final, Combine;
    if i < n {
      FoldedStays(op, sources, i, n - 1, j);
      FinalStays(op, Folded(op, sources, i, j), ByteOf(sources[n - 1], j));
    }
  }

  /** Bit by bit, whatever the order of the sources: conjunction, disjunction, parity. */
  ghost predicate BitSays(op: Operation, sources: seq<Source>, n: nat, j: nat, k: nat)
    requires 1 <= n <= |sources| && k < 8
  {
    var bit := BitOf(Folded(op, sources, n, j), k);
    match op
    case AndOp => bit <==> forall i :: 0 <= i < n ==> BitOf(ByteOf(sources[i], j), k)
    case OrOp => bit <==> exists i :: 0 <= i < n && BitOf(ByteOf(sources[i], j), k)
    case XorOp => bit <==> Ones(sources, n, j, k) % 2 == 1
    case NotOp => n == 1 ==> (bit <==> !BitOf(ByteOf(sources[0], j), k))
  }

  /** The number of sources with this bit set. */
  function Ones(sources: seq<Source>, n: nat, j: nat, k: nat): nat
    requires n <= |sources| && k < 8
  {
    if n == 0 then 0 else Ones(sources, n - 1, j, k) + AsNat(BitOf(ByteOf(sources[n - 1], j), k))
  }

  lemma XorBit(a: bv8, b: bv8, k: nat)
    requires k < 8
    ensures BitOf(a ^ b, k) == (BitOf(a, k) != BitOf(b, k))
  {
    XorForm(a, b);
    hide BitOf, And, Or, Not;
    OrBit(And(a, Not(b)), And(Not(a), b), k);
    AndBit(a, Not(b), k);
    AndBit(Not(a), b, k);
    NotBit(a, k);
    NotBit(b, k);
  }

  lemma XorForm(a: bv8, b: bv8)
    ensures a ^ b == Or(And(a, Not(b)), And(Not(a), b))
  {
  }

  lemma CombineBit(op: Operation, a: bv8, b: bv8, k: nat)
    requires k < 8
    ensures op.AndOp? ==> BitOf(Combine(op, a, b), k) == (BitOf(a, k) && BitOf(b, k))
    ensures op.OrOp? ==> BitOf(Combine(op, a, b), k) == (BitOf(a, k) || BitOf(b, k))
    ensures op.XorOp? ==> BitOf(Combine(op, a, b), k) == (BitOf(a, k) != BitOf(b, k))
  {
    hide BitOf;
    AndBit(a, b, k);
    OrBit(a, b, k);
    XorBit(a, b, k);
  }

  lemma {:induction false} FoldedBits(op: Operation, sources: seq<Source>, n: nat, j: nat, k: nat)
    requires 1 <= n <= |sources| && k < 8
    ensures BitSays(op, sources, n, j, k)
    decreases n
  {
    hide BitOf, Combine, ByteOf, Not;
    if n == 1 {
      NotBit(ByteOf(sources[0], j), k);
      assert Ones(sources, 0, j, k) == 0;
    } else {
      FoldedBits(op, sources, n - 1, j, k);
      CombineBit(op, Folded(op, sources, n - 1, j), ByteOf(sources[n - 1], j), k);
    }
  }

  // ----- lengths -----

  predicate IsMax(sources: seq<Source>, n: nat, m: nat)
    requires n <= |sources|
  {
    && (forall i :: 0 <= i < n ==> Length(sources[i]) <= m)
    && (m == 0 || exists i :: 0 <= i < n && Length(sources[i]) == m)
  }

  method Lengths(sources: seq<Source>) returns (ok: bool, maxlen: nat, minlen: nat)
    requires |sources| >= 1
    ensures ok <==> forall i :: 0 <= i < |sources| ==> !sources[i].OtherType?
    ensures ok ==> IsMax(sources, |sources|, maxlen)
    ensures ok ==> forall i :: 0 <= i < |sources| ==> minlen <= Length(sources[i])
  {
    maxlen, minlen, ok := 0, 0, true;
    for j := 0 to |sources|
      invariant ok && forall i :: 0 <= i < j ==> !sources[i].OtherType?
      invariant IsMax(sources, j, maxlen)
      invariant forall i :: 0 <= i < j ==> minlen <= Length(sources[i])
    {
      match sources[j] {
        case Missing =>
          minlen := 0;
        case OtherType =>
          ok := false;
          return;
        case Text(bytes) =>
          if |bytes| > maxlen {
            maxlen := |bytes|;
          }
          if j == 0 || |bytes| < minlen {
            minlen := |bytes|;
          }
      }
    }
  }

  // ----- four words at a time -----

  /** Bytes `lo` to `hi` are folded over the first `n` sources. */
  ghost predicate Done(op: Operation, sources: seq<Source>, n: nat, res: seq<bv8>, lo: nat, hi: nat)
    requires 1 <= n <= |sources| && hi <= |res|
  {
    forall j :: lo <= j < hi ==> res[j] == Folded(op, sources, n, j)
  }

  /** Eight bytes as the word a little-endian machine loads. */
  function Word(b0: bv8, b1: bv8, b2: bv8, b3: bv8, b4: bv8, b5: bv8, b6: bv8, b7: bv8): bv64 {
    (b0 as bv64) | ((b1 as bv64) << 8) | ((b2 as bv64) << 16) | ((b3 as bv64) << 24)
    | ((b4 as bv64) << 32) | ((b5 as bv64) << 40) | ((b6 as bv64) << 48) | ((b7 as bv64) << 56)
  }

  function Low(w: bv64): bv8 { (w & 0xff) as bv8 }

  function Drop(w: bv64): bv64 { w >> 8 }

  function ByteOfWord(w: bv64, k: nat): bv8 {
    if k == 0 then Low(w) else ByteOfWord(Drop(w), k - 1)
  }

  function LoadWord(bytes: seq<bv8>, at: nat): bv64
    requires at + 8 <= |bytes|
  {
    Word(bytes[at], bytes[at + 1], bytes[at + 2], bytes[at + 3], bytes[at + 4], bytes[at + 5], bytes[at + 6], bytes[at + 7])
  }

  function CombineWord(op: Operation, a: bv64, b: bv64): bv64 {
    match op
    case AndOp => a & b
    case OrOp => a | b
    case XorOp => a ^ b
    case NotOp => a
  }

  function NotWord(a: bv64): bv64 { a ^ 0xffff_ffff_ffff_ffff }

  lemma WordStep(b0: bv8, b1: bv8, b2: bv8, b3: bv8, b4: bv8, b5: bv8, b6: bv8, b7: bv8)
    ensures Low(Word(b0, b1, b2, b3, b4, b5, b6, b7)) == b0
    ensures Drop(Word(b0, b1, b2, b3, b4, b5, b6, b7)) == Word(b1, b2, b3, b4, b5, b6, b7, 0)
  {
  }

  lemma {:induction false} WordBytes(bytes: seq<bv8>, k: nat)
    requires |bytes| == 8 && k < 8
    ensures ByteOfWord(Word(bytes[0], bytes[1], bytes[2], bytes[3], bytes[4], bytes[5], bytes[6], bytes[7]), k) == bytes[k]
    decreases k
  {
    hide Word, Low, Drop;
    WordStep(bytes[0], bytes[1], bytes[2], bytes[3], bytes[4], bytes[5], bytes[6], bytes[7]);
    if k > 0 {
      WordBytes(bytes[1..] + [0], k - 1);
    }
  }

  lemma LoadedByte(bytes: seq<bv8>, at: nat, k: nat)
    requires at + 8 <= |bytes| && k < 8
    ensures ByteOfWord(LoadWord(bytes, at), k) == bytes[at + k]
  {
    hide Word, ByteOfWord;
    WordBytes(bytes[at..at + 8], k);
  }

  lemma CombineStep(op: Operation, a: bv64, b: bv64)
    ensures Low(CombineWord(op, a, b)) == Combine(op, Low(a), Low(b))
    ensures Drop(CombineWord(op, a, b)) == CombineWord(op, Drop(a), Drop(b))
  {
    hide Low, Drop, CombineWord, Combine;
    if op.AndOp? {
      AndStep(a, b);
    } else if op.OrOp? {
      OrStep(a, b);
    } else if op.XorOp? {
      XorStep(a, b);
    } else {
      NotStep(a, b);
    }
  }

  lemma AndStep(a: bv64, b: bv64)
    ensures Low(CombineWord(AndOp, a, b)) == Combine(AndOp, Low(a), Low(b))
    ensures Drop(CombineWord(AndOp, a, b)) == CombineWord(AndOp, Drop(a), Drop(b))
  {
  }

  lemma NotStep(a: bv64, b: bv64)
    ensures Low(CombineWord(NotOp, a, b)) == Combine(NotOp, Low(a), Low(b))
    ensures Drop(CombineWord(NotOp, a, b)) == CombineWord(NotOp, Drop(a), Drop(b))
  {
  }

  lemma OrStep(a: bv64, b: bv64)
    ensures Low(CombineWord(OrOp, a, b)) == Combine(OrOp, Low(a), Low(b))
    ensures Drop(CombineWord(OrOp, a, b)) == CombineWord(OrOp, Drop(a), Drop(b))
  {
  }

  lemma XorStep(a: bv64, b: bv64)
    ensures Low(CombineWord(XorOp, a, b)) == Combine(XorOp, Low(a), Low(b))
    ensures Drop(CombineWord(XorOp, a, b)) == CombineWord(XorOp, Drop(a), Drop(b))
  {
  }

  /** An operation on words is the operation on each of their bytes. */
  lemma {:induction false} CombineBytes(op: Operation, a: bv64, b: bv64, k: nat)
    ensures ByteOfWord(CombineWord(op, a, b), k) == Combine(op, ByteOfWord(a, k), ByteOfWord(b, k))
    decreases k
  {
    hide CombineWord, Combine, Low, Drop;
    CombineStep(op, a, b);
    if k > 0 {
      CombineBytes(op, Drop(a), Drop(b), k - 1);
    }
  }

  lemma AllOnes(b: bv8)
    ensures b ^ 0xff == Not(b)
  {
  }

  lemma {:induction false} OnesBytes(k: nat)
    requires k < 8
    ensures ByteOfWord(0xffff_ffff_ffff_ffff, k) == 0xff
  {
    WordBytes(seq(8, _ => 0xff), k);
    assert Word(0xff, 0xff, 0xff, 0xff, 0xff, 0xff, 0xff, 0xff) == 0xffff_ffff_ffff_ffff;
  }

  lemma NotBytes(a: bv64, k: nat)
    requires k < 8
    ensures ByteOfWord(NotWord(a), k) == Not(ByteOfWord(a, k))
  {
    CombineBytes(XorOp, a, 0xffff_ffff_ffff_ffff, k);
    OnesBytes(k);
    AllOnes(ByteOfWord(a, k));
    hide ByteOfWord, Not;
  }

  method StoreWord(res: array<bv8>, at: nat, w: bv64)
    requires at + 8 <= res.Length
    modifies res
    ensures forall k :: 0 <= k < res.Length ==>
      res[k] == if at <= k < at + 8 then ByteOfWord(w, k - at) else old(res[k])
  {
    hide ByteOfWord;
    for i := 0 to 8
      invariant forall k :: 0 <= k < res.Length ==>
        res[k] == if at <= k < at + i then ByteOfWord(w, k - at) else old(res[k])
    {
      res[at + i] := ByteOfWord(w, i);
    }
  }

  /** One word of one source combined into the result. */
  method CombineOne(op: Operation, res: array<bv8>, src: seq<bv8>, at: nat)
    requires at + 8 <= res.Length && at + 8 <= |src|
    modifies res
    ensures forall k :: 0 <= k < res.Length ==>
      res[k] == if at <= k < at + 8 then Combine(op, old(res[k]), src[k]) else old(res[k])
  {
    hide ByteOfWord, CombineWord, Combine, LoadWord;
    var a, b := LoadWord(res[..], at), LoadWord(src, at);
    forall k | at <= k < at + 8
      ensures ByteOfWord(CombineWord(op, a, b), k - at) == Combine(op, res[k], src[k])
    {
      LoadedByte(res[..], at, k - at);
      LoadedByte(src, at, k - at);
      CombineBytes(op, a, b, k - at);
    }
    StoreWord(res, at, CombineWord(op, a, b));
  }

  method ComplementOne(res: array<bv8>, at: nat)
    requires at + 8 <= res.Length
    modifies res
    ensures forall k :: 0 <= k < res.Length ==>
      res[k] == if at <= k < at + 8 then Not(old(res[k])) else old(res[k])
  {
    hide ByteOfWord, NotWord, Not, LoadWord;
    var a := LoadWord(res[..], at);
    forall k | at <= k < at + 8
      ensures ByteOfWord(NotWord(a), k - at) == Not(res[k])
    {
      LoadedByte(res[..], at, k - at);
      NotBytes(a, k - at);
    }
    StoreWord(res, at, NotWord(a));
  }

  /** Four words of one source combined into the result. */
  method CombineBlock(op: Operation, res: array<bv8>, src: seq<bv8>, j: nat)
    requires j + 32 <= res.Length && j + 32 <= |src|
    modifies res
    ensures forall k :: 0 <= k < res.Length ==>
      res[k] == if j <= k < j + 32 then Combine(op, old(res[k]), src[k]) else old(res[k])
  {
    hide Combine;
    CombineOne(op, res, src, j);
    CombineOne(op, res, src, j + 8);
    CombineOne(op, res, src, j + 16);
    CombineOne(op, res, src, j + 24);
  }

  method ComplementBlock(res: array<bv8>, j: nat)
    requires j + 32 <= res.Length
    modifies res
    ensures forall k :: 0 <= k < res.Length ==>
      res[k] == if j <= k < j + 32 then Not(old(res[k])) else old(res[k])
  {
    hide Not;
    ComplementOne(res, j);
    ComplementOne(res, j + 8);
    ComplementOne(res, j + 16);
    ComplementOne(res, j + 24);
  }

  /** One block of the result, from a copy of the first source. */
  method FoldBlock(op: Operation, sources: seq<Source>, res: array<bv8>, j: nat)
    requires |sources| >= 1 && (op.NotOp? ==> |sources| == 1)
    requires j + 32 <= res.Length
    requires forall i :: 0 <= i < |sources| ==> sources[i].Text? && j + 32 <= |sources[i].bytes|
    requires forall k :: j <= k < j + 32 ==> res[k] == sources[0].bytes[k]
    modifies res
    ensures Done(op, sources, |sources|, res[..], j, j + 32)
    ensures forall k :: 0 <= k < res.Length && !(j <= k < j + 32) ==> res[k] == old(res[k])
  {
    hide Combine, Not;
    if op.NotOp? {
      ComplementBlock(res, j);
    } else {
      for i := 1 to |sources|
        invariant forall k :: j <= k < j + 32 ==> res[k] == Folded(op, sources, i, k)
        invariant forall k :: 0 <= k < res.Length && !(j <= k < j + 32) ==> res[k] == old(res[k])
      {
        CombineBlock(op, res, sources[i].bytes, j);
      }
    }
  }

  /** The fast path, up to the first byte it leaves to the other. */
  method FastPath(op: Operation, sources: seq<Source>, res: array<bv8>, minlen: nat) returns (j: nat)
    requires |sources| >= 1 && (op.NotOp? ==> |sources| == 1)
    requires minlen <= res.Length
    requires forall i :: 0 <= i < |sources| ==> sources[i].Text? && minlen <= |sources[i].bytes|
    modifies res
    ensures j <= minlen && Done(op, sources, |sources|, res[..], 0, j)
  {
    hide Folded;
    forall k | 0 <= k < minlen {
      res[k] := sources[0].bytes[k];
    }
    j := 0;
    while minlen - j >= 32
      invariant j <= minlen
      invariant Done(op, sources, |sources|, res[..], 0, j)
      invariant forall k :: j <= k < minlen ==> res[k] == sources[0].bytes[k]
    {
      FoldBlock(op, sources, res, j);
      j := j + 32;
    }
  }

  // ----- byte by byte -----

  method FoldByte(op: Operation, sources: seq<Source>, j: nat) returns (output: bv8)
    requires |sources| >= 1 && (op.NotOp? ==> |sources| == 1)
    ensures output == Folded(op, sources, |sources|, j)
  {
    hide Combine, Final, Not, ByteOf;
    output := ByteOf(sources[0], j);
    if op.NotOp? {
      output := Not(output);
    }
    var i := 1;
    while i < |sources|
      invariant 1 <= i <= |sources| && output == Folded(op, sources, i, j)
    {
      output := Combine(op, output, ByteOf(sources[i], j));
      i := i + 1;
      if Final(op, output) {
        FoldedStays(op, sources, i, |sources|, j);
        break;
      }
    }
  }

  /**
   The command. Every byte of the result is the operation folded over the zero-padded sources,
   and the result is as long as the longest of them; with nothing to store the target goes.
   */
  method BitOp(op: Operation, sources: seq<Source>) returns (r: Outcome)
    requires |sources| >= 1
    ensures r.Error? <==> (op.NotOp? && |sources| != 1) || exists i :: 0 <= i < |sources| && sources[i].OtherType?
    ensures r.Deleted? ==> forall i :: 0 <= i < |sources| ==> Length(sources[i]) == 0
    ensures r.Stored? ==> |r.bytes| > 0 && IsMax(sources, |sources|, |r.bytes|)
    ensures r.Stored? ==> Done(op, sources, |sources|, r.bytes, 0, |r.bytes|)
  {
    hide Folded;
    if op.NotOp? && |sources| != 1 {
      return Error;
    }
    var ok, maxlen, minlen := Lengths(sources);
    if !ok {
      return Error;
    }
    if maxlen == 0 {
      return Deleted;
    }
    var res := new bv8[maxlen](_ => 0);
    var j := 0;
    if minlen >= 32 && |sources| <= 16 {
      j := FastPath(op, sources, res, minlen);
    }
    while j < maxlen
      invariant j <= maxlen && Done(op, sources, |sources|, res[..], 0, j)
    {
      res[j] := FoldByte(op, sources, j);
      j := j + 1;
    }
    r := Stored(res[..]);
  }
}
