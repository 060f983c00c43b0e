/** Powers of two. */
module Powers {

  function Pow2(k: nat): (p: nat)
    ensures p >= 1
  {
    if k == 0 then 1 else 2 * Pow2(k - 1)
  }

  lemma {:induction false} Pow2Add(i: nat, j: nat)
    ensures Pow2(i + j) == Pow2(i) * Pow2(j)
  {
    if i != 0 {
      Pow2Add(i - 1, j);
    }
  }

  lemma Pow2Doubling(k: nat, p: nat)
    requires Pow2(k) == p
    ensures Pow2(2 * k) == p * p
  {
    Pow2Add(k, k);
  }

  lemma Pow2Of64()
    ensures Pow2(64) == 0x1_0000_0000_0000_0000 && Pow2(0) == 1
  {
    assert Pow2(2) == 4 && Pow2(0) == 1;
    hide Pow2;
    Pow2Doubling(2, 4);
    Pow2Doubling(4, 0x10);
    Pow2Doubling(8, 0x100);
    Pow2Doubling(16, 0x1_0000);
    Pow2Doubling(32, 0x1_0000_0000);
  }
}
