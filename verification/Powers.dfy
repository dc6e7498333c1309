/** Powers of two. */
module Powers {

  function Pow2(n: nat): (p: nat)
    ensures p > 0
  {
    if n == 0 then 1 else 2 * Pow2(n - 1)
  }

  lemma {:induction false} Pow2Sum(m: nat, n: nat)
    ensures Pow2(m + n) == Pow2(m) * Pow2(n)
  {
    if m > 0 {
      assert Pow2(m) == 2 * Pow2(m - 1) && Pow2(m + n) == 2 * Pow2(m - 1 + n);
      Pow2Sum(m - 1, n);
      hide Pow2;
      Twice(Pow2(m - 1), Pow2(n));
    }
  }

  lemma Twice(p: int, q: int)
    ensures 2 * (p * q) == (2 * p) * q
  {
  }

  lemma {:induction false} Pow2Monotone(m: nat, n: nat)
    requires m <= n
    ensures Pow2(m) <= Pow2(n)
    decreases n
  {
    if m < n {
      Pow2Monotone(m, n - 1);
    }
  }

  lemma Pow2Values()
    ensures Pow2(5) == 32 && Pow2(6) == 64 && Pow2(7) == 128 && Pow2(29) == 0x2000_0000
    ensures Pow2(52) == 0x10_0000_0000_0000
  {
    assert Pow2(1) == 2;
    hide Pow2;
    Pow2Sum(1, 1);
    Pow2Sum(2, 2);
    Pow2Sum(4, 1);
    Pow2Sum(5, 1);
    Pow2Sum(5, 2);
    Pow2Sum(7, 5);
    Pow2Sum(12, 12);
    Pow2Sum(24, 5);
    Pow2Sum(24, 2);
    Pow2Sum(26, 26);
  }
}
