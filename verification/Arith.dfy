/** Machine words, and nonlinear facts about quotients and remainders, proved once. */
module Arith {

  const WORD32 := 0x1_0000_0000
  const WORD64 := 0x1_0000_0000_0000_0000
  type Word32 = x: int | 0 <= x < WORD32
  type Word64 = x: int | 0 <= x < WORD64
  type byte = x: int | 0 <= x < 256

  lemma MulMonotone(a: int, b: int, c: int)
    requires a <= b && 0 <= c
    ensures a * c <= b * c
  {
    assert (b - a) * c >= 0;
  }

  lemma MulStep(a: int, b: int, c: int)
    requires a < b && 0 <= c
    ensures a * c + c <= b * c
  {
    MulMonotone(a + 1, b, c);
    assert (a + 1) * c == a * c + c;
  }

  lemma LessFactor(x: int, y: int, p: int)
    requires 0 < p && x * p < y * p
    ensures x < y
  {
    if y <= x {
      MulMonotone(y, x, p);
    }
  }

  /** The quotient and remainder of `a` by `b` are determined by where `a` lies among the multiples of `b`. */
  lemma DivUnique(a: int, b: int, q: int)
    requires 0 < b && q * b <= a < q * b + b
    ensures a / b == q && a % b == a - q * b
  {
    var d, r := a / b, a % b;
    assert a == d * b + r && 0 <= r < b;
    if d < q {
      MulStep(d, q, b);
    } else if q < d {
      MulStep(q, d, b);
    }
  }

  lemma DivModFacts(a: int, b: int)
    requires 0 < b
    ensures a == (a / b) * b + a % b && 0 <= a % b < b
  {
  }

  lemma Regrouped(a: int, p: int, q: int)
    ensures a * (p * q) == (a * p) * q
  {
  }

  /** A 32-bit word keeps a number that fits, and what is left of a sum of two such numbers is less by one 2^32. */
  lemma NoWrap(v: nat)
    ensures v < WORD32 ==> v % WORD32 == v
    ensures WORD32 <= v < 2 * WORD32 ==> v % WORD32 == v - WORD32
    ensures v % WORD32 <= v
  {
    DivModFacts(v, WORD32);
    if v < WORD32 {
      DivUnique(v, WORD32, 0);
    } else if v < 2 * WORD32 {
      DivUnique(v, WORD32, 1);
    }
  }
}
