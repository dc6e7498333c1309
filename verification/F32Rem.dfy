/** The significand reduction of the single-precision remainder: exact in spite of its approximate reciprocal. */
module F32Rem {
  import opened Arith
  import opened Powers

  const SIGN_BIT := 0x8000_0000

  /** A 24-bit significand with its leading bit set. */
  predicate Normalized(sig: int) {
    0x80_0000 <= sig < 0x100_0000
  }

  // ----- 32-bit arithmetic -----

  /** Subtracting modulo 2^32 gives the exact difference whenever that is in range. */
  lemma WrapExact(x: int, y: int)
    requires 0 <= x - y < WORD32
    ensures (x % WORD32 - y % WORD32) % WORD32 == x - y
  {
    DivModFacts(x, WORD32);
    DivModFacts(y, WORD32);
    DivUnique(x % WORD32 - y % WORD32, WORD32, y / WORD32 - x / WORD32);
  }

  /** Negating a product modulo 2^32 gives the exact difference to any multiple of 2^32 whenever that is in range. */
  lemma NegateExact(m: int, y: int)
    requires 0 <= m * WORD32 - y < WORD32
    ensures (-(y % WORD32)) % WORD32 == m * WORD32 - y
  {
    DivModFacts(y, WORD32);
    DivUnique(-(y % WORD32), WORD32, y / WORD32 - m);
  }

  /** `a` is a multiple of `m`. */
  predicate Multiple(a: int, m: int)
    requires m > 0
  {
    a % m == 0
  }

  lemma ProductMultiple(a: int, b: int, m: int)
    requires m > 0 && Multiple(a, m)
    ensures Multiple(a * b, m) && Multiple(b * a, m)
  {
    DivModFacts(a, m);
    assert a * b == (a / m) * b * m;
    DivUnique(a * b, m, (a / m) * b);
  }

  lemma DifferenceMultiple(a: int, b: int, m: int)
    requires m > 0 && Multiple(a, m) && Multiple(b, m)
    ensures Multiple(a - b, m)
  {
    DivModFacts(a, m);
    DivModFacts(b, m);
    assert a - b == (a / m - b / m) * m;
    DivUnique(a - b, m, a / m - b / m);
  }

  // ----- The approximate quotient -----

  /** The truncated reciprocal of the divisor, scaled to 2^61. */
  lemma ReciprocalBounds(b: nat)
    requires 0x2000_0000 <= b < 0x4000_0000
    ensures var recip := 0x7FFF_FFFF_FFFF_FFFF / (4 * b);
            recip < WORD32 && recip * b < 0x2000_0000_0000_0000 <= recip * b + b
  {
    var recip := 0x7FFF_FFFF_FFFF_FFFF / (4 * b);
    DivModFacts(0x7FFF_FFFF_FFFF_FFFF, 4 * b);
    assert recip * (4 * b) == 4 * (recip * b);
    if recip >= WORD32 {
      MulMonotone(WORD32, recip, b);
    }
  }

  /** The quotient digit is never too large, and too small by less than one and a half divisors. */
  lemma QuotientBounds(rem: nat, b: nat, recip: nat)
    requires 0 < b && rem < SIGN_BIT
    requires recip * b < 0x2000_0000_0000_0000 <= recip * b + b
    ensures var q := (rem * recip) / WORD32;
            && q * b <= rem * 0x2000_0000
            && 2 * (rem * 0x2000_0000 - q * b) < 3 * b
  {
    var q, prod := (rem * recip) / WORD32, rem * recip;
    DivModFacts(prod, WORD32);
    MulMonotone(q * WORD32, prod, b);
    MulStep(prod, q * WORD32 + WORD32, b);
    assert (q * WORD32) * b == (q * b) * WORD32;
    assert (q * WORD32 + WORD32) * b == (q * b) * WORD32 + b * WORD32;
    assert prod * b == rem * (recip * b);
    MulMonotone(recip * b, 0x2000_0000_0000_0000, rem);
    MulMonotone(0x2000_0000_0000_0000, recip * b + b, rem);
    assert rem * (recip * b + b) == rem * (recip * b) + rem * b;
    MulMonotone(rem, SIGN_BIT, b);
  }

  /** Dropping the low `s` bits of the digit leaves the digit for the correspondingly smaller dividend. */
  lemma ShiftedDigit(rem: nat, b: nat, q: nat, k: nat, s: nat)
    requires k + s == 29 && 0 < b
    requires q * b <= rem * 0x2000_0000 && 2 * (rem * 0x2000_0000 - q * b) < 3 * b
    ensures var d := q / Pow2(s);
            && d * b <= rem * Pow2(k)
            && 2 * (rem * Pow2(k) - d * b) < 3 * b
  {
    hide Pow2;
    var p, d := Pow2(s), q / Pow2(s);
    Pow2Sum(k, s);
    Pow2Values();
    var x := rem * Pow2(k);
    assert rem * 0x2000_0000 == x * p;
    DivModFacts(q, p);
    MulMonotone(d * p, q, b);
    MulMonotone(q, d * p + p - 1, b);
    MovedFactor(d, p, b);
    ScaledDown(x, d * b, p);
    ScaledError(x, d * b, b, p);
  }

  lemma MovedFactor(d: int, p: int, b: int)
    ensures (d * p) * b == (d * b) * p
    ensures (d * p + p - 1) * b == (d * b) * p + b * p - b
  {
    assert (d * p + p - 1) * b == (d * p) * b + p * b - b;
  }

  lemma ScaledError(x: int, y: int, b: nat, p: nat)
    requires p > 0 && b > 0 && 2 * (x * p - y * p) < 2 * (b * p) - 2 * b + 3 * b
    ensures 2 * (x - y) < 3 * b
  {
    MulMonotone(1, p, b);
    Redistribute(x, y, b, p);
    LessFactor(2 * (x - y), 3 * b, p);
  }

  lemma Redistribute(x: int, y: int, b: int, p: int)
    ensures (2 * (x - y)) * p == 2 * (x * p - y * p) && (3 * b) * p == 3 * (b * p)
  {
  }

  lemma ScaledDown(x: int, y: int, p: int)
    requires p > 0 && y * p <= x * p
    ensures y <= x
  {
    if y > x {
      MulStep(x, y, p);
    }
  }

  // ----- The reduction -----

  /** `n` is the integer nearest to `x / b`, the even one if two are equally near. */
  predicate Nearest(x: int, b: int, n: int) {
    2 * (x - n * b) <= b && 2 * (n * b - x) <= b && (2 * (x - n * b) == b || 2 * (n * b - x) == b ==> n % 2 == 0)
  }

  /** At most one integer is nearest. */
  lemma NearestUnique(x: int, b: int, m: int, n: int)
    requires b > 0 && Nearest(x, b, m) && Nearest(x, b, n)
    ensures m == n
  {
    hide Nearest;
    NotBoth(x, b, m, n);
    NotBoth(x, b, n, m);
  }

  lemma NotBoth(x: int, b: int, m: int, n: int)
    requires b > 0
    ensures m < n ==> !(Nearest(x, b, m) && Nearest(x, b, n))
  {
    if m < n {
      MulStep(m, n, b);
      if n - m >= 2 {
        MulStep(m, n - 1, b);
        MulStep(n - 1, n, b);
      }
      NotBothHalfway(x, b, m, n, m * b, n * b);
    }
  }

  lemma NotBothHalfway(x: int, b: int, m: int, n: int, mb: int, nb: int)
    requires b > 0 && mb + b <= nb && (n - m >= 2 ==> mb + 2 * b <= nb) && m < n
    ensures !(2 * (x - mb) <= b && (2 * (x - mb) == b ==> m % 2 == 0) && 2 * (nb - x) <= b
              && (2 * (nb - x) == b ==> n % 2 == 0))
  {
  }

  /** The dividend on the scale of the shifted divisor. */
  function Dividend(sigA: nat, expDiff: int): nat
    requires expDiff >= -1
  {
    sigA * Pow2(expDiff + 6)
  }

  /** The divisor as shifted for the long division, and its reciprocal. */
  predicate DivisorOk(b: nat, recip: nat) {
    0x2000_0000 <= b < 0x4000_0000 && Multiple(b, 64) && recip * b < 0x2000_0000_0000_0000 <= recip * b + b
  }

  /** A partial remainder: below 2^31 and a multiple of 64. */
  predicate PartialOk(rem: nat) {
    rem < SIGN_BIT && Multiple(rem, 64)
  }

  /** Appending digits of weight `w` to a quotient. */
  lemma AppendDigit(x: int, quot: int, b: int, rem: int, w: int, q: int)
    requires x == quot * b + rem
    ensures x * w == (quot * w + q) * b + (rem * w - q * b)
  {
    assert (quot * b + rem) * w == (quot * w) * b + rem * w;
    assert (quot * w + q) * b == (quot * w) * b + q * b;
  }

  /** `x` is `quot` divisors and a remainder. */
  ghost predicate Splits(x: int, quot: int, sigB: int, rem: int) {
    x == quot * sigB + rem
  }

  lemma NoDivisors(x: int, b: int)
    ensures Splits(x, 0, b, x)
  {
  }

  ghost predicate Alike(m: int, n: int) {
    m % 2 == n % 2
  }

  lemma BothNext(m: int, n: int)
    requires Alike(m, n)
    ensures Alike(m + 1, n + 1)
  {
  }

  lemma DivisorIsOk(sigB: nat)
    requires Normalized(sigB)
    ensures DivisorOk(sigB * 64, 0x7FFF_FFFF_FFFF_FFFF / (sigB * 256)) && 0x7FFF_FFFF_FFFF_FFFF / (sigB * 256) >= 0
  {
    ReciprocalBounds(sigB * 64);
    DivUnique(sigB * 64, 64, sigB);
  }

  /**
   One iteration of the long division: 29 more quotient bits, and the exact partial remainder in spite of the wrap.
   */
  method DivisionStep(rem: nat, b: nat, recip: nat, ghost quot: nat, ghost x: nat) returns (rem': nat, ghost quot': nat)
    requires DivisorOk(b, recip) && PartialOk(rem) && Splits(x, quot, b, rem)
    ensures PartialOk(rem') && Splits(x * 0x2000_0000, quot', b, rem')
  {
    var q := (rem * recip) / WORD32;
    QuotientBounds(rem, b, recip);
    ProductMultiple(rem, 0x2000_0000, 64);
    ProductMultiple(b, q, 64);
    DifferenceMultiple(rem * 0x2000_0000, q * b, 64);
    WholeWords(rem);
    NegateExact((rem / 64) * 8, q * b);
    rem' := (-((q * b) % WORD32)) % WORD32;
    quot' := quot * 0x2000_0000 + q;
    AppendDigit(x, quot, b, rem, 0x2000_0000, q);
  }

  lemma WholeWords(rem: nat)
    requires Multiple(rem, 64)
    ensures rem * 0x2000_0000 == (rem / 64) * 8 * WORD32
  {
    DivModFacts(rem, 64);
  }

  /** The last digit, of `k` bits. */
  method LastDigit(rem: nat, b: nat, recip: nat, k: nat, ghost quot: nat, ghost x: nat)
    returns (q: nat, rem': nat, ghost quot': nat)
    requires k <= 29 && DivisorOk(b, recip) && PartialOk(rem) && Splits(x, quot, b, rem) && (k == 0 ==> quot == 0)
    ensures PartialOk(rem') && Splits(x * Pow2(k), quot', b, rem') && Alike(q, quot')
  {
    hide Pow2, Multiple;
    q := (rem * recip) / WORD32;
    QuotientBounds(rem, b, recip);
    ShiftedDigit(rem, b, q, k, 29 - k);
    q := q / Pow2(29 - k);
    ProductMultiple(rem, Pow2(k), 64);
    ProductMultiple(b, q, 64);
    DifferenceMultiple(rem * Pow2(k), q * b, 64);
    WrapExact(rem * Pow2(k), q * b);
    rem' := ((rem * Pow2(k)) % WORD32 - (q * b) % WORD32) % WORD32;
    AppendDigit(x, quot, b, rem, Pow2(k), q);
    SameParity(quot, q, k);
    quot' := quot * Pow2(k) + q;
  }

  lemma SameParity(quot: nat, q: nat, k: nat)
    requires k == 0 ==> quot == 0
    ensures quot * Pow2(k) >= 0 && (quot * Pow2(k) + q) % 2 == q % 2
  {
    if k > 0 {
      var h := quot * Pow2(k - 1);
      assert quot * Pow2(k) == 2 * h;
    }
  }

  /**
   The reduction proper, for an exponent difference of at least 1: a remainder below 2^31, the exact value of the
   dividend less a multiple of the divisor, and a quotient of the right parity.
   */
  method LongDivision(sigA: nat, sigB: nat, expDiff0: int) returns (q: nat, rem: nat, ghost quot: nat)
    requires Normalized(sigA) && Normalized(sigB) && expDiff0 >= 1
    ensures PartialOk(rem) && Alike(q, quot) && Splits(Dividend(sigA, expDiff0), quot, sigB * 64, rem)
  {
    hide Pow2, Splits, Alike, Multiple, Scaled, DivisorOk;
    var recip32 := 0x7FFF_FFFF_FFFF_FFFF / (sigB * 256);
    var b := sigB * 64;
    DivisorIsOk(sigB);
    rem := sigA * 128;
    var expDiff := expDiff0 - 31;
    ghost var x: nat, bits: nat := rem, 7;
    quot := 0;
    NoDivisors(x, b);
    FirstBits(sigA);
    while expDiff >= 0
      invariant -30 <= expDiff && bits == expDiff0 - 31 - expDiff + 7 && (expDiff == -30 ==> quot == 0)
      invariant PartialOk(rem) && Splits(x, quot, b, rem) && Scaled(x, sigA, bits)
    {
      rem, quot := DivisionStep(rem, b, recip32, quot, x);
      NextDividend(x, sigA, bits, 29);
      WholeDigit(x);
      x, bits := x * 0x2000_0000, bits + 29;
      expDiff := expDiff - 29;
    }
    NextDividend(x, sigA, bits, expDiff + 30);
    DividendIs(x * Pow2(expDiff + 30), sigA, expDiff0);
    q, rem, quot := LastDigit(rem, b, recip32, expDiff + 30, quot, x);
  }

  lemma DividendIs(x: nat, sigA: nat, expDiff: nat)
    requires Scaled(x, sigA, expDiff + 6)
    ensures x == Dividend(sigA, expDiff)
  {
  }

  /** `x` is the dividend's significand, shifted up by `bits`. */
  ghost predicate Scaled(x: nat, sigA: nat, bits: nat) {
    x == sigA * Pow2(bits)
  }

  /** The first seven bits of the dividend. */
  lemma FirstBits(sigA: nat)
    ensures Scaled(sigA * 128, sigA, 7) && Multiple(sigA * 128, 64)
  {
    hide Pow2;
    Pow2Values();
    DivUnique(sigA * 128, 64, 2 * sigA);
  }

  lemma NextDividend(x: nat, sigA: nat, bits: nat, more: nat)
    requires Scaled(x, sigA, bits)
    ensures x * Pow2(more) >= 0 && Scaled(x * Pow2(more), sigA, bits + more)
  {
    hide Pow2;
    Pow2Sum(bits, more);
    Regrouped(sigA, Pow2(bits), Pow2(more));
  }

  lemma WholeDigit(x: nat)
    ensures x * Pow2(29) == x * 0x2000_0000
  {
    hide Pow2;
    Pow2Values();
  }

  /** The unit all remainders are multiples of: the last place of the smaller operand. */
  function Unit(expDiff: int): (u: nat)
    ensures u > 0
  {
    if expDiff == -1 then 32 else 64
  }

  /** Before the final loop: the dividend less a multiple of the divisor. */
  ghost predicate Reduced(sigA: nat, sigB: nat, expDiff: int, q: nat, rem: nat, quot: nat)
    requires expDiff >= -1
  {
    && rem < SIGN_BIT && q % 2 == quot % 2 && Dividend(sigA, expDiff) == quot * (sigB * 64) + rem
    && Multiple(rem, Unit(expDiff)) && Multiple(sigB * 64, Unit(expDiff))
  }

  /** The three cases of the exponent difference. */
  method Reduce(sigA: nat, sigB: nat, expDiff: int) returns (q: nat, rem: nat, ghost quot: nat)
    requires Normalized(sigA) && Normalized(sigB) && expDiff >= -1
    ensures rem < SIGN_BIT && Multiple(rem, Unit(expDiff))
    ensures Reduced(sigA, sigB, expDiff, q, rem, quot)
  {
    hide Pow2;
    Pow2Values();
    Multiples(sigB);
    if expDiff < 1 {
      quot := 0;
      if expDiff != 0 {
        rem := sigA * 32;
        q := 0;
        Multiples(sigA);
      } else {
        rem := sigA * 64;
        q := if sigB * 64 <= rem then 1 else 0;
        Multiples(sigA);
        if q != 0 {
          rem := rem - sigB * 64;
          quot := 1;
          Multiples(sigA - sigB);
        }
      }
    } else {
      q, rem, quot := LongDivision(sigA, sigB, expDiff);
    }
  }

  lemma Multiples(sig: int)
    ensures Multiple(sig * 32, 32) && Multiple(sig * 64, 32) && Multiple(sig * 64, 64)
  {
    DivUnique(sig * 32, 32, sig);
    DivUnique(sig * 64, 32, 2 * sig);
    DivUnique(sig * 64, 64, sig);
  }

  function Signed(negative: bool, magnitude: nat): int {
    if negative then -(magnitude as int) else magnitude
  }

  /**
   The value handed to the packing routine, as a sign flag and a magnitude: it stands for the dividend less `n` times
   the divisor, `n` the integer nearest to their quotient, ties to even.
   */
  method Remainder(sigA: nat, sigB: nat, expDiff: int) returns (negative: bool, rem: nat, ghost n: int)
    requires Normalized(sigA) && Normalized(sigB) && expDiff >= -1
    ensures Nearest(Dividend(sigA, expDiff), sigB * 64, n)
    ensures Signed(negative, rem) == Dividend(sigA, expDiff) - n * (sigB * 64)
    ensures rem <= sigB * 32 && Multiple(rem, Unit(expDiff)) && (negative ==> rem > 0)
  {
    hide Dividend, Unit, Multiple;
    var q: nat;
    ghost var quot: nat;
    q, rem, quot := Reduce(sigA, sigB, expDiff);
    negative, rem, n := RoundQuotient(q, rem, sigB * 64, quot, Dividend(sigA, expDiff), Unit(expDiff));
  }

  lemma OneMoreDivisor(x: int, quot: int, sigB: int, rem: int)
    requires Splits(x, quot, sigB, rem)
    ensures Splits(x, quot + 1, sigB, rem - sigB)
  {
  }

  /** Subtracts the divisor until the remainder turns negative; `altRem` is the last one before that. */
  method Overshoot(q0: nat, rem0: nat, sigB: nat, ghost quot0: nat, ghost x: nat, ghost unit: nat)
    returns (q: nat, rem: nat, altRem: nat, ghost quot: nat)
    requires rem0 < SIGN_BIT && 0x2000_0000 <= sigB < 0x4000_0000 && Alike(q0, quot0) && x == quot0 * sigB + rem0
    requires unit > 0 && Multiple(rem0, unit) && Multiple(sigB, unit)
    ensures altRem < sigB && rem == altRem - sigB + WORD32 && Splits(x, quot, sigB, altRem) && Alike(q, quot + 1)
    ensures Multiple(altRem, unit)
  {
    hide Multiple, Alike;
    q, rem, altRem, quot := q0, rem0, rem0, quot0;
    assert Splits(x, quot, sigB, rem);
    hide Splits;
    while true
      invariant rem < SIGN_BIT && Splits(x, quot, sigB, rem) && Alike(q, quot) && Multiple(rem, unit)
      decreases rem
    {
      altRem := rem;
      BothNext(q, quot);
      q := q + 1;
      DifferenceMultiple(rem, sigB, unit);
      WrapSubtract(rem, sigB);
      rem := (rem - sigB) % WORD32;
      if rem >= SIGN_BIT {
        break;
      }
      OneMoreDivisor(x, quot, sigB, altRem);
      quot := quot + 1;
    }
  }

  /** The final loop, and the choice of the nearer of the last two remainders. */
  method RoundQuotient(q0: nat, rem0: nat, sigB: nat, ghost quot0: nat, ghost x: nat, ghost unit: nat)
    returns (negative: bool, rem: nat, ghost n: int)
    requires rem0 < SIGN_BIT && 0x2000_0000 <= sigB < 0x4000_0000 && q0 % 2 == quot0 % 2 && x == quot0 * sigB + rem0
    requires unit > 0 && Multiple(rem0, unit) && Multiple(sigB, unit)
    ensures Nearest(x, sigB, n) && Signed(negative, rem) == x - n * sigB
    ensures 2 * rem <= sigB && Multiple(rem, unit) && (negative ==> rem > 0)
  {
    hide Multiple, Nearest;
    var q, altRem;
    ghost var quot;
    q, rem, altRem, quot := Overshoot(q0, rem0, sigB, quot0, x, unit);
    var meanRem := (rem + altRem) % WORD32;
    WrapMean(altRem, sigB);
    Chosen(x, sigB, quot, altRem);
    DifferenceMultiple(sigB, altRem, unit);
    n := quot + 1;
    if meanRem >= SIGN_BIT || (meanRem == 0 && q % 2 == 1) {
      rem := altRem;
      n := quot;
    }
    negative := false;
    if SIGN_BIT <= rem {
      negative := true;
      rem := (WORD32 - rem) % WORD32;
    }
  }

  /** Which of the two candidates is nearest. */
  lemma Chosen(x: int, sigB: nat, quot: nat, altRem: nat)
    requires x == quot * sigB + altRem && altRem < sigB
    ensures (quot + 1) * sigB == quot * sigB + sigB
    ensures 2 * altRem < sigB || (2 * altRem == sigB && quot % 2 == 0) ==> Nearest(x, sigB, quot)
    ensures 2 * altRem > sigB || (2 * altRem == sigB && quot % 2 == 1) ==> Nearest(x, sigB, quot + 1)
  {
    assert (quot + 1) * sigB == quot * sigB + sigB;
  }

  lemma WrapSubtract(rem: nat, sigB: nat)
    requires rem < SIGN_BIT && 0 < sigB < 0x4000_0000
    ensures (rem - sigB) % WORD32 == if rem < sigB then rem - sigB + WORD32 else rem - sigB
  {
    DivUnique(rem - sigB, WORD32, if rem < sigB then -1 else 0);
  }

  lemma WrapMean(altRem: nat, sigB: nat)
    requires altRem < sigB < 0x4000_0000
    ensures (altRem - sigB + WORD32 + altRem) % WORD32 == if 2 * altRem < sigB then 2 * altRem - sigB + WORD32
                                                          else 2 * altRem - sigB
    ensures (sigB - altRem) % WORD32 == sigB - altRem
  {
    DivUnique(altRem - sigB + WORD32 + altRem, WORD32, if 2 * altRem < sigB then 0 else 1);
    DivUnique(sigB - altRem, WORD32, 0);
  }
}
