/** The single-precision remainder on packed words: decoding, normalizing, reducing, and packing the exact result. */
module F32RemOp {
  import opened Arith
  import opened Powers
  import opened FloatEnv
  import opened F32Rem
  import opened F32Bits
  import opened F32Round

  /** From the reduced significands back to the magnitudes. */
  lemma NearestTransfer(x: nat, y: nat, n: int, u: nat, a: nat, b: nat, c: nat)
    requires u > 0 && c > 0 && Nearest(x, y, n) && a * c == x * u && b * c == y * u
    ensures Nearest(a, b, n) && (a - n * b) * c == (x - n * y) * u
  {
    hide Nearest;
    var ny, nb := n * y, n * b;
    ScaledGap(x, y, n, u, a, b, c);
    Twice(x - ny, u);
    Twice(a - nb, c);
    ScaledOrder(2 * (x - ny), y, u, 2 * (a - nb), b, c);
    ScaledOrder(-2 * (x - ny), y, u, -2 * (a - nb), b, c);
    NearestBySigns(x, y, n, a, b, ny, nb);
  }

  lemma Twice(p: int, u: int)
    ensures (2 * p) * u == 2 * (p * u) && (-2 * p) * u == -2 * (p * u)
  {
  }

  lemma ScaledGap(x: int, y: int, n: int, u: int, a: int, b: int, c: int)
    requires a * c == x * u && b * c == y * u
    ensures (a - n * b) * c == (x - n * y) * u
  {
    Regrouped(n, b, c);
    Regrouped(n, y, u);
    LessProduct(a, n * b, c);
    LessProduct(x, n * y, u);
  }

  lemma LessProduct(p: int, q: int, u: int)
    ensures (p - q) * u == p * u - q * u
  {
  }

  lemma NearestBySigns(x: int, y: int, n: int, a: int, b: int, ny: int, nb: int)
    requires ny == n * y && nb == n * b && Nearest(x, y, n)
    requires (2 * (x - ny) <= y <==> 2 * (a - nb) <= b) && (2 * (x - ny) == y <==> 2 * (a - nb) == b)
    requires (-2 * (x - ny) <= y <==> -2 * (a - nb) <= b) && (-2 * (x - ny) == y <==> -2 * (a - nb) == b)
    ensures Nearest(a, b, n)
  {
  }

  /** The scaled significands are the magnitudes on one common scale. */
  lemma CommonScale(a: nat, b: nat, sigA: nat, sigB: nat, expA: int, expB: int)
    requires expA - expB >= -1 && expA >= -22 && expB >= -22 && Denotes(a, sigA, expA) && Denotes(b, sigB, expB)
    ensures a * Pow2(36) == Dividend(sigA, expA - expB) * Pow2(expB + 29)
            && b * Pow2(36) == (sigB * 64) * Pow2(expB + 29)
  {
    hide Pow2;
    SmallPowers();
    Pow2Sum(30, 6);
    Regrouped(a, Pow2(30), 64);
    Regrouped(b, Pow2(30), 64);
    Pow2Sum(expA - expB + 6, expB + 29);
    Regrouped(sigA, Pow2(expA - expB + 6), Pow2(expB + 29));
    Pow2Sum(expA + 29, 6);
    Regrouped(sigA, Pow2(expA + 29), 64);
    assert (sigB * 64) * Pow2(expB + 29) == (sigB * Pow2(expB + 29)) * 64;
  }

  /** A dividend at least two binades below the divisor is its own remainder. */
  lemma TooSmall(a: nat, b: nat, sigA: nat, sigB: nat, expA: int, expB: int)
    requires expA - expB < -1 && expA >= -22 && expB >= -22 && Normalized(sigA) && Normalized(sigB)
    requires Denotes(a, sigA, expA) && Denotes(b, sigB, expB)
    ensures Nearest(a, b, 0)
  {
    hide Pow2;
    SmallPowers();
    Pow2Sum(expA + 29, 2);
    Pow2Monotone(expA + 31, expB + 29);
    FarBelow(a, b, Pow2(30), sigA, sigB, Pow2(expA + 29), Pow2(expB + 29));
  }

  lemma FarBelow(a: nat, b: nat, p: nat, sigA: nat, sigB: nat, u: nat, v: nat)
    requires p > 0 && u > 0 && v >= u * 4 && Normalized(sigA) && Normalized(sigB) && a * p == sigA * u
             && b * p == sigB * v
    ensures 2 * a < b
  {
    MulStep(sigA, 0x100_0000, u);
    MulMonotone(HIDDEN, sigB, v);
    MulMonotone(u * 4, v, HIDDEN);
    Doubled(a, p);
    LessFactor(2 * a, b, p);
  }

  lemma Doubled(a: int, p: int)
    ensures (2 * a) * p == 2 * (a * p)
  {
  }

  /** `z` is the remainder of section 5.3.1 of IEEE 754-2019: exact, and a zero takes the sign of the dividend. */
  predicate IsRemainder(a: Word32, b: Word32, z: Word32, n: int) {
    && Finite(z) && Nearest(Magnitude(a), Magnitude(b), n)
    && Value(z) == (if Negative(a) then -(Magnitude(a) - n * Magnitude(b)) else Magnitude(a) - n * Magnitude(b))
    && (Magnitude(z) == 0 ==> Negative(z) == Negative(a))
  }

  /**
   The whole operation. NaNs, an infinite dividend and a zero divisor give the quiet NaN of sign 0 and fraction 2^22,
   with the invalid flag where it is due; otherwise the result is the exact remainder,
     the integer quotient being the one
   nearest to the true quotient, ties to even, and no flag is raised.
   */
  method Rem(env: FloatState, a: Word32, b: Word32) returns (z: Word32, ghost n: int)
    modifies env
    ensures NaN(a) || NaN(b) ==>
              && CanonicalNaN(z)
              && env.exceptionFlags == old(env.exceptionFlags)
                                       + (if Signaling(a) || Signaling(b) then {Flag.Invalid} else {})
    ensures !NaN(a) && !NaN(b) && (Infinite(a) || Magnitude(b) == 0) ==>
              CanonicalNaN(z) && env.exceptionFlags == old(env.exceptionFlags) + {Flag.Invalid}
    ensures Finite(a) && Infinite(b) ==> z == a && env.exceptionFlags == old(env.exceptionFlags)
    ensures Finite(a) && Finite(b) && Magnitude(b) != 0 ==>
              IsRemainder(a, b, z, n) && env.exceptionFlags == old(env.exceptionFlags)
  {
    hide Pow2, Nearest, Dividend, FieldsMagnitude, IsRemainder;
    n := 0;
    DefaultNaN();
    FieldRanges(a);
    FieldRanges(b);
    if Exp(a) == 0xFF {
      if Frac(a) != 0 || (Exp(b) == 0xFF && Frac(b) != 0) {
        PropagateNaN(env, a, b);
        return DEFAULT_NAN, 0;
      }
      env.RaiseFlags({Flag.Invalid});
      return DEFAULT_NAN, 0;
    }
    if Exp(b) == 0xFF {
      if Frac(b) != 0 {
        PropagateNaN(env, a, b);
        return DEFAULT_NAN, 0;
      }
      return a, 0;
    }
    if Exp(b) == 0 && Frac(b) == 0 {
      env.RaiseFlags({Flag.Invalid});
      return DEFAULT_NAN, 0;
    }
    if Exp(a) == 0 && Frac(a) == 0 {
      OwnRemainder(a, b);
      return a, 0;
    }
    var expB, sigB := Normalize(Exp(b), Frac(b));
    var expA, sigA := Normalize(Exp(a), Frac(a));
    var expDiff := expA - expB;
    if expDiff < -1 {
      TooSmall(Magnitude(a), Magnitude(b), sigA, sigB, expA, expB);
      OwnRemainder(a, b);
      return a, 0;
    }
    var negative, rem;
    negative, rem, n := Remainder(sigA, sigB, expDiff);
    ghost var r := RemainderIsExact(a, b, sigA, sigB, expA, expB, negative, rem, n);
    ghost var raised;
    z, raised := NormRoundPackToF32(env, Negative(a) != negative, expB, rem);
    PackedRemainder(env.roundingMode, env.tininessBeforeRounding, Negative(a) != negative, expB, rem, r, z, raised);
    FromParts(a, b, z, n, negative, rem, r);
  }

  method PropagateNaN(env: FloatState, a: Word32, b: Word32)
    modifies env
    ensures env.exceptionFlags == old(env.exceptionFlags)
                                  + (if Signaling(a) || Signaling(b) then {Flag.Invalid} else {})
  {
    SignalingIs(a);
    SignalingIs(b);
    if IsSigNaN(a) || IsSigNaN(b) {
      env.RaiseFlags({Flag.Invalid});
    }
  }

  lemma FieldRanges(ui: Word32)
    ensures Exp(ui) <= 0xFF && Frac(ui) < HIDDEN
    ensures Exp(ui) != 0 || Frac(ui) != 0 <==> Magnitude(ui) != 0
  {
    if Exp(ui) > 0 {
      MulStep(0, HIDDEN + Frac(ui), Pow2(Exp(ui) - 1));
    }
  }

  /** The dividend itself is the remainder when the nearest quotient is zero. */
  lemma OwnRemainder(a: Word32, b: Word32)
    requires Finite(a) && (Magnitude(a) == 0 || Nearest(Magnitude(a), Magnitude(b), 0))
    ensures IsRemainder(a, b, a, 0)
  {
    hide Magnitude;
  }

  /** `sig` at exponent `exp`, on the scale of the packing routine, is exactly the representable magnitude `r`. */
  predicate Exactly(exp: int, sig: nat, r: nat) {
    -22 <= exp <= 254 && sig < 0x2000_0000 && Multiple(sig, 32) && r * Pow2(36) == sig * Pow2(exp + 29)
  }

  /**
   The reduced remainder is a representable magnitude: the distance of the dividend from a multiple of the divisor.
   */
  lemma RemainderIsExact(a: Word32, b: Word32, sigA: nat, sigB: nat, expA: int, expB: int, negative: bool, rem: nat,
                         n: int) returns (r: nat)
    requires Normalized(sigA) && Normalized(sigB) && -22 <= expA <= 254 && -22 <= expB <= 254 && expA - expB >= -1
    requires Denotes(Magnitude(a), sigA, expA) && Denotes(Magnitude(b), sigB, expB)
    requires Nearest(Dividend(sigA, expA - expB), sigB * 64, n)
             && Signed(negative, rem) == Dividend(sigA, expA - expB) - n * (sigB * 64)
    requires rem <= sigB * 32 && Multiple(rem, Unit(expA - expB)) && (negative ==> rem > 0)
    ensures Exactly(expB, rem, r) && rem < SIGN_BIT && Nearest(Magnitude(a), Magnitude(b), n)
    ensures Signed(negative, r) == Magnitude(a) - n * Magnitude(b) && (negative ==> r > 0)
  {
    hide Pow2, Nearest, Dividend, Magnitude, Denotes;
    CommonScale(Magnitude(a), Magnitude(b), sigA, sigB, expA, expB);
    var u := Pow2(expB + 29);
    NearestTransfer(Dividend(sigA, expA - expB), sigB * 64, n, u, Magnitude(a), Magnitude(b), Pow2(36));
    var gap := Magnitude(a) - n * Magnitude(b);
    SignedScale(negative, rem, u, gap, Pow2(36));
    r := if negative then -gap else gap;
    HalfMultiple(rem, Unit(expA - expB));
  }

  lemma SignedScale(negative: bool, rem: nat, u: nat, gap: int, c: nat)
    requires u > 0 && c > 0 && gap * c == Signed(negative, rem) * u && (negative ==> rem > 0)
    ensures if negative then gap < 0 && -gap * c == rem * u else gap >= 0 && gap * c == rem * u
  {
    MulMonotone(0, rem, u);
    if negative {
      MulStep(0, rem, u);
      assert Signed(negative, rem) * u == -(rem * u);
      if gap >= 0 {
        MulMonotone(0, gap, c);
      }
      assert -gap * c == -(gap * c);
    } else if gap < 0 {
      MulStep(gap, 0, c);
    }
  }

  lemma HalfMultiple(rem: nat, unit: nat)
    requires (unit == 32 || unit == 64) && Multiple(rem, unit)
    ensures Multiple(rem, 32)
  {
    DivModFacts(rem, unit);
    DivUnique(rem, 32, (rem / unit) * (unit / 32));
  }

  /** On the scale of the packing routine the remainder is a place in the grid, so it is packed as it is. */
  lemma PackedRemainder(mode: RoundingMode, before: bool, sign: bool, exp: int, sig: nat, r: nat, z: Word32,
                        raised: set<Flag>)
    requires Exactly(exp, sig, r) && IsRounded(mode, before, sign, Num(exp, sig), Den(exp), z, raised)
    ensures Finite(z) && Negative(z) == sign && Magnitude(z) == r && raised == {}
  {
    hide Pow2, Grid, Against, Num, Den, IsRounded, Magnitude, Finite;
    ExactScale(exp, sig, r);
    var k := RemainderOnGrid(exp, sig, r);
    EqualParts(2 * r, Num(exp, sig), Den(exp));
    ExactResult(mode, before, sign, Num(exp, sig), Den(exp), z, raised, k);
  }

  lemma EqualParts(h: nat, num: nat, den: nat)
    requires h * den == 2 * num
    ensures Against(h, num, den) == Equal
  {
  }

  lemma ExactScale(exp: int, sig: nat, r: nat)
    requires -22 <= exp <= 254 && r * Pow2(36) == sig * Pow2(exp + 29)
    ensures (2 * r) * Den(exp) == 2 * Num(exp, sig)
  {
    hide Pow2;
    SmallPowers();
    if exp >= 0 {
      Pow2Sum(7, 29);
      Pow2Sum(exp, 29);
      Regrouped(r, 128, Pow2(29));
      Regrouped(sig, Pow2(exp), Pow2(29));
      Cancel(r * 128, sig * Pow2(exp), Pow2(29));
      assert (2 * r) * 128 == 2 * (r * 128);
    } else {
      var p, q := Pow2(-exp), Pow2(exp + 29);
      Pow2Sum(7 - exp, exp + 29);
      Pow2Sum(7, -exp);
      Regrouped(r, 128 * p, q);
      Cancel(r * (128 * p), sig, q);
      Doubled(r, 128 * p);
    }
  }

  lemma RemainderOnGrid(exp: int, sig: nat, r: nat) returns (k: nat)
    requires Exactly(exp, sig, r)
    ensures k <= MAX_FINITE && Grid(k) == r
  {
    hide Pow2, Grid;
    SmallPowers();
    var t := sig / 32;
    DivModFacts(sig, 32);
    Pow2Sum(5, exp + 29);
    Regrouped(t, 32, Pow2(exp + 29));
    if exp >= 2 {
      Pow2Sum(exp - 2, 36);
      Regrouped(t, Pow2(exp - 2), Pow2(36));
      Cancel(r, t * Pow2(exp - 2), Pow2(36));
      k := OnGrid(t, exp - 2);
    } else {
      Pow2Monotone(exp + 34, 36);
      MulMonotone(Pow2(exp + 34), Pow2(36), t);
      LessFactor(r, t + 1, Pow2(36));
      k := OnGrid(r, 0);
    }
  }

  lemma FromParts(a: Word32, b: Word32, z: Word32, n: int, negative: bool, rem: nat, r: nat)
    requires Finite(z) && Negative(z) == (Negative(a) != negative) && Magnitude(z) == r && (negative ==> r > 0)
    requires Nearest(Magnitude(a), Magnitude(b), n) && Signed(negative, r) == Magnitude(a) - n * Magnitude(b)
    ensures IsRemainder(a, b, z, n)
  {
    hide Magnitude, Nearest;
  }

  /** The value of the remainder is determined by the operands. */
  lemma RemainderUnique(a: Word32, b: Word32, y: Word32, z: Word32, m: int, n: int)
    requires Magnitude(b) > 0 && IsRemainder(a, b, y, m) && IsRemainder(a, b, z, n)
    ensures m == n && Value(y) == Value(z) && Negative(y) == Negative(z)
  {
    hide Magnitude, Nearest;
    NearestUnique(Magnitude(a), Magnitude(b), m, n);
  }
}
