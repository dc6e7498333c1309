/** Rounding a double to an integral value, in place on its packed word. */
module F64Round {
  import opened Arith
  import opened Powers
  import opened FloatEnv

  const SIGN := 0x8000_0000_0000_0000
  const HIDDEN := 0x10_0000_0000_0000
  const ONE_WORD := 0x3FF * HIDDEN

  datatype Mode = NearEven | MinMag | Min | Max | NearMaxMag

  function Exp(ui: Word64): nat { (ui / HIDDEN) % 0x800 }

  function Frac(ui: Word64): nat { ui % HIDDEN }

  predicate Negative(ui: Word64) { ui >= SIGN }

  /** The word without its sign bit. */
  function Body(ui: Word64): nat { ui % SIGN }

  predicate NaN(ui: Word64) { Exp(ui) == 0x7FF && Frac(ui) != 0 }

  predicate Infinite(ui: Word64) { Exp(ui) == 0x7FF && Frac(ui) == 0 }

  // ----- What a word denotes -----

  /** The magnitude of a finite double, in units of 2^-1074. */
  function Magnitude(ui: Word64): nat {
    BodyMagnitude(Body(ui))
  }

  function BodyMagnitude(body: nat): nat {
    var exp, frac := body / HIDDEN, body % HIDDEN;
    if exp == 0 then frac else (HIDDEN + frac) * Pow2(exp - 1)
  }

  /** The double 1.0 in those units. */
  function One(): (one: nat)
    ensures one > 0
  {
    Pow2(1074)
  }

  /** `k` is the integral value that `x / one` rounds to in the given mode, by section 4.3 of IEEE 754-2019. */
  predicate Rounds(mode: Mode, negative: bool, x: int, one: int, k: int) {
    RoundsAt(mode, negative, x, one, k, k * one)
  }

  predicate RoundsAt(mode: Mode, negative: bool, x: int, one: int, k: int, y: int) {
    var down, up := y <= x < y + one, y - one < x <= y;
    match mode
    case NearEven => 2 * (x - y) <= one && 2 * (y - x) <= one
                     && (2 * (x - y) == one || 2 * (y - x) == one ==> k % 2 == 0)
    case NearMaxMag => 2 * (x - y) < one && 2 * (y - x) <= one
    case MinMag => down
    case Min => if negative then up else down
    case Max => if negative then down else up
  }

  lemma RoundsUnique(mode: Mode, negative: bool, x: int, one: int, j: int, k: int)
    requires one > 0 && Rounds(mode, negative, x, one, j) && Rounds(mode, negative, x, one, k)
    ensures j == k
  {
    hide Rounds;
    NotBothRound(mode, negative, x, one, j, k);
    NotBothRound(mode, negative, x, one, k, j);
  }

  lemma NotBothRound(mode: Mode, negative: bool, x: int, one: int, j: int, k: int)
    requires one > 0
    ensures j < k ==> !(Rounds(mode, negative, x, one, j) && Rounds(mode, negative, x, one, k))
  {
    hide RoundsAt;
    if j < k {
      MulStep(j, k, one);
      if k - j >= 2 {
        MulStep(j, k - 1, one);
        MulStep(k - 1, k, one);
      }
      NotBothAt(mode, negative, x, one, j, k, j * one, k * one);
    }
  }

  lemma NotBothAt(mode: Mode, negative: bool, x: int, one: int, j: int, k: int, y: int, z: int)
    requires one > 0 && j < k && y + one <= z && (k - j >= 2 ==> y + 2 * one <= z)
    ensures !(RoundsAt(mode, negative, x, one, j, y) && RoundsAt(mode, negative, x, one, k, z))
  {
  }

  // ----- Words and magnitudes -----

  lemma WordParts(ui: Word64)
    ensures ui == (if Negative(ui) then SIGN else 0) + Body(ui)
    ensures Body(ui) == Exp(ui) * HIDDEN + Frac(ui) && Body(ui) < SIGN
    ensures Body(ui) / HIDDEN == Exp(ui) && Body(ui) % HIDDEN == Frac(ui)
  {
    var s := if Negative(ui) then 1 else 0;
    DivUnique(ui, SIGN, s);
    var body := Body(ui);
    DivModFacts(body, HIDDEN);
    DivUnique(ui, HIDDEN, s * 0x800 + body / HIDDEN);
    DivUnique(s * 0x800 + body / HIDDEN, 0x800, s);
  }

  /** Carries into the exponent: a fraction that has grown to the next power of two denotes the right magnitude. */
  lemma CarriedMagnitude(exp: nat, frac: nat)
    requires exp >= 1 && frac <= HIDDEN
    ensures BodyMagnitude(exp * HIDDEN + frac) == (HIDDEN + frac) * Pow2(exp - 1)
  {
    if frac == HIDDEN {
      DivUnique(exp * HIDDEN + frac, HIDDEN, exp + 1);
      assert Pow2(exp) == 2 * Pow2(exp - 1);
    } else {
      DivUnique(exp * HIDDEN + frac, HIDDEN, exp);
    }
  }

  /** Larger words denote larger magnitudes. */
  lemma MagnitudeGrows(a: nat, b: nat)
    requires a < b
    ensures BodyMagnitude(a) < BodyMagnitude(b)
  {
    DivModFacts(a, HIDDEN);
    DivModFacts(b, HIDDEN);
    var ea, eb, fa, fb := a / HIDDEN, b / HIDDEN, a % HIDDEN, b % HIDDEN;
    if ea == eb {
      if ea > 0 {
        MulStep(HIDDEN + fa, HIDDEN + fb, Pow2(ea - 1));
      }
    } else {
      assert ea < eb by {
        if ea > eb {
          MulStep(eb, ea, HIDDEN);
        }
      }
      Pow2Monotone(ea, eb - 1);
      MulMonotone(HIDDEN, HIDDEN + fb, Pow2(eb - 1));
      if ea > 0 {
        assert Pow2(ea) == 2 * Pow2(ea - 1);
        MulStep(HIDDEN + fa, 2 * HIDDEN, Pow2(ea - 1));
      }
      MulMonotone(Pow2(ea), Pow2(eb - 1), HIDDEN);
    }
  }

  /** A word is determined by its sign and the magnitude it denotes. */
  lemma MagnitudeInjective(a: Word64, b: Word64)
    requires Negative(a) == Negative(b) && Magnitude(a) == Magnitude(b)
    ensures a == b
  {
    hide BodyMagnitude;
    WordParts(a);
    WordParts(b);
    if Body(a) < Body(b) {
      MagnitudeGrows(Body(a), Body(b));
    } else if Body(b) < Body(a) {
      MagnitudeGrows(Body(b), Body(a));
    }
  }

  // ----- Rounding below one, and within the fraction -----

  /** The magnitudes below one are exactly those with an exponent field below that of 1.0. */
  lemma BelowOne(body: nat)
    requires body < SIGN
    ensures body < ONE_WORD <==> BodyMagnitude(body) < One()
    ensures BodyMagnitude(ONE_WORD) == One() && BodyMagnitude(0) == 0
    ensures body > 0 ==> BodyMagnitude(body) > 0
  {
    hide BodyMagnitude, One;
    OneWord();
    if body < ONE_WORD {
      MagnitudeGrows(body, ONE_WORD);
    } else if body > ONE_WORD {
      MagnitudeGrows(ONE_WORD, body);
    }
    if body > 0 {
      MagnitudeGrows(0, body);
    }
  }

  lemma OneWord()
    ensures BodyMagnitude(ONE_WORD) == One() && BodyMagnitude(0) == 0
  {
    hide Pow2;
    DivUnique(ONE_WORD, HIDDEN, 0x3FF);
    Pow2Sum(1022, 52);
    Pow2Values();
  }

  /** The exponent field and the fraction decide on which side of one half a magnitude below one lies. */
  lemma AgainstHalf(body: nat)
    requires body < ONE_WORD
    ensures body / HIDDEN == 0x3FE <==> 2 * BodyMagnitude(body) >= One()
    ensures body / HIDDEN == 0x3FE && body % HIDDEN == 0 <==> 2 * BodyMagnitude(body) == One()
  {
    hide BodyMagnitude, One;
    var half := 0x3FE * HIDDEN;
    HalfWord();
    DivModFacts(body, HIDDEN);
    if body < half {
      MagnitudeGrows(body, half);
      DivModFacts(body, HIDDEN);
    } else {
      DivUnique(body, HIDDEN, 0x3FE);
      if body > half {
        MagnitudeGrows(half, body);
      }
    }
  }

  lemma HalfWord()
    ensures 2 * BodyMagnitude(0x3FE * HIDDEN) == One()
  {
    hide Pow2;
    DivUnique(0x3FE * HIDDEN, HIDDEN, 0x3FE);
    Pow2Sum(1021, 52);
    Pow2Values();
    Pow2Sum(1, 1073);
    OneBit();
  }

  lemma OneBit()
    ensures Pow2(1) == 2
  {
  }

  /** A positive magnitude below one rounds to zero or to one. */
  lemma RoundsBelowOne(mode: Mode, negative: bool, x: int, one: int)
    requires 0 < x < one
    ensures Rounds(mode, negative, x, one, 0) <==>
            match mode
            case NearEven => 2 * x <= one
            case NearMaxMag => 2 * x < one
            case MinMag => true
            case Min => !negative
            case Max => negative
    ensures Rounds(mode, negative, x, one, 1) <==> !Rounds(mode, negative, x, one, 0)
  {
  }

  /** An integral magnitude is its own rounding. */
  lemma RoundsIntegral(mode: Mode, negative: bool, k: int, one: int)
    requires one > 0
    ensures Rounds(mode, negative, k * one, one, k)
  {
  }

  lemma RoundsScale(mode: Mode, negative: bool, x: int, one: int, k: int, unit: int)
    requires unit > 0 && Rounds(mode, negative, x, one, k)
    ensures Rounds(mode, negative, x * unit, one * unit, k)
  {
    hide RoundsAt;
    var y := k * one;
    assert k * (one * unit) == y * unit;
    var up, down := 2 * (x - y), 2 * (y - x);
    ScaleOrder(up, one, unit);
    ScaleOrder(down, one, unit);
    ScaleOrder(y, x, unit);
    ScaleOrder(x, y + one, unit);
    ScaleOrder(y - one, x, unit);
    ScaledDifference(x, y, one, unit);
    SameComparisons(mode, negative, x, one, k, y, x * unit, one * unit, y * unit);
  }

  lemma ScaledDifference(x: int, y: int, one: int, unit: int)
    ensures (2 * (x - y)) * unit == 2 * (x * unit - y * unit) && (2 * (y - x)) * unit == 2 * (y * unit - x * unit)
    ensures (y + one) * unit == y * unit + one * unit && (y - one) * unit == y * unit - one * unit
  {
    assert (x - y) * unit == x * unit - y * unit;
    assert (y - x) * unit == y * unit - x * unit;
  }

  lemma SameComparisons(mode: Mode, negative: bool, x: int, one: int, k: int, y: int, x': int, one': int, y': int)
    requires RoundsAt(mode, negative, x, one, k, y)
    requires (2 * (x - y) < one <==> 2 * (x' - y') < one') && (2 * (x - y) == one <==> 2 * (x' - y') == one')
    requires (2 * (y - x) < one <==> 2 * (y' - x') < one') && (2 * (y - x) == one <==> 2 * (y' - x') == one')
    requires (y < x <==> y' < x') && (y == x <==> y' == x') && (x < y + one <==> x' < y' + one')
             && (y - one < x <==> y' - one' < x')
    ensures RoundsAt(mode, negative, x', one', k, y')
  {
  }

  lemma ScaleOrder(x: int, y: int, unit: int)
    requires unit > 0
    ensures (x < y <==> x * unit < y * unit) && (x == y <==> x * unit == y * unit)
  {
    if x < y {
      MulStep(x, y, unit);
    } else if y < x {
      MulStep(y, x, unit);
    }
  }

  /** The bit of weight one in a word with this exponent field. */
  function LastBit(exp: nat): nat
    requires exp <= 0x433
  {
    Pow2(0x433 - exp)
  }

  /** It divides everything above it in the word, evenly even; and it stands for one. */
  lemma LastBitFacts(exp: nat)
    requires 0x3FF <= exp < 0x433
    ensures var bit := LastBit(exp);
            && 2 <= bit <= HIDDEN && bit % 2 == 0 && HIDDEN % bit == 0
            && (exp * HIDDEN - HIDDEN) % (2 * bit) == 0 && SIGN % (2 * bit) == 0
            && One() == bit * Pow2(exp - 1)
  {
    hide Pow2;
    var bit, c := LastBit(exp), Pow2(exp - 0x3FF);
    Pow2Sum(exp - 0x3FF, 0x433 - exp);
    Pow2Sum(0x433 - exp, exp - 1);
    Pow2Values();
    EvenPower(0x433 - exp);
    Pow2Monotone(0x433 - exp, 52);
    HiddenMultiple(c, bit);
    if exp == 0x3FF {
      ZeroPower();
      DivUnique(exp * HIDDEN - HIDDEN, 2 * bit, 511);
    } else {
      EvenPower(exp - 0x3FF);
      ExponentMultiple(exp, c, bit);
    }
  }

  lemma HiddenMultiple(c: nat, bit: nat)
    requires HIDDEN == c * bit && bit > 0
    ensures HIDDEN % bit == 0 && SIGN % (2 * bit) == 0
  {
    DivUnique(HIDDEN, bit, c);
    assert (1024 * c) * (2 * bit) == 2048 * (c * bit);
    DivUnique(SIGN, 2 * bit, 1024 * c);
  }

  lemma ExponentMultiple(exp: nat, c: nat, bit: nat)
    requires exp > 0 && HIDDEN == c * bit && bit > 0 && c % 2 == 0
    ensures (exp * HIDDEN - HIDDEN) % (2 * bit) == 0
  {
    var h := c / 2;
    DivModFacts(c, 2);
    HalfProduct(h, bit);
    Regrouped(exp - 1, h, 2 * bit);
    DivUnique(exp * HIDDEN - HIDDEN, 2 * bit, (exp - 1) * h);
  }

  lemma HalfProduct(h: nat, bit: nat)
    ensures h * (2 * bit) == (h * 2) * bit
  {
  }

  lemma EvenPower(n: nat)
    requires n > 0
    ensures Pow2(n) >= 2 && Pow2(n) % 2 == 0
  {
    var half := Pow2(n - 1);
    assert Pow2(n) == 2 * half;
    hide Pow2;
    DivUnique(2 * half, 2, half);
  }

  lemma ZeroPower()
    ensures Pow2(0) == 1
  {
  }

  /** Below the last bit a word and its significand look the same, and the last bit has the same value in both. */
  lemma SameLowBits(base: nat, t: nat, bit: nat)
    requires bit > 0 && base % (2 * bit) == 0
    ensures (base + t) % bit == t % bit && ((base + t) / bit) % 2 == (t / bit) % 2
    ensures base + t - (base + t) % bit == base + (t / bit) * bit
  {
    DivModFacts(base, 2 * bit);
    DivModFacts(t, bit);
    var g := base / (2 * bit);
    assert base == (2 * g) * bit;
    assert (2 * g + t / bit) * bit == (2 * g) * bit + (t / bit) * bit;
    DivUnique(base + t, bit, 2 * g + t / bit);
  }

  /** What is added before the low bits are cut off. */
  function Increment(mode: Mode, negative: bool, bit: nat): nat {
    match mode
    case NearEven => bit / 2
    case NearMaxMag => bit / 2
    case MinMag => 0
    case Min => if negative && bit > 0 then bit - 1 else 0
    case Max => if !negative && bit > 0 then bit - 1 else 0
  }

  function Cut(mode: Mode, negative: bool, m: nat, bit: nat): int
    requires bit > 0
  {
    CutAt(mode, m + Increment(mode, negative, bit), bit)
  }

  /** The multiple of `bit` at or below `t`, or the one before when a tie has to go to the even side. */
  function CutAt(mode: Mode, t: nat, bit: nat): int
    requires bit > 0
  {
    if mode == NearEven && t % bit == 0 && (t / bit) % 2 == 1 then t / bit - 1 else t / bit
  }

  /** Adding the increment and cutting rounds in every mode, once a tie has been moved to the even side. */
  lemma CutRounds(mode: Mode, negative: bool, m: nat, bit: nat)
    requires bit >= 2 && bit % 2 == 0
    ensures Cut(mode, negative, m, bit) >= 0 && Rounds(mode, negative, m, bit, Cut(mode, negative, m, bit))
  {
    hide RoundsAt, CutAt, Increment;
    var t := m + Increment(mode, negative, bit);
    CutAtIs(mode, t, bit);
    CutLinear(mode, negative, m, bit, t / bit, (t / bit) * bit);
  }

  lemma CutAtIs(mode: Mode, t: nat, bit: nat)
    requires bit > 0
    ensures var q, y := t / bit, (t / bit) * bit;
            && y <= t < y + bit
            && (if mode == NearEven && t == y && q % 2 == 1
                then CutAt(mode, t, bit) == q - 1 && CutAt(mode, t, bit) * bit == y - bit
                else CutAt(mode, t, bit) == q)
            && CutAt(mode, t, bit) >= 0
  {
    var q := t / bit;
    DivModFacts(t, bit);
    assert (q - 1) * bit == q * bit - bit;
  }

  lemma CutLinear(mode: Mode, negative: bool, m: nat, bit: nat, q: nat, y: nat)
    requires bit >= 2 && bit % 2 == 0
    requires y <= m + Increment(mode, negative, bit) < y + bit
    ensures var t := m + Increment(mode, negative, bit);
            if mode == NearEven && t == y && q % 2 == 1 then RoundsAt(mode, negative, m, bit, q - 1, y - bit)
            else RoundsAt(mode, negative, m, bit, q, y)
  {
  }

  /** The rounded significand stays within its binade, or becomes exactly the next power of two. */
  lemma CutRange(mode: Mode, negative: bool, m: nat, bit: nat)
    requires bit >= 2 && bit % 2 == 0 && HIDDEN % bit == 0 && HIDDEN <= m < 2 * HIDDEN
    ensures HIDDEN <= Cut(mode, negative, m, bit) * bit <= 2 * HIDDEN
  {
    hide Cut, Rounds;
    CutRounds(mode, negative, m, bit);
    var k, h := Cut(mode, negative, m, bit), HIDDEN / bit;
    DivModFacts(HIDDEN, bit);
    CloseToMultiple(mode, negative, m, bit, k);
    BetweenMultiples(k, h, bit, m);
  }

  lemma BetweenMultiples(k: int, h: nat, bit: nat, m: nat)
    requires bit > 0 && h * bit <= m < 2 * (h * bit) && m - bit < k * bit < m + bit
    ensures h * bit <= k * bit <= 2 * (h * bit)
  {
    assert (2 * h) * bit == 2 * (h * bit);
    if k < h {
      MulStep(k, h, bit);
    } else if k > 2 * h {
      MulStep(2 * h, k, bit);
    }
  }

  lemma CloseToMultiple(mode: Mode, negative: bool, m: nat, bit: nat, k: int)
    requires bit >= 2 && Rounds(mode, negative, m, bit, k)
    ensures m - bit < k * bit < m + bit
  {
  }

  /** A word rebuilt from its sign, its exponent field and a rounded significand. */
  lemma RebuiltWord(negative: bool, exp: nat, m: nat, z: Word64)
    requires 1 <= exp < 0x7FE && HIDDEN <= m <= 2 * HIDDEN
    requires z == (if negative then SIGN else 0) + (exp * HIDDEN - HIDDEN) + m
    ensures Negative(z) == negative && Magnitude(z) == m * Pow2(exp - 1)
  {
    hide Pow2, BodyMagnitude;
    DivUnique(z, SIGN, if negative then 1 else 0);
    CarriedMagnitude(exp, m - HIDDEN);
  }

  // ----- The operation -----

  /** Exponents below that of 1.0: the result is a zero or a one of the same sign. */
  method RoundSmall(a: Word64, mode: Mode) returns (z: Word64, ghost k: nat)
    requires Exp(a) <= 0x3FE && Body(a) != 0
    ensures z != a && Negative(z) == Negative(a) && Magnitude(z) == k * One()
    ensures Rounds(mode, Negative(a), Magnitude(a), One(), k)
  {
    hide Pow2, BodyMagnitude, Rounds, One;
    var sign: Word64 := if Negative(a) then SIGN else 0;
    z := sign;
    match mode {
      case NearEven =>
        if Frac(a) != 0 && Exp(a) == 0x3FE {
          z := z + ONE_WORD;
        }
      case NearMaxMag =>
        if Exp(a) == 0x3FE {
          z := z + ONE_WORD;
        }
      case MinMag =>
      case Min =>
        if z != 0 {
          z := SIGN + ONE_WORD;
        }
      case Max =>
        if z == 0 {
          z := ONE_WORD;
        }
    }
    k := if z == sign then 0 else 1;
    SmallWords(a);
    RoundsBelowOne(mode, Negative(a), Magnitude(a), One());
  }

  lemma SmallWords(a: Word64)
    requires Exp(a) <= 0x3FE && Body(a) != 0
    ensures 0 < Magnitude(a) < One()
    ensures Exp(a) == 0x3FE <==> 2 * Magnitude(a) >= One()
    ensures Exp(a) == 0x3FE && Frac(a) == 0 <==> 2 * Magnitude(a) == One()
    ensures var sign := if Negative(a) then SIGN else 0;
            && Negative(sign) == Negative(a) && Magnitude(sign) == 0 && a != sign
            && Negative(sign + ONE_WORD) == Negative(a) && Magnitude(sign + ONE_WORD) == One() && a != sign + ONE_WORD
  {
    hide Pow2, BodyMagnitude, One;
    WordParts(a);
    var sign := if Negative(a) then SIGN else 0;
    BelowOne(Body(a));
    AgainstHalf(Body(a));
    DivUnique(sign, SIGN, if Negative(a) then 1 else 0);
    DivUnique(sign + ONE_WORD, SIGN, if Negative(a) then 1 else 0);
  }

  /** Exponents at which the last bit of the fraction weighs less than one. */
  method RoundFraction(a: Word64, mode: Mode) returns (z: Word64, ghost k: nat)
    requires 0x3FF <= Exp(a) < 0x433
    ensures Negative(z) == Negative(a) && Magnitude(z) == k * One()
    ensures Rounds(mode, Negative(a), Magnitude(a), One(), k)
  {
    hide Pow2, BodyMagnitude, Rounds, One, LastBit, Cut;
    var exp := Exp(a);
    var lastBit := LastBit(exp);
    k := RoundedWord(a, mode);
    NoBorrow(a + lastBit / 2, lastBit);
    var ui: nat := a;
    if mode == NearMaxMag {
      ui := ui + lastBit / 2;
    } else if mode == NearEven {
      ui := ui + lastBit / 2;
      if ui % lastBit == 0 && (ui / lastBit) % 2 == 1 {
        ui := ui - lastBit;
      }
    } else if mode == (if Negative(a) then Min else Max) {
      ui := ui + (lastBit - 1);
    }
    ui := ui - ui % lastBit;
    z := ui;
  }

  /** Clearing the bits below the last one never goes below zero. */
  lemma NoBorrow(t: nat, bit: nat)
    requires bit > 0
    ensures t % bit == 0 && (t / bit) % 2 == 1 ==> t >= bit
  {
    OneLess(t, bit);
  }

  /** The word that is left denotes the rounded value. */
  lemma RoundedWord(a: Word64, mode: Mode) returns (k: nat)
    requires 0x3FF <= Exp(a) < 0x433
    ensures LastBit(Exp(a)) > 0
    ensures var z := WordCut(mode, a + Increment(mode, Negative(a), LastBit(Exp(a))), LastBit(Exp(a)));
            && 0 <= z < WORD64 && Negative(z) == Negative(a) && Magnitude(z) == k * One()
            && Rounds(mode, Negative(a), Magnitude(a), One(), k)
  {
    hide Pow2, BodyMagnitude, Rounds, One, LastBit, Cut, WordCut, Increment;
    FractionWord(a, mode);
    var bit := LastBit(Exp(a));
    k := Cut(mode, Negative(a), HIDDEN + Frac(a), bit);
    RebuiltWord(Negative(a), Exp(a), k * bit, WordCut(mode, a + Increment(mode, Negative(a), bit), bit));
  }

  /** What a word with a sign and an exponent field adds to its significand. */
  function Base(a: Word64): int {
    (if Negative(a) then SIGN else 0) + (Exp(a) * HIDDEN - HIDDEN)
  }

  /** The word arithmetic does to the significand what `Cut` says. */
  lemma FractionWord(a: Word64, mode: Mode)
    requires 0x3FF <= Exp(a) < 0x433
    ensures var bit, inc := LastBit(Exp(a)), Increment(mode, Negative(a), LastBit(Exp(a)));
            var k := Cut(mode, Negative(a), HIDDEN + Frac(a), bit);
            && bit >= 2 && k >= 0 && HIDDEN <= k * bit <= 2 * HIDDEN && Base(a) + k * bit < WORD64
            && Rounds(mode, Negative(a), Magnitude(a), One(), k) && (k * bit) * Pow2(Exp(a) - 1) == k * One()
            && WordCut(mode, a + inc, bit) == Base(a) + k * bit
  {
    hide Pow2, Rounds, One, LastBit, BodyMagnitude, Cut, WordCut;
    var exp, bit, m := Exp(a), LastBit(Exp(a)), HIDDEN + Frac(a);
    WordParts(a);
    LastBitFacts(exp);
    var k := Cut(mode, Negative(a), m, bit);
    CutRounds(mode, Negative(a), m, bit);
    CutRange(mode, Negative(a), m, bit);
    CarriedMagnitude(exp, Frac(a));
    RoundsScale(mode, Negative(a), m, bit, k, Pow2(exp - 1));
    Regrouped(k, bit, Pow2(exp - 1));
    SignificandOfWord(a, mode);
  }

  /** The tie correction and the cut, on a whole word. */
  function WordCut(mode: Mode, t: nat, bit: nat): int
    requires bit > 0
  {
    if mode == NearEven && t % bit == 0 && (t / bit) % 2 == 1 then (t - bit) - (t - bit) % bit else t - t % bit
  }

  lemma WordCutBase(mode: Mode, base: nat, t: nat, bit: nat)
    requires bit > 0 && base % (2 * bit) == 0
    ensures WordCut(mode, base + t, bit) == base + CutAt(mode, t, bit) * bit
  {
    SameLowBits(base, t, bit);
    OneLess(base + t, bit);
    OneLess(t, bit);
  }

  lemma SignificandOfWord(a: Word64, mode: Mode)
    requires 0x3FF <= Exp(a) < 0x433
    ensures var bit := LastBit(Exp(a));
            WordCut(mode, a + Increment(mode, Negative(a), bit), bit)
            == Base(a) + Cut(mode, Negative(a), HIDDEN + Frac(a), bit) * bit
  {
    hide Pow2, LastBit, Increment, One, WordCut, CutAt;
    var exp, bit, m := Exp(a), LastBit(Exp(a)), HIDDEN + Frac(a);
    WordParts(a);
    LastBitFacts(exp);
    var sign := if Negative(a) then SIGN else 0;
    ZeroMultiple(2 * bit);
    SumMultiple(sign, exp * HIDDEN - HIDDEN, 2 * bit);
    WordCutBase(mode, Base(a), m + Increment(mode, Negative(a), bit), bit);
  }

  lemma ZeroMultiple(m: nat)
    requires m > 0
    ensures 0 % m == 0
  {
  }

  lemma SumMultiple(a: nat, b: nat, m: nat)
    requires m > 0 && a % m == 0 && b % m == 0
    ensures (a + b) % m == 0
  {
    DivModFacts(a, m);
    DivModFacts(b, m);
    DivUnique(a + b, m, a / m + b / m);
  }

  lemma OneLess(t: nat, bit: nat)
    requires bit > 0
    ensures t % bit == 0 && (t / bit) % 2 == 1 ==>
              t - bit >= 0 && (t - bit) % bit == 0 && t == (t / bit) * bit && (t / bit - 1) * bit == t - bit
  {
    DivModFacts(t, bit);
    if t % bit == 0 && (t / bit) % 2 == 1 {
      assert (t / bit - 1) * bit == t - bit;
      MulMonotone(1, t / bit, bit);
      DivUnique(t - bit, bit, t / bit - 1);
    }
  }

  /** The first bit of the fraction. */
  predicate QuietBit(ui: Word64) { (ui / 0x8_0000_0000_0000) % 2 == 1 }

  /** All exponent bits set, the quiet bit clear, and some other bit of the fraction set. */
  predicate Signaling(ui: Word64) {
    Exp(ui) == 0x7FF && !QuietBit(ui) && ui % 0x8_0000_0000_0000 != 0
  }

  /** All exponent bits and the quiet bit set, sign and all other bits clear. */
  predicate CanonicalNaN(ui: Word64) {
    Exp(ui) == 0x7FF && QuietBit(ui) && !Negative(ui) && ui % 0x8_0000_0000_0000 == 0
  }

  const DEFAULT_NAN: Word64 := 0x7FF8_0000_0000_0000

  /** The test of the code: one mask over exponent and quiet bit, another over the rest of the fraction. */
  predicate IsSigNaN(ui: Word64) {
    (ui / 0x8_0000_0000_0000) % 0x1000 == 0xFFE && ui % 0x8_0000_0000_0000 != 0
  }

  /** The masks pick out exactly the signaling NaNs. */
  lemma SignalingIs(ui: Word64)
    ensures IsSigNaN(ui) <==> Signaling(ui)
    ensures Signaling(ui) ==> NaN(ui)
    ensures NaN(ui) && !Signaling(ui) ==> QuietBit(ui)
  {
    var top := ui / 0x8_0000_0000_0000;
    DivModFacts(ui, 0x8_0000_0000_0000);
    DivModFacts(top, 0x1000);
    DivUnique(ui, HIDDEN, top / 2);
    DivUnique(top / 2, 0x800, top / 0x1000);
  }

  /** The default NaN is quiet: its fraction is 2^51, its sign clear. */
  lemma DefaultNaN()
    ensures CanonicalNaN(DEFAULT_NAN) && NaN(DEFAULT_NAN) && !Signaling(DEFAULT_NAN)
    ensures Frac(DEFAULT_NAN) == 0x8_0000_0000_0000
  {
  }

  /** `z` is the integral value `a` rounds to, with the sign of `a`: exactly `k`, in the given mode. */
  predicate RoundedTo(mode: Mode, a: Word64, z: Word64, k: nat) {
    Negative(z) == Negative(a) && Magnitude(z) == k * One() && Rounds(mode, Negative(a), Magnitude(a), One(), k)
  }

  /** From this exponent on the last bit of the fraction already weighs at least one. */
  lemma AlreadyIntegral(a: Word64) returns (k: nat)
    requires Body(a) == 0 || Exp(a) >= 0x433
    ensures Magnitude(a) == k * One()
  {
    hide Pow2;
    WordParts(a);
    if Body(a) == 0 {
      k := 0;
    } else {
      var exp := Exp(a);
      Pow2Sum(exp - 0x433, 1074);
      k := (HIDDEN + Frac(a)) * Pow2(exp - 0x433);
      Regrouped(HIDDEN + Frac(a), Pow2(exp - 0x433), Pow2(1074));
    }
  }

  /**
   Rounds to an integral value. A NaN becomes the quiet NaN of sign 0 and fraction 2^51, an infinity
   stays; any other value becomes the one the mode asks for, and the inexact flag is raised exactly when that was
   requested and the value has changed.
   */
  method RoundToInt(env: FloatState, a: Word64, mode: Mode, exact: bool) returns (z: Word64, ghost k: nat)
    modifies env
    ensures NaN(a) ==>
              && CanonicalNaN(z)
              && env.exceptionFlags == old(env.exceptionFlags) + (if Signaling(a) then {Flag.Invalid} else {})
    ensures !NaN(a) ==>
              && RoundedTo(mode, a, z, k) && (Infinite(a) ==> z == a)
              && env.exceptionFlags == old(env.exceptionFlags) + (if exact && z != a then {Inexact} else {})
  {
    hide Pow2, BodyMagnitude, Rounds, One;
    var exp := Exp(a);
    k := 0;
    if exp <= 0x3FE {
      if Body(a) == 0 {
        k := AlreadyIntegral(a);
        RoundsIntegral(mode, Negative(a), k, One());
        return a, k;
      }
      z, k := RoundSmall(a, mode);
      if exact {
        env.RaiseFlags({Inexact});
      }
      return;
    }
    if 0x433 <= exp {
      if NaN(a) {
        DefaultNaN();
        SignalingIs(a);
        if IsSigNaN(a) {
          env.RaiseFlags({Flag.Invalid});
        }
        return DEFAULT_NAN, 0;
      }
      k := AlreadyIntegral(a);
      RoundsIntegral(mode, Negative(a), k, One());
      return a, k;
    }
    z, k := RoundFraction(a, mode);
    if exact && z != a {
      env.RaiseFlags({Inexact});
    }
  }

  /** There is only one correctly rounded word. */
  lemma RoundedUnique(mode: Mode, a: Word64, y: Word64, z: Word64, j: nat, k: nat)
    requires RoundedTo(mode, a, y, j) && RoundedTo(mode, a, z, k)
    ensures y == z
  {
    hide Magnitude, Rounds, One;
    RoundsUnique(mode, Negative(a), Magnitude(a), One(), j, k);
    MagnitudeInjective(y, z);
  }

  /** Rounding twice is rounding once, in whatever modes. */
  lemma Idempotent(mode: Mode, again: Mode, a: Word64, y: Word64, z: Word64, j: nat, k: nat)
    requires RoundedTo(mode, a, y, j) && RoundedTo(again, y, z, k)
    ensures z == y && k == j
  {
    hide Magnitude, Rounds, One;
    RoundsIntegral(again, Negative(y), j, One());
    RoundsUnique(again, Negative(y), Magnitude(y), One(), j, k);
    MagnitudeInjective(y, z);
  }

  /** The value has changed exactly when the word has, so the inexact flag tells the truth. */
  lemma ChangedIff(mode: Mode, a: Word64, z: Word64, k: nat)
    requires RoundedTo(mode, a, z, k)
    ensures z != a <==> Magnitude(a) != k * One()
  {
    hide Magnitude, Rounds, One;
    if Magnitude(a) == k * One() {
      MagnitudeInjective(a, z);
    }
  }
}
