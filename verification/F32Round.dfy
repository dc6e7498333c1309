/** Packing single-precision results: correct rounding in every mode, and the flags that go with it. */
module F32Round {
  import opened Arith
  import opened Powers
  import opened FloatEnv
  import opened F32Rem
  import opened F32Bits

  // ----- The grid of magnitudes -----

  const MAX_FINITE := 0x7F7F_FFFF
  const INFINITE := 0x7F80_0000

  /** The magnitude of the word whose low 31 bits are `k`; for an infinity, the next one after all finite ones. */
  function Grid(k: nat): nat {
    FieldsMagnitude(k / HIDDEN, k % HIDDEN)
  }

  /** A significand with its leading bit, or a subnormal one, placed in the grid. */
  lemma GridAt(exp: nat, sig: nat)
    requires sig <= 2 * HIDDEN && (exp > 0 ==> sig >= HIDDEN)
    ensures Grid(exp * HIDDEN + sig) == sig * Pow2(exp)
  {
    hide Pow2;
    SmallPowers();
    if sig == 2 * HIDDEN {
      DivUnique(exp * HIDDEN + sig, HIDDEN, exp + 2);
      Pow2Sum(exp, 1);
    } else if sig >= HIDDEN {
      DivUnique(exp * HIDDEN + sig, HIDDEN, exp + 1);
    } else {
      DivUnique(sig, HIDDEN, 0);
    }
  }

  lemma GridStep(k: nat)
    ensures Grid(k) < Grid(k + 1)
  {
    hide Pow2, Grid;
    var e, f := k / HIDDEN, k % HIDDEN;
    DivModFacts(k, HIDDEN);
    if e == 0 {
      SmallPowers();
      GridAt(0, f);
      GridAt(0, f + 1);
    } else {
      GridAt(e - 1, HIDDEN + f);
      GridAt(e - 1, HIDDEN + f + 1);
      MulStep(HIDDEN + f, HIDDEN + f + 1, Pow2(e - 1));
    }
  }

  lemma {:induction false} GridIncreasing(j: nat, k: nat)
    requires j < k
    ensures Grid(j) < Grid(k)
    decreases k
  {
    hide Grid;
    GridStep(k - 1);
    if j < k - 1 {
      GridIncreasing(j, k - 1);
    }
  }

  // ----- Correct rounding -----

  datatype Order = Below | Equal | Above

  /** Where `h` halves lie against the exact value `num / den`. */
  function Against(h: nat, num: nat, den: nat): Order {
    if h * den < 2 * num then Below else if h * den == 2 * num then Equal else Above
  }

  /** The midpoint of two neighbours, in halves. */
  function Mid(k: nat): nat { Grid(k) + Grid(k + 1) }

  predicate ToZero(num: nat, den: nat, k: nat) {
    k <= MAX_FINITE && Against(2 * Grid(k), num, den) != Above
    && (k < MAX_FINITE ==> Against(2 * Grid(k + 1), num, den) == Above)
  }

  predicate FromZero(num: nat, den: nat, k: nat) {
    && k <= INFINITE
    && (k > 0 ==> Against(2 * Grid(k - 1), num, den) == Below)
    && (k < INFINITE ==> Against(2 * Grid(k), num, den) != Below)
  }

  /** Nearest; a tie goes to the even word, or away from zero. */
  predicate ToNearest(num: nat, den: nat, k: nat, even: bool) {
    && k <= INFINITE
    && (k > 0 ==>
          || Against(Mid(k - 1), num, den) == Below
          || (Against(Mid(k - 1), num, den) == Equal && (even ==> k % 2 == 0)))
    && (k < INFINITE ==>
          || Against(Mid(k), num, den) == Above
          || (Against(Mid(k), num, den) == Equal && even && k % 2 == 0))
  }

  /** Exact, or the odd one of the two neighbours. */
  predicate ToOdd(num: nat, den: nat, k: nat) {
    && k <= MAX_FINITE
    && (Against(2 * Grid(k), num, den) == Equal
        || (k % 2 == 1 && Against(2 * Grid(k - 1), num, den) == Below
            && (k < MAX_FINITE ==> Against(2 * Grid(k + 1), num, den) == Above)))
  }

  datatype Direction = Inward | Outward | Closest(even: bool) | Odd

  function DirectionOf(mode: RoundingMode, sign: bool): Direction {
    match mode
    case RoundNearEven => Closest(true)
    case RoundNearMaxMag => Closest(false)
    case RoundMinMag => Inward
    case RoundMin => if sign then Outward else Inward
    case RoundMax => if sign then Inward else Outward
    case RoundOdd => Odd
  }

  /** The magnitude with the low bits `k` is `num / den`, correctly rounded. */
  predicate Rounds(dir: Direction, num: nat, den: nat, k: nat) {
    match dir
    case Inward => ToZero(num, den, k)
    case Outward => FromZero(num, den, k)
    case Closest(even) => ToNearest(num, den, k, even)
    case Odd => ToOdd(num, den, k)
  }

  predicate IsInexact(num: nat, den: nat, k: nat) {
    k == INFINITE || Against(2 * Grid(k), num, den) != Equal
  }

  /** With an unbounded exponent the rounded magnitude would exceed the largest finite one. */
  predicate Overflows(dir: Direction, num: nat, den: nat, k: nat) {
    if dir.Outward? || dir.Closest? then k == INFINITE else Against(2 * Grid(INFINITE), num, den) != Above
  }

  /**
   Rounded to 24 bits, but with an unbounded exponent, a value below the normal numbers becomes the smallest of these.
   */
  predicate BecomesNormal(dir: Direction, num: nat, den: nat) {
    match dir
    case Closest(_) => Against(4 * HIDDEN - 1, 2 * num, den) != Above
    case Outward => Against(2 * HIDDEN - 1, num, den) == Below
    case _ => false
  }

  predicate Underflows(dir: Direction, num: nat, den: nat, k: nat, before: bool) {
    && IsInexact(num, den, k) && Against(2 * HIDDEN, num, den) == Above
    && (before || !BecomesNormal(dir, num, den))
  }

  function FlagsFor(dir: Direction, num: nat, den: nat, k: nat, before: bool): set<Flag> {
    (if IsInexact(num, den, k) then {Inexact} else {})
    + (if Overflows(dir, num, den, k) then {Overflow} else {})
    + (if Underflows(dir, num, den, k, before) then {Underflow} else {})
  }

  // ----- Comparisons -----

  /** Comparisons are monotone in what is compared. */
  lemma AgainstLess(h: nat, h': nat, num: nat, den: nat)
    requires h < h' && den > 0
    ensures Against(h, num, den) != Below ==> Against(h', num, den) == Above
    ensures Against(h', num, den) != Above ==> Against(h, num, den) == Below
  {
    MulStep(h, h', den);
  }

  /** They do not depend on how the value is written as a fraction. */
  lemma SameValue(h: nat, num: nat, den: nat, num': nat, den': nat)
    requires den > 0 && den' > 0 && num * den' == num' * den
    ensures Against(h, num, den) == Against(h, num', den')
  {
    ScaledOrder(h * den, 2 * num, den', h * den', 2 * num', den);
    Swapped(h, den, den');
    Swapped(2, num, den');
    Swapped(2, num', den);
  }

  lemma Swapped(h: int, a: int, b: int)
    ensures (h * a) * b == (h * b) * a && (h * a) * b == h * (a * b)
  {
  }

  // ----- Two neighbours, and the seven bits between them -----

  /**
   The value lies in the step from `k` to its successor, and `bits` 128ths of the way for the purposes of rounding.
   */
  predicate Bracket(num: nat, den: nat, k: nat, bits: nat) {
    && k <= MAX_FINITE && bits < 128 && den > 0
    && Against(2 * Grid(k), num, den) == (if bits == 0 then Equal else Below)
    && Against(Mid(k), num, den) == (if bits < 64 then Above else if bits == 64 then Equal else Below)
    && Against(2 * Grid(k + 1), num, den) == Above
  }

  predicate RoundsUp(dir: Direction, odd: bool, bits: nat) {
    match dir
    case Inward => false
    case Outward => bits > 0
    case Closest(even) => bits > 64 || (bits == 64 && (even ==> odd))
    case Odd => bits > 0 && !odd
  }

  function Chosen(dir: Direction, k: nat, bits: nat): nat {
    if RoundsUp(dir, k % 2 == 1, bits) then k + 1 else k
  }

  lemma ChosenRounds(dir: Direction, num: nat, den: nat, k: nat, bits: nat)
    requires Bracket(num, den, k, bits)
    ensures Rounds(dir, num, den, Chosen(dir, k, bits))
    ensures IsInexact(num, den, Chosen(dir, k, bits)) <==> bits != 0
    ensures Overflows(dir, num, den, Chosen(dir, k, bits)) <==> Chosen(dir, k, bits) == INFINITE
  {
    hide Grid, Against;
    GridStep(k);
    GridStep(k + 1);
    AgainstLess(2 * Grid(k + 1), Mid(k + 1), num, den);
    AgainstLess(2 * Grid(k + 1), 2 * Grid(k + 2), num, den);
    if k > 0 {
      GridStep(k - 1);
      AgainstLess(Mid(k - 1), 2 * Grid(k), num, den);
      AgainstLess(2 * Grid(k - 1), 2 * Grid(k), num, den);
    }
    if k + 1 < INFINITE {
      GridIncreasing(k + 1, INFINITE);
      AgainstLess(2 * Grid(k + 1), 2 * Grid(INFINITE), num, den);
    }
  }

  // ----- The bits that packing works on -----

  function Pack(sign: bool, exp: nat, sig: nat): Word32 {
    ((if sign then SIGN_BIT else 0) + exp * HIDDEN + sig) % WORD32
  }

  function ShiftRightJam32(a: Word32, dist: nat): nat {
    if dist < 31 then
      var q := a / Pow2(dist);
      if a % Pow2(dist) != 0 && q % 2 == 0 then q + 1 else q
    else if a != 0 then 1 else 0
  }

  /** The increment that rounding adds to the seven bits to be cut off. */
  function RoundIncrement(mode: RoundingMode, sign: bool): (inc: nat)
    ensures inc < 0x80
  {
    match mode
    case RoundNearEven => 0x40
    case RoundNearMaxMag => 0x40
    case RoundMin => if sign then 0x7F else 0
    case RoundMax => if sign then 0 else 0x7F
    case _ => 0
  }

  // ----- The value to be packed -----

  /** `sig` at exponent `exp` stands for the magnitude `Num / Den`, in units of 2^-149. */
  function Num(exp: int, sig: nat): nat {
    if exp >= 0 then sig * Pow2(exp) else sig
  }

  function Den(exp: int): (den: nat)
    ensures den > 0
  {
    if exp >= 0 then 128 else 128 * Pow2(-exp)
  }

  lemma ScaledAgainst(h: nat, num: nat, den: nat, p: nat)
    requires p > 0
    ensures Against(h * p, num * p, den) == Against(h, num, den)
  {
    ScaledOrder(h * den, 2 * num, p, (h * p) * den, 2 * (num * p), 1);
    Swapped(h, p, den);
    Swapped(2, num, p);
  }

  lemma StepAgainst(exp: nat, q: nat, sig: nat, g: nat, g': nat)
    requires g == q * Pow2(exp) && g' == (q + 1) * Pow2(exp)
    ensures Against(2 * g, Num(exp, sig), Den(exp)) == Against(2 * q, sig, 128)
    ensures Against(g + g', Num(exp, sig), Den(exp)) == Against(2 * q + 1, sig, 128)
    ensures Against(2 * g', Num(exp, sig), Den(exp)) == Against(2 * q + 2, sig, 128)
  {
    hide Pow2, Against;
    var p := Pow2(exp);
    Halves(q, p);
    ScaledAgainst(2 * q, sig, 128, p);
    ScaledAgainst(2 * q + 1, sig, 128, p);
    ScaledAgainst(2 * q + 2, sig, 128, p);
  }

  lemma Halves(q: nat, p: nat)
    ensures 2 * (q * p) == (2 * q) * p && 2 * ((q + 1) * p) == (2 * q + 2) * p && q * p + (q + 1) * p == (2 * q + 1) * p
  {
  }

  lemma SameParity(exp: nat, q: nat)
    ensures (exp * HIDDEN + q) % 2 == q % 2
  {
    DivModFacts(q, 2);
    DivUnique(exp * HIDDEN + q, 2, exp * (HIDDEN / 2) + q / 2);
  }

  /** A normal value lies between its truncation and the next magnitude. */
  lemma NormalBracket(exp: nat, sig: nat)
    requires exp <= 0xFD && SIGN_BIT / 2 <= sig < SIGN_BIT
    ensures Bracket(Num(exp, sig), Den(exp), exp * HIDDEN + sig / 0x80, sig % 0x80)
  {
    hide Pow2, Grid, Against, Num, Den;
    var q, k := sig / 0x80, exp * HIDDEN + sig / 0x80;
    DivModFacts(sig, 0x80);
    GridAt(exp, q);
    GridAt(exp, q + 1);
    StepAgainst(exp, q, sig, Grid(k), Grid(k + 1));
    InTheStep(q, sig);
  }

  lemma InTheStep(q: nat, sig: nat)
    requires sig / 0x80 == q
    ensures Against(2 * q, sig, 128) == (if sig % 0x80 == 0 then Equal else Below)
    ensures Against(2 * q + 1, sig, 128)
         == (if sig % 0x80 < 64 then Above else if sig % 0x80 == 64 then Equal else Below)
    ensures Against(2 * q + 2, sig, 128) == Above
  {
    DivModFacts(sig, 0x80);
  }

  /** The jamming shift keeps every comparison with an even multiple. */
  lemma JamOrder(sig: nat, dist: nat, half: nat)
    requires sig < SIGN_BIT
    ensures Against(4 * half, sig, Pow2(dist)) == Against(4 * half, ShiftRightJam32(sig, dist), 1)
  {
    hide Pow2, ShiftRightJam32;
    var a := sig / Pow2(dist);
    JamIs(sig, dist);
    DivModFacts(sig, Pow2(dist));
    OddOrEven(a, half);
    WholeSteps(2 * half, a, sig, sig % Pow2(dist), Pow2(dist));
  }

  lemma OddOrEven(a: nat, half: nat)
    ensures a % 2 == 0 || a % 2 == 1
    ensures 2 * half == a ==> a % 2 == 0
    ensures 2 * half == a + 1 ==> a % 2 == 1
  {
    DivModFacts(a, 2);
    DivUnique(2 * half, 2, half);
  }

  /** How `m` whole steps of width `p` compare with `a` steps and a rest. */
  lemma WholeSteps(m: nat, a: nat, sig: nat, rest: nat, p: nat)
    requires sig == a * p + rest && rest < p
    ensures m < a ==> m * p < sig
    ensures m == a ==> m * p + rest == sig
    ensures m > a ==> m * p > sig
    ensures Against(2 * m, sig, p) == if m > a then Above else if m == a && rest == 0 then Equal else Below
  {
    if m < a {
      MulStep(m, a, p);
    } else if m > a {
      MulStep(a, m, p);
    }
    assert (2 * m) * p == 2 * (m * p);
  }

  lemma JamIs(sig: nat, dist: nat)
    requires sig < SIGN_BIT
    ensures var a := sig / Pow2(dist);
            ShiftRightJam32(sig, dist) == (if sig % Pow2(dist) != 0 && a % 2 == 0 then a + 1 else a)
  {
    hide Pow2;
    if dist >= 31 {
      SmallPowers();
      Pow2Sum(24, 7);
      Pow2Monotone(31, dist);
      DivUnique(sig, Pow2(dist), 0);
    }
  }

  lemma JamFits(sig: nat, dist: nat)
    requires sig < SIGN_BIT && dist > 0
    ensures ShiftRightJam32(sig, dist) <= SIGN_BIT / 2 && (sig == 0 ==> ShiftRightJam32(sig, dist) == 0)
  {
    hide Pow2, ShiftRightJam32;
    JamIs(sig, dist);
    SmallPowers();
    Pow2Monotone(1, dist);
    HalfAtMost(sig, Pow2(dist));
  }

  lemma HalfAtMost(a: nat, p: nat)
    requires p >= 2
    ensures 0 <= a / p && 2 * (a / p) <= a && (a == 0 ==> a / p == 0 && a % p == 0)
  {
    DivModFacts(a, p);
    if a == 0 {
      DivUnique(a, p, 0);
    }
    MulMonotone(2, p, a / p);
  }

  /** So does a subnormal one, in the low bits of its jammed significand. */
  lemma SubnormalBracket(exp: int, sig: nat)
    requires exp < 0 && sig < SIGN_BIT
    ensures var s := ShiftRightJam32(sig, -exp);
            Bracket(Num(exp, sig), Den(exp), s / 0x80, s % 0x80) && s / 0x80 <= HIDDEN
  {
    hide Pow2, Grid, Against, ShiftRightJam32;
    var s, p := ShiftRightJam32(sig, -exp), Pow2(-exp);
    var q := s / 0x80;
    JamFits(sig, -exp);
    DivModFacts(s, 0x80);
    SmallPowers();
    GridAt(0, q);
    GridAt(0, q + 1);
    JamAgainst(sig, -exp, 2 * q);
    JamAgainst(sig, -exp, 2 * q + 1);
    JamAgainst(sig, -exp, 2 * q + 2);
    InTheStep(q, s);
  }

  lemma JamAgainst(sig: nat, dist: nat, h: nat)
    requires sig < SIGN_BIT
    ensures Against(h, sig, 128 * Pow2(dist)) == Against(h, ShiftRightJam32(sig, dist), 128)
  {
    hide Pow2, ShiftRightJam32, Against;
    JamOrder(sig, dist, 32 * h);
    MovedFactor(h, sig, Pow2(dist));
    MovedFactor(h, ShiftRightJam32(sig, dist), 1);
  }

  lemma MovedFactor(h: nat, num: nat, den: nat)
    ensures Against(h, num, 128 * den) == Against(2 * (64 * h), num, den)
  {
  }

  // ----- Packing -----

  /**
   The significand is in place, or it may be anything because the exponent says that it is subnormal, or it is zero.
   */
  predicate Packable(exp: int, sig: nat) {
    exp < 0 || sig >= SIGN_BIT / 2 || (sig == 0 && exp <= 0xFD)
  }

  /** The bits that packing rounds to 24: a subnormal is shifted into place first. */
  function Kept(exp: int, sig: nat): Word32
    requires sig < SIGN_BIT
  {
    if exp < 0 then ShiftRightJam32(sig, -exp) else sig
  }

  /** What packing makes of them. */
  function Cut(mode: RoundingMode, sign: bool, sig: nat): nat {
    var cut, bits := (sig + RoundIncrement(mode, sign)) / 0x80, sig % 0x80;
    if bits != 0 && mode == RoundOdd then (if cut % 2 == 0 then cut + 1 else cut)
    else if bits == 0x40 && mode == RoundNearEven && cut % 2 == 1 then cut - 1 else cut
  }

  lemma CutIs(mode: RoundingMode, sign: bool, sig: nat)
    ensures var q, bits, dir := sig / 0x80, sig % 0x80, DirectionOf(mode, sign);
            && bits < 128 && sig == q * 128 + bits
            && Cut(mode, sign, sig) == (if RoundsUp(dir, q % 2 == 1, bits) then q + 1 else q)
    ensures RoundIncrement(mode, sign) == 0 <==> DirectionOf(mode, sign).Inward? || DirectionOf(mode, sign).Odd?
    ensures sig + RoundIncrement(mode, sign) < SIGN_BIT ==> Cut(mode, sign, sig) < 2 * HIDDEN
    ensures RoundIncrement(mode, sign) > 0 && SIGN_BIT <= sig + RoundIncrement(mode, sign) < SIGN_BIT + 128 ==>
              Cut(mode, sign, sig) == 2 * HIDDEN
  {
    DivModFacts(sig, 0x80);
    var q, bits, inc := sig / 0x80, sig % 0x80, RoundIncrement(mode, sign);
    DivUnique(sig + inc, 0x80, if bits + inc < 0x80 then q else q + 1);
  }

  lemma BitsBracket(exp: int, sig: nat)
    requires sig < SIGN_BIT && Packable(exp, sig) && exp <= 0xFD
    ensures var s := Kept(exp, sig);
            var k := if exp < 0 || sig == 0 then s / 0x80 else exp * HIDDEN + s / 0x80;
            k >= 0 && Bracket(Num(exp, sig), Den(exp), k, s % 0x80) && k % 2 == s / 0x80 % 2
  {
    hide Pow2, Grid, Against, ShiftRightJam32;
    if exp < 0 {
      SubnormalBracket(exp, sig);
    } else if sig == 0 {
      ZeroBracket(Den(exp));
    } else {
      NormalBracket(exp, sig);
      SameParity(exp, sig / 0x80);
    }
  }

  lemma ZeroBracket(den: nat)
    requires den > 0
    ensures Bracket(0, den, 0, 0)
  {
    hide Pow2, Grid;
    SmallPowers();
    GridAt(0, 0);
    GridAt(0, 1);
  }

  /** What the code calls tiny. */
  predicate IsTiny(mode: RoundingMode, sign: bool, before: bool, exp: int, sig: nat) {
    exp < 0 && (before || exp < -1 || sig + RoundIncrement(mode, sign) < SIGN_BIT)
  }

  /** It is tiny in the sense of the standard: below the normal numbers, before or after rounding. */
  lemma TinyIs(mode: RoundingMode, sign: bool, before: bool, exp: int, sig: nat)
    requires sig < SIGN_BIT && Packable(exp, sig) && sig > 0
    ensures IsTiny(mode, sign, before, exp, sig) <==>
            Against(2 * HIDDEN, Num(exp, sig), Den(exp)) == Above
            && (before || !BecomesNormal(DirectionOf(mode, sign), Num(exp, sig), Den(exp)))
  {
    hide Pow2;
    SmallPowers();
    if exp >= 0 {
      MulMonotone(1, Pow2(exp), sig);
    } else if exp < -1 {
      Pow2Monotone(2, -exp);
      FarBelowNormal(sig, Den(exp));
    }
  }

  lemma FarBelowNormal(sig: nat, den: nat)
    requires sig < SIGN_BIT && den >= 512
    ensures Against(2 * HIDDEN, sig, den) == Above && Against(2 * HIDDEN - 1, sig, den) == Above
    ensures Against(4 * HIDDEN - 1, 2 * sig, den) == Above
  {
    MulMonotone(512, den, 2 * HIDDEN);
    MulMonotone(512, den, 2 * HIDDEN - 1);
    MulMonotone(512, den, 4 * HIDDEN - 1);
  }

  /** The exponent field and the cut significand, in the low bits of the packed word. */
  function Packed(mode: RoundingMode, sign: bool, exp: int, sig: nat): int
    requires sig < SIGN_BIT
  {
    var cut := Cut(mode, sign, Kept(exp, sig));
    if exp < 0 || cut == 0 then cut else exp * HIDDEN + cut
  }

  /** Packing without overflow. */
  lemma PackedRounds(mode: RoundingMode, sign: bool, before: bool, exp: int, sig: nat)
    requires sig < SIGN_BIT && Packable(exp, sig) && exp <= 0xFD
    requires exp == 0xFD ==> sig + RoundIncrement(mode, sign) < SIGN_BIT
    ensures var k, dir, num, den := Packed(mode, sign, exp, sig), DirectionOf(mode, sign), Num(exp, sig), Den(exp);
            && 0 <= k < INFINITE && Rounds(dir, num, den, k)
            && FlagsFor(dir, num, den, k, before)
               == (if Kept(exp, sig) % 0x80 != 0 then {Inexact} else {})
                  + (if IsTiny(mode, sign, before, exp, sig) && Kept(exp, sig) % 0x80 != 0 then {Underflow} else {})
  {
    hide Pow2, Grid, Against, ShiftRightJam32, Cut, Num, Den, Rounds, IsInexact, Overflows, BecomesNormal,
      RoundIncrement, IsTiny, RoundsUp;
    var s, num, den, dir := Kept(exp, sig), Num(exp, sig), Den(exp), DirectionOf(mode, sign);
    CutIs(mode, sign, s);
    BitsBracket(exp, sig);
    ChosenRounds(dir, num, den, if exp < 0 || sig == 0 then s / 0x80 else exp * HIDDEN + s / 0x80, s % 0x80);
    KeptFits(mode, sign, exp, sig);
    if sig > 0 {
      TinyIs(mode, sign, before, exp, sig);
    }
  }

  lemma KeptFits(mode: RoundingMode, sign: bool, exp: int, sig: nat)
    requires sig < SIGN_BIT && Packable(exp, sig) && exp <= 0xFD
    requires exp == 0xFD ==> sig + RoundIncrement(mode, sign) < SIGN_BIT
    ensures 0 <= Packed(mode, sign, exp, sig) < INFINITE
    ensures exp >= 0 && sig > 0 ==> Cut(mode, sign, sig) >= HIDDEN
    ensures sig == 0 ==> Kept(exp, sig) == 0 && Cut(mode, sign, 0) == 0
  {
    hide Pow2, ShiftRightJam32, RoundIncrement, Cut;
    CutIs(mode, sign, Kept(exp, sig));
    if exp < 0 {
      JamFits(sig, -exp);
    }
  }

  /** Past the largest finite magnitude, or rounded up from there. */
  lemma OverflowRounds(mode: RoundingMode, sign: bool, before: bool, exp: int, sig: nat)
    requires SIGN_BIT / 2 <= sig < SIGN_BIT && exp >= 0xFD
    requires exp == 0xFD ==> SIGN_BIT <= sig + RoundIncrement(mode, sign)
    ensures var dir, num, den := DirectionOf(mode, sign), Num(exp, sig), Den(exp);
            var k := if RoundIncrement(mode, sign) == 0 then MAX_FINITE else INFINITE;
            Rounds(dir, num, den, k) && FlagsFor(dir, num, den, k, before) == {Overflow, Inexact}
  {
    hide Pow2, Grid, Against, Num, Den, RoundIncrement, BecomesNormal;
    var num, den, dir := Num(exp, sig), Den(exp), DirectionOf(mode, sign);
    CutIs(mode, sign, sig);
    NotTiny(exp, sig);
    if exp == 0xFD {
      NormalBracket(exp, sig);
      LastStep(mode, sign, sig);
      ChosenRounds(dir, num, den, MAX_FINITE, sig % 0x80);
    } else {
      AllBelow(exp, sig);
      PastAll(dir, num, den);
    }
  }

  lemma NotTiny(exp: nat, sig: nat)
    requires SIGN_BIT / 2 <= sig
    ensures Against(2 * HIDDEN, Num(exp, sig), Den(exp)) != Above
  {
    MulMonotone(1, Pow2(exp), sig);
  }

  lemma LastStep(mode: RoundingMode, sign: bool, sig: nat)
    requires SIGN_BIT / 2 <= sig < SIGN_BIT <= sig + RoundIncrement(mode, sign)
    ensures 0xFD * HIDDEN + sig / 0x80 == MAX_FINITE && sig % 0x80 != 0 && RoundIncrement(mode, sign) > 0
    ensures Chosen(DirectionOf(mode, sign), MAX_FINITE, sig % 0x80) == INFINITE
  {
    DivUnique(sig, 0x80, 0xFF_FFFF);
  }

  lemma AllBelow(exp: nat, sig: nat)
    requires exp > 0xFD && SIGN_BIT / 2 <= sig
    ensures Against(2 * Grid(INFINITE), Num(exp, sig), Den(exp)) != Above
  {
    hide Pow2, Grid;
    GridAt(0xFD, 2 * HIDDEN);
    Pow2Monotone(0xFE, exp);
    Pow2Sum(0xFD, 1);
    SmallPowers();
    var p := Pow2(0xFD);
    MulMonotone(SIGN_BIT / 2, sig, Pow2(exp));
    assert (SIGN_BIT / 2) * Pow2(exp) >= SIGN_BIT * p;
    assert Grid(INFINITE) == (2 * HIDDEN) * p;
  }

  lemma PastAll(dir: Direction, num: nat, den: nat)
    requires den > 0 && Against(2 * Grid(INFINITE), num, den) != Above
    ensures var k := if dir.Inward? || dir.Odd? then MAX_FINITE else INFINITE;
            Rounds(dir, num, den, k) && IsInexact(num, den, k) && Overflows(dir, num, den, k)
  {
    hide Grid, Against;
    GridStep(MAX_FINITE);
    GridStep(MAX_FINITE - 1);
    AgainstLess(2 * Grid(MAX_FINITE), 2 * Grid(INFINITE), num, den);
    AgainstLess(Mid(MAX_FINITE), 2 * Grid(INFINITE), num, den);
    AgainstLess(2 * Grid(MAX_FINITE - 1), 2 * Grid(INFINITE), num, den);
  }

  lemma PackedBits(sign: bool, exp: nat, sig: nat)
    requires exp * HIDDEN + sig < SIGN_BIT
    ensures Negative(Pack(sign, exp, sig)) == sign && Pack(sign, exp, sig) % SIGN_BIT == exp * HIDDEN + sig
  {
    var low := exp * HIDDEN + sig;
    DivUnique((if sign then SIGN_BIT else 0) + low, WORD32, 0);
    DivUnique((if sign then SIGN_BIT else 0) + low, SIGN_BIT, if sign then 1 else 0);
  }

  /** A packed word is the value correctly rounded, and the flags raised are exactly those that are due. */
  predicate IsRounded(mode: RoundingMode, before: bool, sign: bool, num: nat, den: nat, z: Word32, raised: set<Flag>) {
    var dir, k := DirectionOf(mode, sign), z % SIGN_BIT;
    Negative(z) == sign && Rounds(dir, num, den, k) && raised == FlagsFor(dir, num, den, k, before)
  }

  function Raised(mode: RoundingMode, sign: bool, before: bool, exp: int, sig: nat): set<Flag>
    requires sig < SIGN_BIT
  {
    if Kept(exp, sig) % 0x80 == 0 then {} else if IsTiny(mode, sign, before, exp, sig) then {Underflow, Inexact}
    else {Inexact}
  }

  lemma PackedResult(mode: RoundingMode, sign: bool, before: bool, exp: int, sig: nat)
    requires sig < SIGN_BIT && (exp < 0xFD || (exp == 0xFD && sig + RoundIncrement(mode, sign) < SIGN_BIT))
    ensures var cut := Cut(mode, sign, Kept(exp, sig));
            var z := Pack(sign, if exp < 0 || cut == 0 then 0 else exp, cut);
            Packable(exp, sig) ==>
              IsRounded(mode, before, sign, Num(exp, sig), Den(exp), z, Raised(mode, sign, before, exp, sig))
  {
    hide Pack, Cut, Kept, Rounds, FlagsFor, RoundIncrement, IsTiny, Num, Den, Packable;
    if Packable(exp, sig) {
      PackedRounds(mode, sign, before, exp, sig);
      var cut := Cut(mode, sign, Kept(exp, sig));
      PackedBits(sign, if exp < 0 || cut == 0 then 0 else exp, cut);
    }
  }

  lemma OverflowResult(mode: RoundingMode, sign: bool, before: bool, exp: int, sig: nat)
    requires sig < SIGN_BIT && (exp > 0xFD || (exp == 0xFD && SIGN_BIT <= sig + RoundIncrement(mode, sign)))
    ensures var z := (Pack(sign, 0xFF, 0) + (if RoundIncrement(mode, sign) == 0 then WORD32 - 1 else 0)) % WORD32;
            Packable(exp, sig) ==> IsRounded(mode, before, sign, Num(exp, sig), Den(exp), z, {Overflow, Inexact})
  {
    hide Pack, Rounds, FlagsFor, Num, Den;
    InfiniteWord(sign, RoundIncrement(mode, sign) == 0);
    if Packable(exp, sig) {
      OverflowRounds(mode, sign, before, exp, sig);
    }
  }

  /**
   Rounds a 31-bit significand to 24 bits and packs it: correctly in every mode, with exactly the flags that are due.
   */
  method RoundPackToF32(env: FloatState, sign: bool, exp0: int, sig0: nat) returns (z: Word32, ghost raised: set<Flag>)
    requires sig0 < SIGN_BIT
    modifies env
    ensures env.exceptionFlags == old(env.exceptionFlags) + raised
    ensures Packable(exp0, sig0) ==>
              IsRounded(env.roundingMode, env.tininessBeforeRounding, sign, Num(exp0, sig0), Den(exp0), z, raised)
  {
    hide Pow2, Pack, IsRounded, Num, Den, Cut, RoundIncrement, ShiftRightJam32, Packable;
    var exp, sig := exp0, sig0;
    var roundNearEven := env.roundingMode == RoundNearEven;
    var roundIncrement := RoundIncrement(env.roundingMode, sign);
    var roundBits := sig % 0x80;
    if exp < 0 {
      var isTiny := env.tininessBeforeRounding || exp < -1 || sig + roundIncrement < SIGN_BIT;
      sig := ShiftRightJam32(sig, -exp);
      exp := 0;
      roundBits := sig % 0x80;
      if isTiny && roundBits != 0 {
        env.RaiseFlags({Underflow});
      }
    } else if 0xFD < exp || (0xFD == exp && SIGN_BIT <= sig + roundIncrement) {
      OverflowResult(env.roundingMode, sign, env.tininessBeforeRounding, exp0, sig0);
      env.RaiseFlags({Overflow, Inexact});
      return (Pack(sign, 0xFF, 0) + (if roundIncrement == 0 then WORD32 - 1 else 0)) % WORD32, {Overflow, Inexact};
    }
    PackedResult(env.roundingMode, sign, env.tininessBeforeRounding, exp0, sig0);
    CutUnfolds(env.roundingMode, sign, sig);
    raised := Raised(env.roundingMode, sign, env.tininessBeforeRounding, exp0, sig0);
    sig := (sig + roundIncrement) / 0x80;
    if roundBits != 0 {
      env.RaiseFlags({Inexact});
      if env.roundingMode == RoundOdd {
        z := Pack(sign, exp, if sig % 2 == 0 then sig + 1 else sig);
        return;
      }
    }
    if roundBits == 0x40 && roundNearEven && sig % 2 == 1 {
      sig := sig - 1;
    }
    if sig == 0 {
      exp := 0;
    }
    z := Pack(sign, exp, sig);
  }

  lemma CutUnfolds(mode: RoundingMode, sign: bool, sig: nat)
    ensures var cut, bits := (sig + RoundIncrement(mode, sign)) / 0x80, sig % 0x80;
            Cut(mode, sign, sig) == if bits != 0 && mode == RoundOdd then (if cut % 2 == 0 then cut + 1 else cut)
            else if bits == 0x40 && mode == RoundNearEven && cut % 2 == 1 then cut - 1 else cut
  {
  }

  /** An infinity, or the largest finite number just before it. */
  lemma InfiniteWord(sign: bool, less: bool)
    ensures var z := (Pack(sign, 0xFF, 0) + (if less then WORD32 - 1 else 0)) % WORD32;
            Negative(z) == sign && z % SIGN_BIT == if less then MAX_FINITE else INFINITE
  {
    PackedBits(sign, 0xFF, 0);
    hide Pack;
    var w := Pack(sign, 0xFF, 0);
    DivModFacts(w, SIGN_BIT);
    DivUnique(w, SIGN_BIT, if sign then 1 else 0);
    if less {
      DivUnique(w + WORD32 - 1, WORD32, 1);
      DivUnique(w - 1, SIGN_BIT, if sign then 1 else 0);
    } else {
      DivUnique(w, WORD32, 0);
    }
  }

  // ----- Normalizing before packing -----

  lemma LeadingShift(sig: nat)
    requires sig < SIGN_BIT
    ensures var c := CountLeadingZeros32(sig);
            && 1 <= c && 0 <= sig * Pow2(c - 1) < SIGN_BIT
            && (sig == 0 ==> c == 32) && (sig > 0 ==> c < 32 && sig * Pow2(c - 1) >= 0x4000_0000)
  {
    hide Pow2, Coarse, CountLeadingZeros8, CountLeadingZeros32;
    if sig > 0 {
      LeadingZeros32(sig);
      NotZeroShift(sig, CountLeadingZeros32(sig));
      HalfShift(sig, CountLeadingZeros32(sig));
    } else {
      AllZeros();
    }
  }

  lemma AllZeros()
    ensures CountLeadingZeros32(0) == 32
  {
  }

  lemma NotZeroShift(sig: nat, c: nat)
    requires sig < SIGN_BIT && sig * Pow2(c) >= SIGN_BIT
    ensures c > 0
  {
  }

  lemma HalfShift(sig: nat, c: nat)
    requires c > 0 && SIGN_BIT <= sig * Pow2(c) < WORD32
    ensures 0x4000_0000 <= sig * Pow2(c - 1) < SIGN_BIT
  {
    assert sig * Pow2(c) == 2 * (sig * Pow2(c - 1));
  }

  /** Shifting the significand up and the exponent down is another way of writing the same value. */
  lemma Shifted(exp: int, sig: nat, shift: nat)
    ensures 0 <= sig * Pow2(shift) && Num(exp, sig) * Den(exp - shift) == Num(exp - shift, sig * Pow2(shift)) * Den(exp)
  {
    hide Pow2;
    MulMonotone(0, sig, Pow2(shift));
    if exp >= shift {
      Pow2Sum(shift, exp - shift);
      Regrouped(sig, Pow2(shift), Pow2(exp - shift));
    } else if exp >= 0 {
      Pow2Sum(exp, shift - exp);
      Regrouped(sig, Pow2(exp), Pow2(shift - exp));
      Times128(sig * Pow2(exp), Pow2(shift - exp));
    } else {
      Pow2Sum(shift, -exp);
      Regrouped(sig, Pow2(shift), Pow2(-exp));
      Times128(sig * Pow2(shift), Pow2(-exp));
      Times128(sig, Pow2(shift - exp));
    }
  }

  lemma Times128(a: int, p: int)
    ensures a * (128 * p) == (a * p) * 128
  {
  }

  /** Rounding depends on the value only. */
  lemma SameRounding(dir: Direction, num: nat, den: nat, num': nat, den': nat, k: nat, before: bool)
    requires den > 0 && den' > 0 && num * den' == num' * den
    ensures Rounds(dir, num, den, k) == Rounds(dir, num', den', k)
    ensures FlagsFor(dir, num, den, k, before) == FlagsFor(dir, num', den', k, before)
  {
    hide Grid, Against;
    forall h: nat ensures Against(h, num, den) == Against(h, num', den') {
      SameValue(h, num, den, num', den');
    }
    Swapped(2, num, den');
    Swapped(2, num', den);
    forall h: nat ensures Against(h, 2 * num, den) == Against(h, 2 * num', den') {
      SameValue(h, 2 * num, den, 2 * num', den');
    }
  }

  /**
   Shifts the leading bit into place and packs: correctly rounded like any other value, subnormals and zero included.
   */
  method NormRoundPackToF32(env: FloatState, sign: bool, exp: int, sig: nat)
    returns (z: Word32, ghost raised: set<Flag>)
    requires sig < SIGN_BIT
    modifies env
    ensures env.exceptionFlags == old(env.exceptionFlags) + raised
    ensures sig > 0 || exp <= 0xFD + 31 ==>
              IsRounded(env.roundingMode, env.tininessBeforeRounding, sign, Num(exp, sig), Den(exp), z, raised)
  {
    hide Pow2, Pack, IsRounded, Num, Den, Coarse, CountLeadingZeros32;
    LeadingShift(sig);
    var shift := CountLeadingZeros32(sig) - 1;
    ghost var mode, before := env.roundingMode, env.tininessBeforeRounding;
    if 7 <= shift && 0 <= exp - shift < 0xFD {
      DirectPacking(mode, before, sign, exp, sig, shift);
      return Pack(sign, if sig != 0 then exp - shift else 0, sig * Pow2(shift - 7)), {};
    }
    z, raised := RoundPackToF32(env, sign, exp - shift, sig * Pow2(shift));
    ShiftedResult(mode, before, sign, exp, sig, shift, z, raised);
  }

  lemma ShiftedResult(mode: RoundingMode, before: bool, sign: bool, exp: int, sig: nat, shift: nat, z: Word32,
                      raised: set<Flag>)
    requires 0 <= sig * Pow2(shift)
    ensures IsRounded(mode, before, sign, Num(exp - shift, sig * Pow2(shift)), Den(exp - shift), z, raised) ==>
              IsRounded(mode, before, sign, Num(exp, sig), Den(exp), z, raised)
  {
    hide Pow2, Num, Den, Rounds, FlagsFor;
    Shifted(exp, sig, shift);
    SameRounding(DirectionOf(mode, sign), Num(exp, sig), Den(exp), Num(exp - shift, sig * Pow2(shift)),
                 Den(exp - shift), z % SIGN_BIT, before);
  }

  /** An exact value is its own rounding, without flags. */
  lemma ExactRounds(dir: Direction, num: nat, den: nat, k: nat, before: bool)
    requires den > 0 && k <= MAX_FINITE && Against(2 * Grid(k), num, den) == Equal
    ensures Rounds(dir, num, den, k) && FlagsFor(dir, num, den, k, before) == {}
  {
    hide Grid, Against, Rounds, IsInexact, Overflows;
    GridStep(k);
    AgainstLess(2 * Grid(k), Mid(k), num, den);
    AgainstLess(2 * Grid(k), 2 * Grid(k + 1), num, den);
    ChosenRounds(dir, num, den, k, 0);
  }

  lemma DirectPacking(mode: RoundingMode, before: bool, sign: bool, exp: int, sig: nat, shift: nat)
    requires 7 <= shift && 0 <= exp - shift < 0xFD && 0 <= sig * Pow2(shift) < SIGN_BIT
    requires sig > 0 ==> sig * Pow2(shift) >= SIGN_BIT / 2
    ensures 0 <= sig * Pow2(shift - 7)
    ensures var z := Pack(sign, if sig != 0 then exp - shift else 0, sig * Pow2(shift - 7));
            IsRounded(mode, before, sign, Num(exp, sig), Den(exp), z, {})
  {
    hide Pow2, Num, Den, Rounds, FlagsFor, Pack;
    var s24, e := sig * Pow2(shift - 7), if sig != 0 then exp - shift else 0;
    MulMonotone(0, sig, Pow2(shift - 7));
    SmallPowers();
    Pow2Sum(shift - 7, 7);
    Regrouped(sig, Pow2(shift - 7), 128);
    PackedBits(sign, e, s24);
    DirectExact(exp - shift, s24, e);
    ExactRounds(DirectionOf(mode, sign), Num(exp - shift, s24 * 128), Den(exp - shift), e * HIDDEN + s24, before);
    ShiftedResult(mode, before, sign, exp, sig, shift, Pack(sign, e, s24), {});
  }

  lemma DirectExact(exp: nat, s24: nat, e: nat)
    requires exp < 0xFD && s24 < 2 * HIDDEN && if s24 == 0 then e == 0 else s24 >= HIDDEN && e == exp
    ensures e * HIDDEN + s24 <= MAX_FINITE && Against(2 * Grid(e * HIDDEN + s24), Num(exp, s24 * 128), Den(exp))
                                              == Equal
  {
    hide Pow2, Grid;
    GridAt(e, s24);
    Swapped(s24, 128, Pow2(exp));
  }

  // ----- What rounding determines -----

  /** A value has only one rounding. */
  lemma RoundedOnce(dir: Direction, num: nat, den: nat, j: nat, k: nat)
    requires den > 0 && Rounds(dir, num, den, j) && Rounds(dir, num, den, k)
    ensures j == k
  {
    hide Grid, Against, Rounds;
    if j < k {
      NotBoth(dir, num, den, j, k);
    } else if k < j {
      NotBoth(dir, num, den, k, j);
    }
  }

  lemma NotBoth(dir: Direction, num: nat, den: nat, j: nat, k: nat)
    requires den > 0 && j < k
    ensures !(Rounds(dir, num, den, j) && Rounds(dir, num, den, k))
  {
    hide Grid, Against;
    StepsApart(num, den, j, j + 1, k);
    StepsApart(num, den, j, k - 1, k);
    StepsApart(num, den, j, k - 1, k + 1);
    if j < k - 1 {
      StepsApart(num, den, j + 1, k - 1, k);
      MidsApart(num, den, j, k - 1);
    }
  }

  /** Comparisons with one grid point decide those with the points before and after it. */
  lemma StepsApart(num: nat, den: nat, i: nat, j: nat, k: nat)
    requires den > 0 && i <= j <= k
    ensures Against(2 * Grid(j), num, den) != Below && j < k ==> Against(2 * Grid(k), num, den) == Above
    ensures Against(2 * Grid(j), num, den) != Above && i < j ==> Against(2 * Grid(i), num, den) == Below
    ensures i < k ==> (Against(2 * Grid(i), num, den) != Below ==> Against(2 * Grid(k), num, den) == Above)
  {
    hide Grid, Against;
    if i < j {
      GridIncreasing(i, j);
      AgainstLess(2 * Grid(i), 2 * Grid(j), num, den);
    }
    if j < k {
      GridIncreasing(j, k);
      AgainstLess(2 * Grid(j), 2 * Grid(k), num, den);
    }
  }

  lemma MidsApart(num: nat, den: nat, i: nat, j: nat)
    requires den > 0 && i < j
    ensures Against(Mid(i), num, den) != Below ==> Against(Mid(j), num, den) == Above
  {
    hide Grid, Against;
    GridIncreasing(i, j);
    GridIncreasing(i + 1, j + 1);
    AgainstLess(Mid(i), Mid(j), num, den);
  }

  function Distance(k: nat, num: nat, den: nat): nat {
    if Grid(k) * den <= num then num - Grid(k) * den else Grid(k) * den - num
  }

  /** Looking at the neighbours is enough: the rounded magnitude is the best of all finite ones. */
  lemma BestOfAll(dir: Direction, num: nat, den: nat, k: nat, j: nat)
    requires den > 0 && Rounds(dir, num, den, k) && k <= MAX_FINITE && j <= MAX_FINITE
    ensures dir.Inward? ==> Grid(k) * den <= num && (Grid(j) * den <= num ==> j <= k)
    ensures dir.Outward? ==> num <= Grid(k) * den && (num <= Grid(j) * den ==> k <= j)
    ensures dir.Closest? ==> Distance(k, num, den) <= Distance(j, num, den)
    ensures dir.Odd? ==> Grid(k) * den == num || (k % 2 == 1 && Grid(j) * den != num)
  {
    hide Grid, Against, Distance, Rounds;
    OnSide(k, num, den);
    OnSide(j, num, den);
    RoundsUnfolds(dir, num, den, k);
    if dir.Closest? {
      NearestOfAll(num, den, k, j);
    } else if j < k {
      StepsApart(num, den, j, k - 1, k);
    } else if j > k {
      StepsApart(num, den, k, k + 1, j);
    }
  }

  lemma OnSide(k: nat, num: nat, den: nat)
    ensures Against(2 * Grid(k), num, den) == if Grid(k) * den < num then Below else if Grid(k) * den == num then Equal
                                              else Above
  {
    hide Grid;
    assert (2 * Grid(k)) * den == 2 * (Grid(k) * den);
  }

  lemma RoundsUnfolds(dir: Direction, num: nat, den: nat, k: nat)
    requires Rounds(dir, num, den, k)
    ensures match dir
            case Inward => ToZero(num, den, k)
            case Outward => FromZero(num, den, k)
            case Closest(even) => ToNearest(num, den, k, even)
            case Odd => ToOdd(num, den, k)
  {
  }

  lemma NearestOfAll(num: nat, den: nat, k: nat, j: nat)
    requires k <= MAX_FINITE && Against(Mid(k), num, den) != Below && (k > 0 ==> Against(Mid(k - 1), num, den) != Above)
    ensures Distance(k, num, den) <= Distance(j, num, den)
  {
    hide Grid;
    if j < k {
      GridUpTo(j, k - 1);
      MulMonotone(Grid(j), Grid(k - 1), den);
      GridUpTo(j, k);
      MulMonotone(Grid(j), Grid(k), den);
      MidSum(k - 1, den);
    } else if j > k {
      GridUpTo(k + 1, j);
      MulMonotone(Grid(k + 1), Grid(j), den);
      GridUpTo(k, j);
      MulMonotone(Grid(k), Grid(j), den);
      MidSum(k, den);
    }
  }

  lemma MidSum(k: nat, den: nat)
    ensures Mid(k) * den == Grid(k) * den + Grid(k + 1) * den
  {
    hide Grid;
  }

  lemma GridUpTo(j: nat, k: nat)
    requires j <= k
    ensures Grid(j) <= Grid(k)
  {
    hide Grid;
    if j < k {
      GridIncreasing(j, k);
    }
  }

  /** The magnitude of a finite word is its place in the grid. */
  lemma WordGrid(z: Word32)
    ensures z % SIGN_BIT < INFINITE ==> Finite(z) && Magnitude(z) == Grid(z % SIGN_BIT)
  {
    hide FieldsMagnitude;
    var low, s := z % SIGN_BIT, if z >= SIGN_BIT then 1 else 0;
    DivUnique(z, SIGN_BIT, s);
    DivModFacts(low, HIDDEN);
    if low < INFINITE {
      DivUnique(z, HIDDEN, s * 0x100 + low / HIDDEN);
      DivUnique(s * 0x100 + low / HIDDEN, 0x100, s);
    }
  }

  /** A value that has a place in the grid is packed as it is, in every mode. */
  lemma ExactResult(mode: RoundingMode, before: bool, sign: bool, num: nat, den: nat, z: Word32, raised: set<Flag>,
                    k: nat)
    requires den > 0 && k <= MAX_FINITE && Against(2 * Grid(k), num, den) == Equal
    requires IsRounded(mode, before, sign, num, den, z, raised)
    ensures Finite(z) && Negative(z) == sign && Magnitude(z) == Grid(k) && raised == {}
  {
    hide Grid, Against, Rounds, FlagsFor, Magnitude, Finite;
    var dir := DirectionOf(mode, sign);
    ExactRounds(dir, num, den, k, before);
    RoundedOnce(dir, num, den, k, z % SIGN_BIT);
    WordGrid(z);
  }

  /** Significands of up to 24 bits have their place, subnormal or not. */
  lemma {:induction false} OnGrid(sig: nat, exp: nat) returns (k: nat)
    requires sig < 2 * HIDDEN && exp <= 0xFD
    ensures k <= MAX_FINITE && Grid(k) == sig * Pow2(exp)
    decreases exp
  {
    hide Grid;
    if sig < HIDDEN && exp > 0 {
      k := OnGrid(2 * sig, exp - 1);
      assert sig * (2 * Pow2(exp - 1)) == (2 * sig) * Pow2(exp - 1);
    } else {
      k := exp * HIDDEN + sig;
      GridAt(exp, sig);
    }
  }
}
