/** Single-precision words: their fields, their magnitudes, and normalized significands. */
module F32Bits {
  import opened Arith
  import opened Powers
  import opened F32Rem

  const HIDDEN := 0x80_0000

  function Exp(ui: Word32): nat { (ui / HIDDEN) % 0x100 }

  function Frac(ui: Word32): nat { ui % HIDDEN }

  predicate Negative(ui: Word32) { ui >= SIGN_BIT }

  predicate NaN(ui: Word32) { Exp(ui) == 0xFF && Frac(ui) != 0 }

  predicate Infinite(ui: Word32) { Exp(ui) == 0xFF && Frac(ui) == 0 }

  predicate Finite(ui: Word32) { Exp(ui) != 0xFF }

  /** The first bit of the fraction. */
  predicate QuietBit(ui: Word32) { (ui / 0x40_0000) % 2 == 1 }

  /** All exponent bits set, the quiet bit clear, and some other bit of the fraction set. */
  predicate Signaling(ui: Word32) {
    Exp(ui) == 0xFF && !QuietBit(ui) && ui % 0x40_0000 != 0
  }

  /** All exponent bits and the quiet bit set, sign and all other bits clear. */
  predicate CanonicalNaN(ui: Word32) {
    Exp(ui) == 0xFF && QuietBit(ui) && !Negative(ui) && ui % 0x40_0000 == 0
  }

  const DEFAULT_NAN: Word32 := 0x7FC0_0000

  /** The test of the code: one mask over exponent and quiet bit, another over the rest of the fraction. */
  predicate IsSigNaN(ui: Word32) {
    (ui / 0x40_0000) % 0x200 == 0x1FE && ui % 0x40_0000 != 0
  }

  /** The masks pick out exactly the signaling NaNs. */
  lemma SignalingIs(ui: Word32)
    ensures IsSigNaN(ui) <==> Signaling(ui)
    ensures Signaling(ui) ==> NaN(ui)
    ensures NaN(ui) && !Signaling(ui) ==> QuietBit(ui)
  {
    var top := ui / 0x40_0000;
    DivModFacts(ui, 0x40_0000);
    DivModFacts(top, 0x200);
    DivUnique(ui, HIDDEN, top / 2);
    DivUnique(top / 2, 0x100, top / 0x200);
  }

  /** The default NaN is quiet: its fraction is 2^22, its sign clear. */
  lemma DefaultNaN()
    ensures CanonicalNaN(DEFAULT_NAN) && NaN(DEFAULT_NAN) && !Signaling(DEFAULT_NAN) && Frac(DEFAULT_NAN) == 0x40_0000
  {
  }

  /** Its fields determine the word. */
  lemma CanonicalUnique(y: Word32, z: Word32)
    requires CanonicalNaN(y) && CanonicalNaN(z)
    ensures y == z
  {
  }

  /** The magnitude of a finite word, in units of 2^-149. */
  function Magnitude(ui: Word32): nat {
    FieldsMagnitude(Exp(ui), Frac(ui))
  }

  function FieldsMagnitude(exp: nat, frac: nat): nat {
    if exp == 0 then frac else (HIDDEN + frac) * Pow2(exp - 1)
  }

  /** The value of a finite word in those units. */
  function Value(ui: Word32): int {
    Signed(Negative(ui), Magnitude(ui))
  }

  // ----- Normalizing -----

  /** The table of leading zeros of a byte. */
  function CountLeadingZeros8(b: nat): nat {
    if b >= 0x80 then 0 else if b >= 0x40 then 1 else if b >= 0x20 then 2 else if b >= 0x10 then 3
    else if b >= 8 then 4 else if b >= 4 then 5 else if b >= 2 then 6 else if b >= 1 then 7 else 8
  }

  /** The count so far and the word shifted by it: the leading bit is in the top byte. */
  function Coarse(a: Word32): (nat, nat) {
    var (count, a1) := if a < 0x1_0000 then (16, a * 0x1_0000) else (0, a as nat);
    if a1 < 0x100_0000 then (count + 8, a1 * 0x100) else (count, a1)
  }

  function CountLeadingZeros32(a: Word32): nat {
    Coarse(a).0 + CountLeadingZeros8(Coarse(a).1 / 0x100_0000)
  }

  lemma LeadingZeros8(b: nat)
    requires 0 < b < 256
    ensures CountLeadingZeros8(b) < 8 && 0x80 <= b * Pow2(CountLeadingZeros8(b))
            && (b + 1) * Pow2(CountLeadingZeros8(b)) <= 0x100
  {
    SmallPowers();
  }

  lemma SmallPowers()
    ensures Pow2(0) == 1 && Pow2(1) == 2 && Pow2(2) == 4 && Pow2(3) == 8 && Pow2(4) == 16 && Pow2(5) == 32
            && Pow2(6) == 64 && Pow2(7) == 128
    ensures Pow2(8) == 0x100 && Pow2(16) == 0x1_0000 && Pow2(24) == 0x100_0000
  {
    Pow2Sum(8, 8);
    Pow2Sum(16, 8);
  }

  lemma CoarseShift(a: Word32)
    requires a > 0
    ensures var (count, shifted) := Coarse(a);
            count <= 24 && shifted == a * Pow2(count) && 0x100_0000 <= shifted < WORD32
  {
    SmallPowers();
  }

  /** Shifting left by the count brings the leading bit to the top. */
  lemma LeadingZeros32(a: Word32)
    requires a > 0
    ensures CountLeadingZeros32(a) < 32 && SIGN_BIT <= a * Pow2(CountLeadingZeros32(a)) < WORD32
  {
    hide CountLeadingZeros8, Pow2, Coarse;
    CoarseShift(a);
    var (count, shifted) := Coarse(a);
    var top := shifted / 0x100_0000;
    var c := CountLeadingZeros8(top);
    DivModFacts(shifted, 0x100_0000);
    LeadingZeros8(top);
    Pow2Sum(count, c);
    Regrouped(a, Pow2(count), Pow2(c));
    TopByte(shifted, top, Pow2(c));
  }

  lemma TopByte(a: nat, top: nat, p: nat)
    requires top * 0x100_0000 <= a < top * 0x100_0000 + 0x100_0000 && 0x80 <= top * p && (top + 1) * p <= 0x100 && p > 0
    ensures SIGN_BIT <= a * p < WORD32
  {
    MulMonotone(top * 0x100_0000, a, p);
    MulStep(a, (top + 1) * 0x100_0000, p);
    assert (top * 0x100_0000) * p == (top * p) * 0x100_0000;
    assert ((top + 1) * 0x100_0000) * p == ((top + 1) * p) * 0x100_0000;
  }

  /** `sig` at exponent `exp` stands for the magnitude `mag`; both sides are scaled to stay integral. */
  predicate Denotes(mag: nat, sig: nat, exp: int)
    requires exp >= -29
  {
    mag * Pow2(30) == sig * Pow2(exp + 29)
  }

  /** A subnormal fraction, shifted until its leading bit is in place. */
  method NormSubnormal(frac: nat) returns (exp: int, sig: nat)
    requires 0 < frac < HIDDEN
    ensures -22 <= exp <= 0 && Normalized(sig) && Denotes(frac, sig, exp)
  {
    hide Pow2, CountLeadingZeros32;
    LeadingZeros32(frac);
    var shift := CountLeadingZeros32(frac) - 8;
    SubnormalShift(frac);
    exp, sig := 1 - shift, frac * Pow2(shift);
  }

  lemma SubnormalShift(frac: nat)
    requires 0 < frac < HIDDEN && CountLeadingZeros32(frac) < 32
             && SIGN_BIT <= frac * Pow2(CountLeadingZeros32(frac)) < WORD32
    ensures var shift := CountLeadingZeros32(frac) - 8;
            1 <= shift <= 23 && Normalized(frac * Pow2(shift)) && Denotes(frac, frac * Pow2(shift), 1 - shift)
  {
    hide Pow2, CountLeadingZeros32;
    var c := CountLeadingZeros32(frac);
    SmallPowers();
    TooFew(frac, c);
    Pow2Sum(c - 8, 8);
    Regrouped(frac, Pow2(c - 8), 0x100);
    Pow2Sum(c - 8, 38 - c);
    Regrouped(frac, Pow2(c - 8), Pow2(38 - c));
  }

  lemma TooFew(frac: nat, c: nat)
    requires frac < HIDDEN
    ensures c <= 8 ==> frac * Pow2(c) < SIGN_BIT
  {
    hide Pow2;
    if c <= 8 {
      SmallPowers();
      Pow2Monotone(c, 8);
      MulMonotone(Pow2(c), 0x100, frac);
    }
  }

  /** The significand and exponent of a finite nonzero value. */
  method Normalize(exp: nat, frac: nat) returns (e: int, sig: nat)
    requires exp < 0xFF && frac < HIDDEN && (exp != 0 || frac != 0)
    ensures -22 <= e <= 254 && Normalized(sig) && Denotes(FieldsMagnitude(exp, frac), sig, e)
  {
    hide Pow2;
    e, sig := exp, frac;
    if exp == 0 {
      e, sig := NormSubnormal(frac);
    }
    ghost var normal := exp != 0;
    if sig < HIDDEN {
      sig := sig + HIDDEN;
    }
    if normal {
      NormalDenotes(exp, frac);
    }
  }

  lemma NormalDenotes(exp: nat, frac: nat)
    requires exp > 0
    ensures Denotes((HIDDEN + frac) * Pow2(exp - 1), HIDDEN + frac, exp)
  {
    hide Pow2;
    Pow2Sum(exp - 1, 30);
    Regrouped(HIDDEN + frac, Pow2(exp - 1), Pow2(30));
  }

  lemma Cancel(a: int, b: int, p: int)
    requires p > 0 && a * p == b * p
    ensures a == b
  {
    if a < b {
      MulStep(a, b, p);
    } else if b < a {
      MulStep(b, a, p);
    }
  }

  /** Scaling by positive factors keeps order and equality. */
  lemma ScaledOrder(p: int, q: int, u: nat, p': int, q': int, c: nat)
    requires u > 0 && c > 0 && p' * c == p * u && q' * c == q * u
    ensures (p <= q <==> p' <= q') && (p == q <==> p' == q')
  {
    if p < q {
      MulStep(p, q, u);
      if p' >= q' {
        MulMonotone(q', p', c);
      }
    } else if p > q {
      MulStep(q, p, u);
      if p' <= q' {
        MulMonotone(p', q', c);
      }
    } else {
      Cancel(p', q', c);
    }
  }
}
