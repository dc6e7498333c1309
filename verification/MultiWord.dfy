/** Multiword integer arithmetic: loops over word arrays, and the two-word helpers. */
module MultiWord {
  import opened Arith

  function Pow(base: nat, n: nat): nat {
    if n == 0 then 1 else base * Pow(base, n - 1)
  }

  /** The integer whose digits, lowest first, are the first `n` elements of `s`. */
  function Value(s: seq<int>, base: nat, n: nat): int
    requires n <= |s|
  {
    if n == 0 then 0 else Value(s, base, n - 1) + s[n - 1] * Pow(base, n - 1)
  }

  lemma {:induction false} PowPositive(base: nat, n: nat)
    requires base > 0
    ensures Pow(base, n) > 0
  {
    if n > 0 {
      PowPositive(base, n - 1);
      MulStep(0, base, Pow(base, n - 1));
    }
  }

  lemma {:induction false} ValueBounds(s: seq<int>, base: nat, n: nat)
    requires n <= |s| && base > 0 && forall i :: 0 <= i < n ==> 0 <= s[i] < base
    ensures 0 <= Value(s, base, n) < Pow(base, n)
  {
    if n > 0 {
      ValueBounds(s, base, n - 1);
      PowPositive(base, n - 1);
      MulMonotone(0, s[n - 1], Pow(base, n - 1));
      MulStep(s[n - 1], base, Pow(base, n - 1));
    }
  }

  lemma {:induction false} ValueSame(s: seq<int>, t: seq<int>, base: nat, n: nat)
    requires n <= |s| && n <= |t| && forall i :: 0 <= i < n ==> s[i] == t[i]
    ensures Value(s, base, n) == Value(t, base, n)
  {
    if n > 0 {
      ValueSame(s, t, base, n - 1);
    }
  }

  lemma ValueEmpty(a: seq<int>, b: seq<int>, z: seq<int>, base: nat)
    ensures Value(a, base, 0) == 0 && Value(b, base, 0) == 0 && Value(z, base, 0) == 0 && Pow(base, 0) == 1
  {
  }

  // ----- One word -----

  /** The carry logic of the loops: comparing the sum word with one operand recovers the carry, whatever came in. */
  lemma CarryOut(a: nat, b: nat, carry: nat, base: nat)
    requires a < base && b < base && carry <= 1
    ensures var w := (a + b + carry) % base;
            var out := if w != a then (if w < a then 1 else 0) else carry;
            a + b + carry == w + out * base
  {
    var sum := a + b + carry;
    DivUnique(sum, base, if sum < base then 0 else 1);
  }

  /** One step of schoolbook addition, with everything scaled by the weight of the word. */
  lemma ScaledStep(z: int, carry: int, sum: int, a: int, b: int, w: int, out: int, base: nat, weight: nat)
    requires z + carry * weight == sum && a + b + carry == w + out * base
    ensures z + w * weight + out * (base * weight) == sum + a * weight + b * weight
  {
    assert (a + b + carry) * weight == a * weight + b * weight + carry * weight;
    assert (w + out * base) * weight == w * weight + out * base * weight;
    assert out * base * weight == out * (base * weight);
  }

  /** The carry that a loop passes on, from the sum word and the first operand. */
  function NextCarry(wordA: int, wordZ: int, carry: nat): nat {
    if wordZ != wordA then (if wordZ < wordA then 1 else 0) else carry
  }

  /** One round of a loop: the sum of one more digit, and the carry, are right. */
  lemma WordAdded(a: seq<int>, b: seq<int>, z: seq<int>, z': seq<int>, index: nat, carry: nat, carryIn: nat, base: nat)
    requires index < |a| && index < |b| && index < |z| && |z'| == |z| && carry <= 1
    requires 0 <= a[index] < base && 0 <= b[index] < base
    requires z' == z[index := (a[index] + b[index] + carry) % base]
    requires Value(z, base, index) + carry * Pow(base, index) == Value(a, base, index) + Value(b, base, index) + carryIn
    ensures NextCarry(a[index], z'[index], carry) <= 1
    ensures Value(z', base, index + 1) + NextCarry(a[index], z'[index], carry) * Pow(base, index + 1)
         == Value(a, base, index + 1) + Value(b, base, index + 1) + carryIn
  {
    CarryOut(a[index], b[index], carry, base);
    ValueSame(z, z', base, index);
    ScaledStep(Value(z, base, index), carry, Value(a, base, index) + Value(b, base, index) + carryIn,
               a[index], b[index], z'[index], NextCarry(a[index], z'[index], carry), base, Pow(base, index));
  }

  // ----- Arrays of words -----

  /**
   Adds `a`, `b` and the carry into `z`, which may be one of the operands: no bit is lost, those that do not fit
   come back as the carry.
   */
  method AddCarryM(a: array<Word32>, b: array<Word32>, carryIn: nat, z: array<Word32>) returns (carry: nat)
    requires a.Length == b.Length == z.Length > 0 && carryIn <= 1
    modifies z
    ensures carry <= 1
    ensures Value(z[..], WORD32, z.Length) + carry * Pow(WORD32, z.Length)
         == old(Value(a[..], WORD32, a.Length)) + old(Value(b[..], WORD32, b.Length)) + carryIn
  {
    hide Value, Pow;
    ghost var n, a0, b0 := z.Length, a[..], b[..];
    ValueEmpty(a0, b0, z[..], WORD32);
    var index := 0;
    carry := carryIn;
    while true
      invariant index < n && carry <= 1
      invariant forall j :: index <= j < n ==> a[j] == a0[j] && b[j] == b0[j]
      invariant Value(z[..], WORD32, index) + carry * Pow(WORD32, index)
             == Value(a0, WORD32, index) + Value(b0, WORD32, index) + carryIn
      decreases n - index
    {
      var wordA := a[index];
      var wordZ := (wordA + b[index] + carry) % WORD32;
      ghost var before := z[..];
      z[index] := wordZ;
      WordAdded(a0, b0, before, z[..], index, carry, carryIn, WORD32);
      if wordZ != wordA {
        carry := if wordZ < wordA then 1 else 0;
      }
      if index == z.Length - 1 {
        break;
      }
      index := index + 1;
    }
  }

  /** The digits of `s`, each replaced by its bitwise complement. */
  ghost function Complement(s: seq<Word32>): (r: seq<int>)
    ensures |r| == |s| && forall i :: 0 <= i < |s| ==> r[i] == WORD32 - 1 - s[i]
  {
    seq(|s|, i requires 0 <= i < |s| => WORD32 - 1 - s[i])
  }

  lemma {:induction false} ComplementValue(s: seq<Word32>, n: nat)
    requires n <= |s|
    ensures Value(Complement(s), WORD32, n) == Pow(WORD32, n) - 1 - Value(s, WORD32, n)
  {
    if n > 0 {
      ComplementValue(s, n - 1);
      var p := Pow(WORD32, n - 1);
      assert (WORD32 - 1 - s[n - 1]) * p == WORD32 * p - p - s[n - 1] * p;
    }
  }

  /** A sum with the complement, plus one, is the difference modulo the range, and the carry is the comparison. */
  lemma DifferenceModulo(a: int, b: int, z: int, carry: nat, range: int)
    requires 0 <= a < range && 0 <= b < range && 0 <= z < range && carry <= 1
    requires z + carry * range == a + (range - 1 - b) + 1
    ensures z == (a - b) % range && (carry == 1 <==> a >= b)
  {
    if carry == 1 {
      DivUnique(a - b, range, 0);
    } else {
      DivUnique(a - b, range, -1);
    }
  }

  /** The same loop with the second operand complemented; with a carry in of 1 it subtracts. */
  method AddComplCarryM(a: array<Word32>, b: array<Word32>, carryIn: nat, z: array<Word32>) returns (carry: nat)
    requires a.Length == b.Length == z.Length > 0 && carryIn <= 1
    modifies z
    ensures carry <= 1
    ensures var n, range := z.Length, Pow(WORD32, z.Length);
            var va, vb := old(Value(a[..], WORD32, n)), old(Value(b[..], WORD32, n));
            && Value(z[..], WORD32, n) + carry * range == va + (range - 1 - vb) + carryIn
            && range > 0
            && (carryIn == 1 ==> Value(z[..], WORD32, n) == (va - vb) % range && (carry == 1 <==> va >= vb))
  {
    hide Value, Pow;
    ghost var n, a0, b0, c0 := z.Length, a[..], b[..], Complement(b[..]);
    ValueEmpty(a0, c0, z[..], WORD32);
    var index := 0;
    carry := carryIn;
    while true
      invariant index < n && carry <= 1
      invariant forall j :: index <= j < n ==> a[j] == a0[j] && b[j] == b0[j]
      invariant Value(z[..], WORD32, index) + carry * Pow(WORD32, index)
             == Value(a0, WORD32, index) + Value(c0, WORD32, index) + carryIn
      decreases n - index
    {
      var wordA := a[index];
      var wordZ := (wordA + (WORD32 - 1 - b[index]) + carry) % WORD32;
      ghost var before := z[..];
      z[index] := wordZ;
      WordAdded(a0, c0, before, z[..], index, carry, carryIn, WORD32);
      if wordZ != wordA {
        carry := if wordZ < wordA then 1 else 0;
      }
      if index == z.Length - 1 {
        break;
      }
      index := index + 1;
    }
    ComplementValue(b0, n);
    ValueBounds(a0, WORD32, n);
    ValueBounds(b0, WORD32, n);
    ValueBounds(z[..], WORD32, n);
    if carryIn == 1 {
      DifferenceModulo(Value(a0, WORD32, n), Value(b0, WORD32, n), Value(z[..], WORD32, n), carry, Pow(WORD32, n));
    }
  }

  /** 256-bit addition; the last carry is dropped. */
  method Add256M(a: array<Word64>, b: array<Word64>, z: array<Word64>)
    requires a.Length == b.Length == z.Length == 4
    modifies z
    ensures Value(z[..], WORD64, 4) == (old(Value(a[..], WORD64, 4)) + old(Value(b[..], WORD64, 4))) % Pow(WORD64, 4)
  {
    hide Value, Pow;
    ghost var a0, b0 := a[..], b[..];
    ValueEmpty(a0, b0, z[..], WORD64);
    var index := 0;
    var carry := 0;
    ghost var out := 0;
    while true
      invariant index < 4 && 0 <= carry <= 1
      invariant forall j :: index <= j < 4 ==> a[j] == a0[j] && b[j] == b0[j]
      invariant Value(z[..], WORD64, index) + carry * Pow(WORD64, index)
             == Value(a0, WORD64, index) + Value(b0, WORD64, index)
      decreases 4 - index
    {
      var wordA := a[index];
      var wordZ := (wordA + b[index] + carry) % WORD64;
      ghost var before := z[..];
      z[index] := wordZ;
      WordAdded(a0, b0, before, z[..], index, carry, 0, WORD64);
      out := NextCarry(wordA, wordZ, carry);
      if index == 3 {
        break;
      }
      if wordZ != wordA {
        carry := if wordZ < wordA then 1 else 0;
      }
      index := index + 1;
    }
    ValueBounds(z[..], WORD64, 4);
    DivUnique(Value(a0, WORD64, 4) + Value(b0, WORD64, 4), Pow(WORD64, 4), out);
  }

  // ----- Two-word helpers -----

  const WORD128 := WORD64 * WORD64

  datatype UInt128 = UInt128(v64: Word64, v0: Word64)
  {
    function Value(): int { v64 * WORD64 + v0 }
  }

  function Add128(a64: Word64, a0: Word64, b64: Word64, b0: Word64): UInt128 {
    var v0 := (a0 + b0) % WORD64;
    UInt128((a64 + b64 + if v0 < a0 then 1 else 0) % WORD64, v0)
  }

  function Sub128(a64: Word64, a0: Word64, b64: Word64, b0: Word64): UInt128 {
    var v64 := (a64 - b64) % WORD64;
    UInt128((v64 - if a0 < b0 then 1 else 0) % WORD64, (a0 - b0) % WORD64)
  }

  /** The low word of a product reduced modulo 2^64 stands for the whole number modulo 2^128. */
  lemma HighModulo(high: int, low: Word64, total: int)
    requires total == high * WORD64 + low
    ensures UInt128(high % WORD64, low).Value() == total % WORD128
  {
    DivModFacts(high, WORD64);
    DivUnique(total, WORD128, high / WORD64);
  }

  lemma Add128Exact(a64: Word64, a0: Word64, b64: Word64, b0: Word64)
    ensures Add128(a64, a0, b64, b0).Value() == (UInt128(a64, a0).Value() + UInt128(b64, b0).Value()) % WORD128
  {
    var carry := if a0 + b0 < WORD64 then 0 else 1;
    DivUnique(a0 + b0, WORD64, carry);
    HighModulo(a64 + b64 + carry, (a0 + b0) % WORD64, UInt128(a64, a0).Value() + UInt128(b64, b0).Value());
  }

  lemma Sub128Exact(a64: Word64, a0: Word64, b64: Word64, b0: Word64)
    ensures Sub128(a64, a0, b64, b0).Value() == (UInt128(a64, a0).Value() - UInt128(b64, b0).Value()) % WORD128
  {
    var borrow := if a0 < b0 then 1 else 0;
    DivUnique(a0 - b0, WORD64, -borrow);
    BorrowModulo(a64 - b64, borrow);
    var low := a0 - b0 + borrow * WORD64;
    HighModulo(a64 - b64 - borrow, low, (a64 - b64 - borrow) * WORD64 + low);
  }

  lemma BorrowModulo(high: int, borrow: nat)
    ensures (high % WORD64 - borrow) % WORD64 == (high - borrow) % WORD64
  {
    DivModFacts(high, WORD64);
    var q, r := high / WORD64, high % WORD64;
    DivModFacts(r - borrow, WORD64);
    DivUnique(high - borrow, WORD64, q + (r - borrow) / WORD64);
  }

  function Mul64ByShifted32To128(a: Word64, b: Word32): UInt128 {
    var mid := (a % WORD32) * b;
    UInt128((((a / WORD32) * b) % WORD64 + mid / WORD32) % WORD64, (mid * WORD32) % WORD64)
  }

  lemma ProductBound(x: int, y: int, p: int, q: int)
    requires 0 <= x <= p && 0 <= y <= q
    ensures 0 <= x * y <= p * q
  {
    MulMonotone(0, x, y);
    MulMonotone(x, p, y);
    MulMonotone(y, q, p);
  }

  /** Exact: the product fits in 128 bits. */
  lemma Mul64ByShifted32Exact(a: Word64, b: Word32)
    ensures Mul64ByShifted32To128(a, b).Value() == a * b * WORD32
  {
    var hi, lo := a / WORD32, a % WORD32;
    DivModFacts(a, WORD32);
    DivUnique(a, WORD32, hi);
    var mid := lo * b;
    ProductBound(lo, b, WORD32 - 1, WORD32 - 1);
    ProductBound(hi, b, WORD32 - 1, WORD32 - 1);
    DivModFacts(mid, WORD32);
    DivUnique(mid * WORD32, WORD64, mid / WORD32);
    DivUnique(hi * b, WORD64, 0);
    DivUnique(hi * b + mid / WORD32, WORD64, 0);
    assert a * b == hi * b * WORD32 + mid;
  }

  function Mul128By32(a64: Word64, a0: Word64, b: Word32): UInt128 {
    var v0 := (a0 * b) % WORD64;
    var mid := (a0 / WORD32) * b;
    var carry := (v0 / WORD32 - mid) % WORD32;
    UInt128((a64 * b + (mid + carry) / WORD32) % WORD64, v0)
  }

  /** The carry recovered from the low word is the upper half of the lowest partial product. */
  lemma LowProduct(a0: Word64, b: Word32)
    ensures var v0, mid := (a0 * b) % WORD64, (a0 / WORD32) * b;
            a0 * b == ((mid + (v0 / WORD32 - mid) % WORD32) / WORD32) * WORD64 + v0
  {
    var hi, lo := a0 / WORD32, a0 % WORD32;
    var mid, low := hi * b, lo * b;
    DivModFacts(a0, WORD32);
    ProductBound(lo, b, WORD32 - 1, WORD32 - 1);
    SplitProduct(hi, lo, b);
    LowCarry(mid, low);
  }

  lemma SplitProduct(hi: nat, lo: nat, b: nat)
    ensures (hi * WORD32 + lo) * b == (hi * b) * WORD32 + lo * b
  {
  }

  lemma LowCarry(mid: nat, low: nat)
    requires low < WORD64
    ensures var v0 := (mid * WORD32 + low) % WORD64;
            mid * WORD32 + low == ((mid + (v0 / WORD32 - mid) % WORD32) / WORD32) * WORD64 + v0
  {
    DivModFacts(low, WORD32);
    var carry := low / WORD32;
    DivModFacts(mid + carry, WORD32);
    var top := (mid + carry) / WORD32;
    var v0 := mid * WORD32 + low - top * WORD64;
    DivUnique(mid * WORD32 + low, WORD64, top);
    DivUnique(v0, WORD32, (mid + carry) % WORD32);
    DivUnique(v0 / WORD32 - mid, WORD32, -top);
  }

  lemma Mul128By32Exact(a64: Word64, a0: Word64, b: Word32)
    ensures Mul128By32(a64, a0, b).Value() == (UInt128(a64, a0).Value() * b) % WORD128
  {
    LowProduct(a0, b);
    var v0, mid := (a0 * b) % WORD64, (a0 / WORD32) * b;
    var top := (mid + (v0 / WORD32 - mid) % WORD32) / WORD32;
    HighProduct(a64, a0, b);
    HighModulo(a64 * b + top, v0, UInt128(a64, a0).Value() * b);
  }

  lemma HighProduct(a64: int, a0: int, b: int)
    ensures (a64 * WORD64 + a0) * b == (a64 * b) * WORD64 + a0 * b
  {
  }

  function Mul64To128(a: Word64, b: Word64): UInt128 {
    Assemble((a / WORD32) * (b / WORD32), (a / WORD32) * (b % WORD32), (a % WORD32) * (b / WORD32),
             (a % WORD32) * (b % WORD32))
  }

  /** The four partial products, added up in 64-bit words: the two carries are recovered by comparisons. */
  function Assemble(high: nat, mid1: nat, mid2: nat, low: nat): UInt128 {
    var mid := (mid1 + mid2) % WORD64;
    var v64 := (high + ((if mid < mid1 then 1 else 0) * WORD32 + mid / WORD32)) % WORD64;
    var shifted := (mid * WORD32) % WORD64;
    var v0 := (low + shifted) % WORD64;
    UInt128((v64 + if v0 < shifted then 1 else 0) % WORD64, v0)
  }

  lemma AssembleExact(high: nat, mid1: nat, mid2: nat, low: nat)
    requires high < WORD64 && mid1 < WORD64 && mid2 < WORD64 && low < WORD64
    requires high * WORD64 + (mid1 + mid2) * WORD32 + low < WORD128
    ensures Assemble(high, mid1, mid2, low).Value() == high * WORD64 + (mid1 + mid2) * WORD32 + low
  {
    var over := if mid1 + mid2 < WORD64 then 0 else 1;
    DivUnique(mid1 + mid2, WORD64, over);
    var mid := mid1 + mid2 - over * WORD64;
    LowHalf(mid);
    AssembleWith(high, mid1, mid2, low, over, mid);
    hide Assemble;
    AssembleParts(high, mid, over, low);
  }

  lemma AssembleWith(high: nat, mid1: nat, mid2: nat, low: nat, over: nat, mid: Word64)
    requires (mid1 + mid2) % WORD64 == mid && over == (if mid < mid1 then 1 else 0)
    requires (mid * WORD32) % WORD64 == (mid % WORD32) * WORD32
    ensures var shifted := (mid % WORD32) * WORD32;
            var v64, v0 := (high + (over * WORD32 + mid / WORD32)) % WORD64, (low + shifted) % WORD64;
            Assemble(high, mid1, mid2, low) == UInt128((v64 + if v0 < shifted then 1 else 0) % WORD64, v0)
  {
  }

  /** With the sum of the middle products split into a carry and a word, all further sums stay within their words. */
  lemma AssembleParts(high: nat, mid: Word64, over: nat, low: Word64)
    requires high * WORD64 + (over * WORD64 + mid) * WORD32 + low < WORD128
    ensures var q, shifted := mid / WORD32, (mid % WORD32) * WORD32;
            var v64, v0 := (high + (over * WORD32 + q)) % WORD64, (low + shifted) % WORD64;
            ((v64 + if v0 < shifted then 1 else 0) % WORD64) * WORD64 + v0
            == high * WORD64 + (over * WORD64 + mid) * WORD32 + low
  {
    DivModFacts(mid, WORD32);
    var q, shifted := mid / WORD32, (mid % WORD32) * WORD32;
    var carry := if low + shifted < WORD64 then 0 else 1;
    DivUnique(low + shifted, WORD64, carry);
    var v64 := high + (over * WORD32 + q);
    DivUnique(v64, WORD64, 0);
    DivUnique(v64 + carry, WORD64, 0);
  }

  /** Shifting the middle sum left keeps its lower half in the word. */
  lemma LowHalf(mid: Word64)
    ensures (mid * WORD32) % WORD64 == (mid % WORD32) * WORD32 && 0 <= mid % WORD32 < WORD32
    ensures mid == (mid / WORD32) * WORD32 + mid % WORD32
  {
    DivModFacts(mid, WORD32);
    DivUnique(mid * WORD32, WORD64, mid / WORD32);
  }

  /** The full 128-bit product. */
  lemma Mul64To128Exact(a: Word64, b: Word64)
    ensures Mul64To128(a, b).Value() == a * b
  {
    var a32, a0, b32, b0 := a / WORD32, a % WORD32, b / WORD32, b % WORD32;
    DivModFacts(a, WORD32);
    DivModFacts(b, WORD32);
    ProductBound(a32, b0, WORD32 - 1, WORD32 - 1);
    ProductBound(a0, b32, WORD32 - 1, WORD32 - 1);
    ProductBound(a0, b0, WORD32 - 1, WORD32 - 1);
    ProductBound(a32, b32, WORD32 - 1, WORD32 - 1);
    ProductBound(a, b, WORD64 - 1, WORD64 - 1);
    FourParts(a, b, a32, a0, b32, b0);
    hide Assemble;
    AssembleExact(a32 * b32, a32 * b0, a0 * b32, a0 * b0);
  }

  lemma FourParts(a: int, b: int, a32: int, a0: int, b32: int, b0: int)
    requires a == a32 * WORD32 + a0 && b == b32 * WORD32 + b0
    ensures a * b == a32 * b32 * WORD64 + (a32 * b0 + a0 * b32) * WORD32 + a0 * b0
  {
    assert a * b == a32 * WORD32 * b + a0 * b;
    assert a32 * b == a32 * b32 * WORD32 + a32 * b0;
    assert a0 * b == a0 * b32 * WORD32 + a0 * b0;
  }
}
