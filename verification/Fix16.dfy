// Fixed-point numbers with 16 fraction bits in 32-bit words: multiplication and
// division, in the variants built from 32-bit operations.
module Fix16 {
  import opened Words
  import Arith

  const ONE := 0x1_0000           // 2^16, and fix16_one
  const MINIMUM := -0x8000_0000   // fix16_minimum
  const OVERFLOW := -0x8000_0000  // fix16_overflow, the same value
  const LIMIT := 0x8000_0000_0000 // 2^47

  predicate IsFix16(x: int) { -0x8000_0000 <= x < 0x8000_0000 }

  // A 32-bit pattern read as a signed number.
  function Wrap32(x: int): (w: int)
    ensures IsFix16(w)
  {
    (x + 0x8000_0000) % HALF - 0x8000_0000
  }

  function Magnitude(x: int): nat { if x < 0 then -x else x }

  // x / y to the nearest number, halves away from zero.
  function RoundedAway(x: int, y: int): int
    requires 0 < y
  {
    if x >= 0 then (2 * x + y) / (2 * y) else -((2 * -x + y) / (2 * y))
  }

  // The nearest, and of two equally near the one further from zero.
  lemma RoundsHalfAway(x: int, y: int)
    requires 0 < y
    ensures var r := RoundedAway(x, y);
      && 2 * Magnitude(x - r * y) <= y
      && (2 * Magnitude(x - r * y) == y ==> Magnitude(r * y) > Magnitude(x))
      && (x >= 0 ==> r >= 0) && (x <= 0 ==> r <= 0)
  {
    var m := (2 * Magnitude(x) + y) / (2 * y);
    var rest := (2 * Magnitude(x) + y) % (2 * y);
    assert 2 * Magnitude(x) + y == m * (2 * y) + rest;
    Arith.Twice(m, y);
    NegatedProduct(m, y);
    if m < 0 { Arith.MulMono(m, -1, 2 * y); }
    if x == 0 { Arith.DivUnique(y, 2 * y, 0, y); }
  }

  lemma NegatedProduct(m: int, y: int)
    ensures (-m) * y == -(m * y)
  {
  }

  // The one number in range that a 32-bit pattern can stand for.
  lemma Wrap32Is(x: int)
    ensures (Wrap32(x) - x) % HALF == 0 && (IsFix16(x) ==> Wrap32(x) == x)
  {
  }

  // What a product p should give.
  function Product(p: int): int {
    if -LIMIT <= p < LIMIT then Wrap32(RoundedAway(p, ONE)) else OVERFLOW
  }

  // The sum of the two mixed products of halves; the code keeps it in 32 bits.
  function MixedSum(a: int, b: int): int { (a / ONE) * (b % ONE) + (b / ONE) * (a % ONE) }

  // The product as the code has it: 2^48 off for each time the mixed sum wraps around.
  function ProductSeen(a: int, b: int): int { a * b + (Wrap32(MixedSum(a, b)) - MixedSum(a, b)) * ONE }

  lemma FourProducts(a: int, b: int)
    ensures a * b == (a / ONE) * (b / ONE) * HALF + MixedSum(a, b) * ONE + (a % ONE) * (b % ONE)
  {
    var x, u, y, v := a / ONE, a % ONE, b / ONE, b % ONE;
    assert a == x * ONE + u && b == y * ONE + v;
    Expand(x, u, y, v, ONE);
  }

  lemma Expand(x: int, u: int, y: int, v: int, w: int)
    ensures (x * w + u) * (y * w + v) == x * y * (w * w) + (x * v + y * u) * w + u * v
  {
    Arith.Distribute(x * w, u, y * w + v);
    Arith.Distribute(x * v, y * u, w);
    var xw, yw := x * w, y * w;
    assert xw * (yw + v) == xw * yw + xw * v && u * (yw + v) == u * yw + u * v;
    assert xw * yw == x * y * (w * w);
    assert xw * v == x * v * w && u * yw == y * u * w;
  }

  lemma HalvesBounded(a: int, b: int)
    requires IsFix16(a) && IsFix16(b)
    ensures -0x8000 <= a / ONE < 0x8000 && 0 <= a % ONE < ONE
    ensures 0 <= (a % ONE) * (b % ONE) < HALF
    ensures -0x4000_0000 <= (a / ONE) * (b / ONE) <= 0x4000_0000
  {
    var x, u, y, v := a / ONE, a % ONE, b / ONE, b % ONE;
    Arith.MulBelow(u, ONE, v + 1);
    assert u * (v + 1) == u * v + u;
    Arith.MulMono(0, u, v);
    Arith.MulMono(u, ONE - 1, v);
    SquareBound(x, y);
  }

  lemma SquareBound(x: int, y: int)
    requires -0x8000 <= x <= 0x8000 && -0x8000 <= y <= 0x8000
    ensures -0x4000_0000 <= x * y <= 0x4000_0000
  {
    if y >= 0 {
      Arith.MulMono(-0x8000, x, y);
      Arith.MulMono(x, 0x8000, y);
    } else {
      Arith.MulMono(-0x8000, x, -y);
      Arith.MulMono(x, 0x8000, -y);
      assert x * -y == -(x * y);
    }
  }

  // The product in two words: the carry out of the low one, found by comparing.
  lemma CarryOut(ac: int, mid: int, bd: int)
    requires 0 <= bd < HALF && IsFix16(mid)
    ensures var lo := (bd + mid * ONE) % HALF;
      (ac + mid / ONE + if lo < bd then 1 else 0) * HALF + lo == ac * HALF + mid * ONE + bd
  {
    var t := mid * ONE % HALF;
    assert mid * ONE == mid / ONE * HALF + t;
    assert (bd + mid * ONE) % HALF == (bd + t) % HALF;
  }

  // Subtracting from the two words, the borrow found by comparing.
  lemma Borrow(hi: int, lo: int, c: int)
    requires 0 <= lo < HALF && 1 <= c <= 0x8001
    ensures var lo' := (lo - c) % HALF; (if lo' > lo then hi - 1 else hi) * HALF + lo' == hi * HALF + lo - c
  {
  }

  // Cutting off the low 16 bits of the two words.
  lemma CutOff(hi: int, lo: int)
    requires 0 <= lo < HALF
    ensures Wrap32(hi % ONE * ONE + lo / ONE + 1) == Wrap32((hi * HALF + lo) / ONE + 1)
  {
    assert (hi * HALF + lo) / ONE == hi * ONE + lo / ONE;
    assert hi * ONE == hi / ONE * HALF + hi % ONE * ONE;
    WrapShift(hi % ONE * ONE + lo / ONE + 1, hi / ONE);
  }

  lemma WrapShift(x: int, k: int)
    ensures Wrap32(x + k * HALF) == Wrap32(x)
  {
  }

  // Taking off a half, and one more below zero, before cutting and adding one rounds.
  lemma RoundingTrick(p: int)
    ensures (p - 0x8000 - (if p < 0 then 1 else 0)) / ONE + 1 == RoundedAway(p, ONE)
  {
  }

  // The 64-bit product in two words.
  method TwoWords(a: int, b: int) returns (hi: int, lo: int)
    requires IsFix16(a) && IsFix16(b)
    ensures 0 <= lo < HALF && hi * HALF + lo == ProductSeen(a, b)
  {
    HalvesBounded(a, b);
    FourProducts(a, b);
    var aHi, cHi := a / ONE, b / ONE;
    var bLo, dLo := a % ONE, b % ONE;
    var ac := aHi * cHi;
    var mid := Wrap32(aHi * dLo + cHi * bLo);
    var bd := bLo * dLo;
    hi := ac + mid / ONE;
    lo := (bd + mid * ONE) % HALF;
    if lo < bd { hi := hi + 1; }
    CarryOut(ac, mid, bd);
  }

  lemma RoundsRight(hi0: int, lo0: int, hi: int, lo: int)
    requires 0 <= lo0 < HALF && lo == (lo0 - 0x8000 - (if hi0 < 0 then 1 else 0)) % HALF
    requires hi == if lo > lo0 then hi0 - 1 else hi0
    ensures Wrap32(hi % ONE * ONE + lo / ONE + 1) == Wrap32(RoundedAway(hi0 * HALF + lo0, ONE))
  {
    var p := hi0 * HALF + lo0;
    var c := 0x8000 + if hi0 < 0 then 1 else 0;
    Borrow(hi0, lo0, c);
    assert hi * HALF + lo == p - c;
    CutOff(hi, lo);
    RoundingTrick(p);
  }

  method RoundWords(hi0: int, lo0: int) returns (r: int)
    requires 0 <= lo0 < HALF
    ensures r == Wrap32(RoundedAway(hi0 * HALF + lo0, ONE))
  {
    var hi := hi0;
    var lo := (lo0 - 0x8000 - (if hi < 0 then 1 else 0)) % HALF;
    if lo > lo0 { hi := hi - 1; }
    RoundsRight(hi0, lo0, hi, lo);
    r := Wrap32(MiddleWord(hi, lo) + 1);
  }

  // (hi << 16) | (lo >> 16)
  function MiddleWord(hi: int, lo: int): (r: int)
    requires 0 <= lo < HALF
    ensures r == hi % ONE * ONE + lo / ONE
  {
    Pow2Small();
    OrIsSum(hi % ONE, lo / ONE, 16);
    Or(hi % ONE * ONE, lo / ONE)
  }

  lemma Pow2Small()
    ensures Pow2(16) == ONE && Pow2(17) == 2 * ONE
  {
    assert Pow2(8) == 256;
    Pow2Add(8, 8);
  }

  lemma UpperBits(hi: int, lo: int)
    requires 0 <= lo < HALF
    ensures -0x8000 <= hi < 0x8000 <==> -LIMIT <= hi * HALF + lo < LIMIT
  {
  }

  // Products so large that their result is the overflow value.
  predicate Far(p: int) { p <= -LIMIT + 0x8000 || LIMIT - 0x8000 <= p }

  // The rounded product where it has a place, apart from the overflow value itself.
  lemma ProductIs(p: int)
    ensures Product(p) == if -0x8000_0000 < RoundedAway(p, ONE) < 0x8000_0000 then RoundedAway(p, ONE) else OVERFLOW
  {
  }

  lemma FarOverflows(p: int)
    ensures Product(p) == OVERFLOW <==> Far(p)
  {
  }

  // The product that a wrap of the mixed sum leaves.
  function Wrapped(a: int, b: int): int {
    if MixedSum(a, b) > 0 then a * b - 2 * LIMIT else a * b + 2 * LIMIT
  }

  // The operands for which fix16_mul is right.
  predicate MulExact(a: int, b: int) {
    IsFix16(MixedSum(a, b)) || (Far(a * b) && Far(Wrapped(a, b)))
  }

  lemma HalfBound(x: int, v: int)
    requires -0x8000 <= x < 0x8000 && 0 <= v < ONE
    ensures -0x8000_0000 <= x * v < 0x8000_0000
  {
    Arith.MulMono(-0x8000, x, v);
    Arith.MulMono(x, 0x7FFF, v);
  }

  lemma MixedBound(a: int, b: int)
    requires IsFix16(a) && IsFix16(b)
    ensures -HALF <= MixedSum(a, b) < HALF
  {
    HalvesBounded(a, b);
    HalvesBounded(b, a);
    HalfBound(a / ONE, b % ONE);
    HalfBound(b / ONE, a % ONE);
  }

  // The mixed sum wraps around at most once.
  lemma WrapOnce(s: int)
    requires -HALF <= s < HALF
    ensures Wrap32(s) == if IsFix16(s) then s else if s > 0 then s - HALF else s + HALF
  {
    if s >= 0x8000_0000 { WrapShift(s - HALF, 1); }
    if s < -0x8000_0000 { WrapShift(s + HALF, -1); }
  }

  lemma OneWrap(a: int, b: int)
    requires IsFix16(a) && IsFix16(b)
    ensures ProductSeen(a, b) == if IsFix16(MixedSum(a, b)) then a * b else Wrapped(a, b)
  {
    MixedBound(a, b);
    WrapOnce(MixedSum(a, b));
  }

  // The result is right exactly when the mixed sum fits in 32 bits, or both the product and
  // what a wrap leaves of it are far out.
  lemma MulRightIff(a: int, b: int)
    requires IsFix16(a) && IsFix16(b)
    ensures Product(ProductSeen(a, b)) == Product(a * b) <==> MulExact(a, b)
  {
    OneWrap(a, b);
    FarOverflows(a * b);
    FarOverflows(Wrapped(a, b));
  }

  // fix16_mul: the rounded product, or the overflow value, of what the code takes for the product.
  method Mul(a: int, b: int) returns (r: int)
    requires IsFix16(a) && IsFix16(b)
    ensures r == Product(if IsFix16(MixedSum(a, b)) then a * b else Wrapped(a, b))
    ensures r == Product(a * b) <==> MulExact(a, b)
  {
    OneWrap(a, b);
    MulRightIff(a, b);
    var hi, lo := TwoWords(a, b);
    UpperBits(hi, lo);
    if hi < -0x8000 || 0x8000 <= hi { return OVERFLOW; }  // the upper 17 bits differ
    r := RoundWords(hi, lo);
  }

  // The smallest step below zero times -32767.00002 is reported as an overflow.
  lemma MixedSumCanWrap()
    ensures var a, b := -1, -0x7FFF_0001;
      Product(a * b) == 0x7FFF && Product(ProductSeen(a, b)) == OVERFLOW
  {
    assert -1 / ONE == -1 && -1 % ONE == 0xFFFF;
    assert -0x7FFF_0001 / ONE == -0x8000 && -0x7FFF_0001 % ONE == 0xFFFF;
  }
}
