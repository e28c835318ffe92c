// fix16_div: repeated 32-bit divisions, the quotient put together in 32 bits.
module Fix16Div {
  import opened Words
  import opened Fix16
  import Arith

  const KICK := 0x2_0000  // 2^17

  // By how much the kick start, truncating, leaves the dividend too large.
  function Excess(n: nat, d: nat): nat
    requires 0 < d
  {
    if d < 0x10_0000 then 0 else n / (d / KICK + 1) * d % KICK
  }

  // The quotient with one bit more than the result has.
  function LongQuotient(x: nat, d: nat): nat
    requires 0 < d
  {
    x / d
  }

  function Signed(a: int, b: int, m: nat): int {
    if m >= 0x8000_0000 then OVERFLOW else if (a < 0) != (b < 0) then -(m as int) else m
  }

  // a / b rounded to the nearest number, halves away from zero, or the overflow value.
  function Quotient(a: int, b: int): int
    requires b != 0
  {
    Signed(a, b, RoundedAway(Magnitude(a) * ONE, Magnitude(b)))
  }

  // The nearest number to the quotient, unless it is 2^31 or more in magnitude.
  lemma QuotientIs(a: int, b: int)
    requires b != 0
    ensures 2 * (Magnitude(a) * ONE) >= 0xFFFF_FFFF * Magnitude(b) ==> Quotient(a, b) == OVERFLOW
    ensures 2 * (Magnitude(a) * ONE) < 0xFFFF_FFFF * Magnitude(b) ==>
      && 2 * Magnitude(a * ONE - Quotient(a, b) * b) <= Magnitude(b)
      && Magnitude(Quotient(a, b)) < 0x8000_0000
  {
    var x, d := Magnitude(a) * ONE, Magnitude(b);
    var m := RoundedAway(x, d);
    RoundsHalfAway(x, d);
    Within(x, d, m);
    NegatedProduct(m, b);
    NegatedProduct(b, m);
  }

  lemma Within(x: nat, d: nat, m: nat)
    requires 0 < d && 2 * Magnitude(x - m * d) <= d && (2 * Magnitude(x - m * d) == d ==> m * d > x)
    ensures m >= 0x8000_0000 <==> 2 * x >= 0xFFFF_FFFF * d
  {
    if m >= 0x8000_0000 { Arith.MulMono(0x8000_0000, m, d); } else { Arith.MulMono(m, 0x7FFF_FFFF, d); }
  }

  // The quotient as the code has it.
  function QuotientSeen(a: int, b: int): int
    requires b != 0
  {
    var n, d := Magnitude(a), Magnitude(b);
    Signed(a, b, (LongQuotient(n * KICK + Excess(n, d), d) + 1) / 2)
  }

  lemma HalfOfQuotient(x: nat, d: nat)
    requires 0 < d
    ensures (LongQuotient(x, d) + 1) / 2 == (x + d) / (2 * d)
  {
    var q, r := x / d, x % d;
    assert x == q * d + r;
    HalfOf(x, d, q, r, (q + 1) / 2);
  }

  lemma HalfOf(x: nat, d: nat, q: nat, r: nat, m: nat)
    requires 0 < d && x == q * d + r && r < d && (q + 1 == 2 * m || q == 2 * m)
    ensures (x + d) / (2 * d) == m
  {
    Arith.Distribute(q, 1, d);
    Arith.Twice(m, d);
    if q + 1 == 2 * m {
      Arith.DivUnique(x + d, 2 * d, m, r);
    } else {
      Arith.DivUnique(x + d, 2 * d, m, d + r);
    }
  }

  // Below 2^20 the quotient is right.
  lemma SeenIsRight(a: int, b: int)
    requires b != 0 && Magnitude(b) < 0x10_0000
    ensures QuotientSeen(a, b) == Quotient(a, b)
  {
    HalfOfQuotient(Magnitude(a) * KICK, Magnitude(b));
  }

  // The operands for which fix16_div is right: a divisor below 2^20, or an excess that does
  // not carry the division over to the next quotient, or only to its odd last bit.
  predicate DivExact(a: int, b: int)
    requires b != 0
  {
    var n, d := Magnitude(a), Magnitude(b);
    d < 0x10_0000 || n * KICK % d + Excess(n, d) < d || n * KICK / d % 2 == 1
  }

  // It is never off by more than one, and right for exactly these operands.
  lemma SeenIsNear(a: int, b: int)
    requires b != 0 && Magnitude(a) <= 0x8000_0000
    ensures QuotientSeen(a, b) - 1 <= Quotient(a, b) <= QuotientSeen(a, b) + 1
    ensures Quotient(a, b) == QuotientSeen(a, b) <==> DivExact(a, b)
  {
    var n, d := Magnitude(a), Magnitude(b);
    if d < 0x10_0000 {
      SeenIsRight(a, b);
    } else {
      var x := n * KICK;
      WithExcess(x, Excess(n, d), d);
      HalfOfQuotient(x, d);
      QuotientSmall(x, d, x / d);
      NearHalves(a, b, x / d, LongQuotient(x + Excess(n, d), d));
    }
  }

  // A quotient of 24 that comes out as 25.
  lemma ExcessShows()
    ensures Quotient(393, 1051251) == 24 && QuotientSeen(393, 1051251) == 25
  {
    assert 1051251 / KICK + 1 == 9 && 393 / 9 == 43;
    assert Excess(393, 1051251) == 43 * 1051251 % KICK;
  }

  lemma NearHalves(a: int, b: int, q: nat, q': nat)
    requires q <= 0x1000_0000 && (q' == q || q' == q + 1)
    ensures var m, m' := Signed(a, b, (q + 1) / 2), Signed(a, b, (q' + 1) / 2);
      m' - 1 <= m <= m' + 1 && (m == m' <==> q' == q || q % 2 == 1)
  {
  }

  lemma WithExcess(x: nat, e: nat, d: nat)
    requires 0 < d && e < d
    ensures x / d * d <= x
    ensures LongQuotient(x + e, d) == LongQuotient(x, d) + if x % d + e < d then 0 else 1
  {
    var q, r := x / d, x % d;
    assert x == q * d + r;
    Arith.Distribute(q, 1, d);
    if r + e < d { Arith.DivUnique(x + e, d, q, r + e); } else { Arith.DivUnique(x + e, d, q + 1, r + e - d); }
  }

  lemma QuotientSmall(x: nat, d: nat, q: nat)
    requires 0x10_0000 <= d && x <= 0x8000_0000 * KICK && q * d <= x
    ensures q <= 0x1000_0000
  {
    if q > 0x1000_0000 { Arith.MulMono(0x1000_0001, q, d); Arith.MulMono(0x10_0000, d, 0x1000_0001); }
  }

  // ----- the tests of bits -----

  // Masking with j ones above k zeros tells whether a number reaches up there.
  lemma {:induction false} HighBits(x: nat, j: nat, k: nat)
    requires x < Pow2(j + k)
    ensures And(x, Up(Pow2(j) - 1, k)) == 0 <==> x < Pow2(k)
    decreases k
  {
    if k == 0 {
      AndMask(x, j);
      ShrRange(x, j);
      NoDigits(x, j);
    } else {
      assert j + k == j + (k - 1) + 1;
      HighBits(x / 2, j, k - 1);
      assert Up(Pow2(j) - 1, k) / 2 == Up(Pow2(j) - 1, k - 1);
      if x == 0 { AndNone(0); }
    }
  }

  lemma {:induction false} NoDigits(x: nat, k: nat)
    requires x < Pow2(k)
    ensures Shr(x, k) == 0
    decreases k
  {
    if k > 0 { NoDigits(x / 2, k - 1); }
  }

  lemma {:induction false} UpUp(x: nat, j: nat, k: nat)
    ensures Up(Up(x, j), k) == Up(x, j + k)
    decreases k
  {
    if k > 0 { UpUp(x, j, k - 1); }
  }

  lemma {:induction false} UpSum(x: nat, y: nat, k: nat)
    ensures Up(x + y, k) == Up(x, k) + Up(y, k)
  {
    if k > 0 { UpSum(x, y, k - 1); }
  }

  lemma UpTimes(x: nat, d: nat, k: nat)
    ensures Up(x * d, k) == Up(x, k) * d
  {
    UpIs(x * d, k);
    UpIs(x, k);
    Swap(x, d, Pow2(k));
  }

  lemma Swap(x: int, y: int, z: int)
    ensures x * y * z == x * z * y
  {
  }

  // ----- the division, on values -----

  ghost predicate IsQuotient(x: nat, d: nat, t: nat) { t * d <= x < t * d + d }

  // With u bits to go, the quotient so far and the remainder make up the dividend x;
  // t is the whole quotient.
  ghost predicate DivInv(x: nat, d: nat, t: nat, quotient: nat, remainder: nat, u: nat) {
    && 0 < d < HALF && u <= 18 && IsQuotient(x, d, t)
    && Twice(x) == Times2(quotient, d) + Up(remainder, u)
    && (u >= 2 || remainder < 2 * d)
    && (t < HALF || quotient == 0)
  }

  function Twice(x: nat): nat { 2 * x }

  function Times2(q: nat, d: nat): nat { 2 * (q * d) }

  lemma Up4(x: nat)
    ensures Up(x, 4) == 16 * x
  {
    assert Up(x, 1) == 2 * x && Up(x, 2) == 4 * x;
    UpUp(x, 2, 2);
    assert Up(4 * x, 1) == 8 * x;
  }

  lemma Sixteen(q: int, d: int)
    ensures q * (16 * d) == 16 * (q * d)
  {
  }

  // Four bits less of the divisor and of the bits to go.
  lemma ReduceStep(x: nat, d: nat, t: nat, quotient: nat, remainder: nat, u: nat, d': nat, u': nat) returns (x': nat)
    requires DivInv(x, d, t, quotient, remainder, u) && d == 16 * d' && u == u' + 4 && u' >= 2
    ensures DivInv(x', d', t, quotient, remainder, u')
  {
    var y := Up(remainder, u' - 1);
    UpUp(remainder, u' - 1, 1);
    UpUp(remainder, u', 4);
    Up4(2 * y);
    Sixteen(quotient, d');
    Sixteen(t, d');
    x' := quotient * d' + y;
    assert Up(remainder, u') == 2 * y;
    assert x == 16 * x';
  }

  lemma AtMost(x: nat, d: nat, t: nat, q: nat)
    requires 0 < d && IsQuotient(x, d, t) && q * d <= x
    ensures q <= t
  {
    if t < q { Arith.MulMono(t + 1, q, d); Arith.Distribute(t, 1, d); }
  }

  lemma LessThan(x: nat, d: nat, t: nat, q: nat)
    requires 0 < d && IsQuotient(x, d, t) && x < q * d
    ensures t < q
  {
    if q <= t { Arith.MulMono(q, t, d); }
  }

  // Dividing the remainder, shifted left by s, once.
  lemma DivStep(x: nat, d: nat, t: nat, quotient: nat, remainder: nat, u: nat, s: nat, div: nat, r: nat)
    requires DivInv(x, d, t, quotient, remainder, u) && s < u && Up(remainder, s) == div * d + r && r < d
    ensures var k := u - 1 - s; var q := quotient + Up(div, k);
      Twice(x) == Times2(q, d) + Up(2 * r, k) && q <= t < q + Pow2(k)
  {
    var k := u - 1 - s;
    var q := quotient + Up(div, k);
    UpUp(remainder, s, k + 1);
    UpSum(div * d, r, k);
    UpTimes(div, d, k);
    Arith.Distribute(quotient, Up(div, k), d);
    UpTwice(r, k);
    UpIs(r, k);
    DivStepBounds(x, d, t, q, r, Pow2(k));
  }

  lemma DivStepBounds(x: nat, d: nat, t: nat, q: nat, r: nat, p: nat)
    requires 0 < d && IsQuotient(x, d, t) && x == q * d + r * p && r < d && 0 < p
    ensures q <= t < q + p
  {
    Arith.MulBelow(r, d, p);
    Arith.Distribute(q, p, d);
    AtMost(x, d, t, q);
    LessThan(x, d, t, q + p);
  }

  lemma UpTwice(r: nat, k: nat)
    ensures Up(2 * r, k) == 2 * Up(r, k)
  {
    UpSum(r, r, k);
    assert 2 * r == r + r;
  }

  // A partial quotient that does not fit means that the whole one does not.
  lemma FitsOrNot(div: nat, k: nat, t: nat)
    requires k <= 32 && Up(div, k) <= t < Up(div, k) + Pow2(k)
    ensures if div < Pow2(32 - k) then t < HALF && Up(div, k) < HALF else t >= HALF
  {
    UpIs(div, k);
    Pow2Parts(k);
    if div < Pow2(32 - k) {
      Arith.MulMono(div + 1, Pow2(32 - k), Pow2(k));
      Arith.Distribute(div, 1, Pow2(k));
    } else {
      Arith.MulMono(Pow2(32 - k), div, Pow2(k));
    }
  }

  lemma DivEnd(x: nat, d: nat, t: nat, quotient: nat, remainder: nat, u: nat)
    requires DivInv(x, d, t, quotient, remainder, u) && (remainder == 0 || u == 0)
    ensures quotient == t < HALF
  {
    UpIs(0, u);
    AtMost(x, d, t, quotient);
    Arith.Distribute(quotient, 1, d);
    LessThan(x, d, t, quotient + 1);
  }

  // ----- fix16_div -----

  // divider & 0xFFF00000
  lemma KickTest(d: nat)
    requires d < HALF
    ensures And(d, 0xFFF0_0000) != 0 <==> d >= 0x10_0000
  {
    Pow2Words();
    Pow2Small();
    assert Pow2(4) == 16;
    Pow2Add(4, 8);
    Pow2Add(16, 4);
    UpIs(Pow2(12) - 1, 20);
    HighBits(d, 12, 20);
  }

  // divider & 0xF
  lemma LowTest(d: nat)
    ensures And(d, 0xF) == 0 <==> d % 16 == 0
  {
    assert Pow2(4) == 16;
    AndMask(d, 4);
    ShrRange(d, 4);
    Low16(d, Shr(d, 4));
  }

  lemma Low16(d: nat, s: nat)
    requires s * 16 <= d < s * 16 + 16
    ensures d - s * 16 == d % 16
  {
  }

  // div & ~(0xFFFFFFFF >> k)
  lemma OverflowTest(div: nat, k: nat)
    requires div < HALF && k <= 32
    ensures And(div, Up(Pow2(k) - 1, 32 - k)) == 0 <==> div < Pow2(32 - k)
  {
    Pow2Words();
    HighBits(div, k, 32 - k);
  }

  lemma Pow2Parts(k: nat)
    requires k <= 32
    ensures Pow2(32 - k) * Pow2(k) == HALF
  {
    Pow2Words();
    Pow2Add(32 - k, k);
  }

  // A left shift that loses nothing.
  lemma ShlWhole(x: nat, k: nat)
    requires k <= 32 && x < Pow2(32 - k)
    ensures Shl32(x, k) == Up(x, k) < HALF
  {
    UpIs(x, k);
    Pow2Parts(k);
    ShlFits(x, Pow2(k), Pow2(32 - k));
  }

  lemma ShlFits(x: nat, p: nat, q: nat)
    requires x < q && 0 < p && q * p == HALF
    ensures (x * p) % HALF == x * p < HALF
  {
    Arith.MulBelow(x, q, p);
    Whole32(x * p);
  }

  lemma Whole32(y: nat)
    requires y < HALF
    ensures y % HALF == y
  {
  }

  // What the kick start leaves: part of the quotient, and a remainder.
  ghost predicate Kicked(n: nat, d: nat, quotient: nat, remainder: nat)
    requires 0 < d
  {
    quotient * d + remainder * KICK == n * KICK + Excess(n, d) && (d < 0x10_0000 ==> quotient == 0)
  }

  // The lower estimate to start with for large divisors.
  method KickStart(n: nat, d: nat) returns (quotient: nat, remainder: nat)
    requires n <= 0x8000_0000 && 0 < d <= 0x8000_0000
    ensures quotient < HALF && remainder <= 0x8000_0000 && Kicked(n, d, quotient, remainder)
  {
    KickTest(d);
    if And(d, 0xFFF0_0000) != 0 {
      quotient, remainder := Kick(n, d);
    } else {
      quotient, remainder := 0, n;
      NoKick(n, d);
    }
  }

  method Kick(n: nat, d: nat) returns (quotient: nat, remainder: nat)
    requires n <= 0x8000_0000 && 0x10_0000 <= d
    ensures quotient <= n && remainder <= n && Kicked(n, d, quotient, remainder)
  {
    var shiftedDiv := ShiftDivisor(d);
    quotient := Estimate(n, shiftedDiv);
    KickLeaves(n, d, quotient);
    remainder := KickRest(n, d, quotient);
  }

  // (divider >> 17) + 1
  method ShiftDivisor(d: nat) returns (s: nat)
    ensures s == d / KICK + 1 && d < s * KICK
  {
    ShiftedDivisor(d);
    s := Shr(d, 17) + 1;
  }

  method Estimate(n: nat, s: nat) returns (q: nat)
    requires 0 < s
    ensures q == n / s
  {
    q := n / s;
  }

  lemma NoKick(n: nat, d: nat)
    requires 0 < d < 0x10_0000
    ensures Kicked(n, d, 0, n)
  {
    assert 0 * d == 0;
  }

  // remainder -= ((uint64_t)quotient * divider) >> 17
  function KickRest(n: nat, d: nat, q: nat): int { n - q * d / KICK }

  lemma KickLeaves(n: nat, d: nat, q: nat)
    requires 0x10_0000 <= d && q == n / (d / KICK + 1)
    requires d < (d / KICK + 1) * KICK
    ensures q <= n && 0 <= KickRest(n, d, q) <= n && Kicked(n, d, q, KickRest(n, d, q))
  {
    KickBound(n, d, d / KICK + 1, q);
    KickSplit(n, d, q);
  }

  lemma ShiftedDivisor(d: nat)
    ensures Shr(d, 17) == d / KICK && d < (d / KICK + 1) * KICK
  {
    Pow2Small();
    ShrRange(d, 17);
    ByKick(d, Shr(d, 17));
  }

  lemma ByKick(d: nat, s: nat)
    requires s * KICK <= d < s * KICK + KICK
    ensures s == d / KICK
  {
  }

  lemma KickSplit(n: nat, d: nat, q: nat)
    requires d >= 0x10_0000 && q == n / (d / KICK + 1) && 0 <= q * d / KICK <= n
    ensures Kicked(n, d, q, n - q * d / KICK)
  {
    SplitOff(q * d, n);
  }

  lemma SplitOff(y: int, n: int)
    ensures y + (n - y / KICK) * KICK == n * KICK + y % KICK
  {
  }

  lemma KickBound(n: nat, d: nat, s: nat, q: nat)
    requires d < s * KICK && q == n / s && 0 < s
    ensures 0 <= q * d / KICK <= n && q <= n
  {
    assert n == q * s + n % s;
    Arith.MulMono(1, s, q);
    Arith.MulMono(0, q, d);
    Arith.MulMono(d, s * KICK, q);
    Swap(s, KICK, q);
    BelowKick(q * d, n);
  }

  lemma BelowKick(y: int, n: int)
    requires 0 <= y <= n * KICK
    ensures 0 <= y / KICK <= n
  {
  }

  lemma StartInv(n: nat, d: nat, quotient: nat, remainder: nat) returns (t: nat)
    requires n <= 0x8000_0000 && 0 < d <= 0x8000_0000 && Kicked(n, d, quotient, remainder)
    ensures DivInv(n * KICK + Excess(n, d), d, t, quotient, remainder, 18)
    ensures t == LongQuotient(n * KICK + Excess(n, d), d) && t != HALF - 1
  {
    var x := n * KICK + Excess(n, d);
    t := Whole(x, d);
    Up18(remainder);
    if d >= 0x10_0000 { LargeDivisor(x, d, t); } else { SmallDivisor(n, d, t); }
  }

  lemma Whole(x: nat, d: nat) returns (t: nat)
    requires 0 < d
    ensures t == LongQuotient(x, d) && IsQuotient(x, d, t)
  {
    t := x / d;
    assert x == t * d + x % d;
  }

  lemma Up18(r: nat)
    ensures Up(r, 18) == 2 * (r * KICK)
  {
    Pow2Small();
    UpIs(r, 17);
  }

  lemma LargeDivisor(x: nat, d: nat, t: nat)
    requires 0x10_0000 <= d && x <= 0x8000_0000 * KICK + KICK && IsQuotient(x, d, t)
    ensures t <= 0x2000_0000
  {
    if t > 0x2000_0000 { Arith.MulMono(0x2000_0001, t, d); Arith.MulMono(0x10_0000, d, 0x2000_0001); }
  }

  // The quotient is never 2^32 - 1, which adding one would turn into 0.
  lemma SmallDivisor(n: nat, d: nat, t: nat)
    requires n <= 0x8000_0000 && 0 < d < 0x10_0000 && IsQuotient(n * KICK, d, t)
    ensures t != HALF - 1
  {
  }

  // The shift that uses all leading zeros, or all the bits to go.
  method ShiftRemainder(remainder: nat, bitPos: nat) returns (shift: nat, shifted: nat)
    requires 0 < remainder < HALF && bitPos <= 17
    ensures shift <= bitPos && shifted == Up(remainder, shift) < HALF
  {
    shift := Clz(remainder);
    BitsRange(remainder);
    if shift > bitPos { shift := bitPos; }
    Pow2Mono(BitLength(remainder), 32 - shift);
    ShlWhole(remainder, shift);
    shifted := Shl32(remainder, shift);
  }

  // One round of the loop; overflow tells that the quotient does not fit.
  method DivRound(d: nat, quotient0: nat, remainder0: nat, bitPos0: nat, ghost x: nat, ghost t: nat)
    returns (quotient: nat, remainder: nat, bitPos: int, overflow: bool)
    requires DivInv(x, d, t, quotient0, remainder0, bitPos0 + 1) && d <= 0x8000_0000
    requires 0 < remainder0 < HALF && quotient0 < HALF && bitPos0 <= 17
    ensures overflow ==> t >= HALF
    ensures !overflow ==> -1 <= bitPos < bitPos0 && quotient < HALF && remainder < HALF
    ensures !overflow ==> DivInv(x, d, t, quotient, remainder, bitPos + 1)
  {
    var shift, shifted := ShiftRemainder(remainder0, bitPos0);
    bitPos := bitPos0 - shift;
    var div, rest := DivideWord(shifted, d);
    RoundKeeps(x, d, t, quotient0, remainder0, bitPos0 + 1, shift, div, rest);
    quotient, overflow := AddPart(quotient0, div, bitPos);
    remainder := 2 * rest;
    bitPos := bitPos - 1;
  }

  // div = remainder / divider, remainder %= divider
  method DivideWord(x: nat, d: nat) returns (div: nat, rest: nat)
    requires 0 < d && x < HALF
    ensures x == div * d + rest && rest < d && div < HALF
  {
    div, rest := x / d, x % d;
    Arith.MulMono(1, d, div);
  }

  // quotient += div << k, and whether that lost bits.
  method AddPart(quotient0: nat, div: nat, k: nat) returns (quotient: nat, overflow: bool)
    requires quotient0 < HALF && div < HALF && k <= 32
    ensures overflow <==> div >= Pow2(32 - k)
    ensures !overflow && quotient0 + Up(div, k) < HALF ==> quotient == quotient0 + Up(div, k)
  {
    overflow := Loses(div, k);
    var part := ShiftWord(div, k);
    quotient := (quotient0 + part) % HALF;
  }

  // div & ~(0xFFFFFFFF >> k)
  method Loses(div: nat, k: nat) returns (loses: bool)
    requires div < HALF && k <= 32
    ensures loses <==> div >= Pow2(32 - k)
  {
    OverflowTest(div, k);
    loses := And(div, Up(Pow2(k) - 1, 32 - k)) != 0;
  }

  method ShiftWord(x: nat, k: nat) returns (y: nat)
    requires k <= 32
    ensures y < HALF && (x < Pow2(32 - k) ==> y == Up(x, k))
  {
    y := Shl32(x, k);
    if x < Pow2(32 - k) { ShlWhole(x, k); }
  }

  lemma RoundKeeps(x: nat, d: nat, t: nat, quotient: nat, remainder: nat, u: nat, s: nat, div: nat, r: nat)
    requires DivInv(x, d, t, quotient, remainder, u) && s < u && Up(remainder, s) == div * d + r && r < d
    ensures var k := u - 1 - s; var q := quotient + Up(div, k);
      if div < Pow2(32 - k) then q < HALF && DivInv(x, d, t, q, 2 * r, k) else t >= HALF
  {
    var k := u - 1 - s;
    DivStep(x, d, t, quotient, remainder, u, s, div, r);
    if div >= Pow2(32 - k) {
      BigPart(div, k, quotient, t);
    } else if t >= HALF {
      FitsOrNot(div, k, t);
    }
  }

  lemma BigPart(div: nat, k: nat, q: nat, t: nat)
    requires k <= 32 && div >= Pow2(32 - k) && q + Up(div, k) <= t
    ensures t >= HALF
  {
    UpIs(div, k);
    Pow2Parts(k);
    Arith.MulMono(Pow2(32 - k), div, Pow2(k));
  }

  // !(divider & 0xF)
  method LowClear(divider: nat) returns (clear: bool)
    ensures clear <==> divider % 16 == 0
  {
    LowTest(divider);
    clear := And(divider, 0xF) == 0;
  }

  // Reducing a divider by 2^4 j times.
  lemma {:induction false} Reduced(x0: nat, t: nat, quotient: nat, remainder: nat, d: nat, j: nat, v: nat)
    returns (x: nat)
    requires DivInv(x0, Up(d, 4 * j), t, quotient, remainder, v + 4 * j) && v >= 2
    ensures DivInv(x, d, t, quotient, remainder, v)
    decreases j
  {
    x := x0;
    if j > 0 {
      ReducedOnce(d, j - 1);
      x := ReduceStep(x0, Up(d, 4 * j), t, quotient, remainder, v + 4 * j, Up(d, 4 * (j - 1)), v + 4 * (j - 1));
      x := Reduced(x, t, quotient, remainder, d, j - 1, v);
    }
  }

  lemma ReducedOnce(d: nat, j: nat)
    ensures Up(d, 4 * (j + 1)) == 16 * Up(d, 4 * j)
  {
    UpUp(d, 4 * j, 4);
    Up4(Up(d, 4 * j));
  }

  lemma ReduceBack(d: nat, j: nat)
    requires d % 16 == 0
    ensures Up(d / 16, 4 * (j + 1)) == Up(d, 4 * j)
  {
    UpUp(d / 16, 4, 4 * j);
    Up4(d / 16);
  }

  // If the divider is divisible by 2^4, it and the bits to go are reduced.
  method ReduceDivider(d: nat) returns (divider: nat, bitPos: int, ghost j: nat)
    requires d <= 0x8000_0000
    ensures bitPos == 17 - 4 * j >= 1 && divider <= d && d == Up(divider, 4 * j)
  {
    divider, bitPos, j := d, 17, 0;
    var clear := LowClear(divider);
    while clear && bitPos >= 4
      invariant bitPos == 17 - 4 * j >= 1 && divider <= d && d == Up(divider, 4 * j)
      invariant clear <==> divider % 16 == 0
      decreases bitPos
    {
      ReduceBack(divider, j);
      divider := divider / 16;
      bitPos := bitPos - 4;
      j := j + 1;
      clear := LowClear(divider);
    }
  }

  // The rounds, until nothing remains or all bits are there.
  method DivRounds(divider: nat, bitPos0: int, quotient0: nat, remainder0: nat, ghost x: nat, ghost t: nat)
    returns (quotient: nat, overflow: bool)
    requires 1 <= bitPos0 <= 17 && divider <= 0x8000_0000 && quotient0 < HALF && remainder0 < HALF
    requires DivInv(x, divider, t, quotient0, remainder0, bitPos0 + 1)
    ensures if overflow then t >= HALF else quotient == t < HALF
  {
    var remainder: nat, bitPos: int := remainder0, bitPos0;
    quotient, overflow := quotient0, false;
    while remainder != 0 && bitPos >= 0
      invariant -1 <= bitPos <= 17 && quotient < HALF && remainder < HALF
      invariant DivInv(x, divider, t, quotient, remainder, bitPos + 1)
      decreases bitPos
    {
      quotient, remainder, bitPos, overflow := DivRound(divider, quotient, remainder, bitPos, x, t);
      if overflow { return; }
    }
    DivEnd(x, divider, t, quotient, remainder, bitPos + 1);
  }

  // fix16_div
  method Div(a: int, b: int) returns (r: int)
    requires IsFix16(a) && IsFix16(b)
    ensures b == 0 ==> r == MINIMUM
    ensures b != 0 ==> r == QuotientSeen(a, b)
    ensures b != 0 ==> (r == Quotient(a, b) <==> DivExact(a, b)) && r - 1 <= Quotient(a, b) <= r + 1
  {
    if b == 0 { return MINIMUM; }
    var n, d := Magnitude(a), Magnitude(b);
    SeenIsNear(a, b);
    var quotient, remainder := KickStart(n, d);
    ghost var t := StartInv(n, d, quotient, remainder);
    var divider, bitPos; ghost var j;
    divider, bitPos, j := ReduceDivider(d);
    ghost var x := Reduced(n * KICK + Excess(n, d), t, quotient, remainder, divider, j, bitPos + 1);
    var overflow;
    quotient, overflow := DivRounds(divider, bitPos, quotient, remainder, x, t);
    if overflow { return OVERFLOW; }
    r := SignAndRound(a, b, quotient);
  }

  // quotient++, then half of it with the sign.
  method SignAndRound(a: int, b: int, quotient: nat) returns (r: int)
    requires quotient < HALF - 1
    ensures r == Signed(a, b, (quotient + 1) / 2)
  {
    var q := (quotient + 1) % HALF;
    r := q / 2;
    if (a < 0) != (b < 0) {
      if r == MINIMUM { return OVERFLOW; }
      r := -r;
    }
  }
}
