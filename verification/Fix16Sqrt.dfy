// fix16_sqrt: the root digit by digit, in two phases of 32 bits each.
module Fix16Sqrt {
  import opened Words
  import opened Fix16
  import opened Fix16Div
  import Arith

  // r is the whole number nearest to the square root of x; there are no ties.
  ghost predicate IsNearest(x: nat, r: nat) {
    (if r == 0 then x == 0 else r * r - r < x) && x <= r * r + r
  }

  lemma Square(a: int, b: int)
    ensures (a + b) * (a + b) == a * a + 2 * (a * b) + b * b
  {
  }

  lemma NearestIsUnique(x: nat, r: nat, s: nat)
    requires IsNearest(x, r) && IsNearest(x, s)
    ensures r == s
  {
    if r < s { Apart(r, s); }
    if s < r { Apart(s, r); }
  }

  lemma Apart(r: nat, s: nat)
    requires r < s
    ensures r * r + r <= s * s - s
  {
    Arith.MulMono(r + 1, s, s - 1);
    Arith.MulMono(r, s - 1, r + 1);
    Arith.Distribute(r, 1, r);
    Arith.Distribute(s, -1, s);
  }

  // The partial root p, with what its square leaves of y; result is 2 * p * s for the step s
  // to try next, and p itself when no step is left.
  ghost predicate Rooting(y: nat, p: nat, s: nat, num: nat, result: nat, bit: nat) {
    && y == p * p + num && bit == s * s
    && if s == 0 then result == p && num <= 2 * p
       else result == 2 * (p * s) && num < 4 * (p * s) + 4 * (s * s)
  }

  lemma RootStep(y: nat, p: nat, s: nat, num: nat, result: nat, bit: nat)
    requires Rooting(y, p, s, num, result, bit) && 0 < s && (s == 1 || s % 2 == 0)
    ensures bit / 4 == (s / 2) * (s / 2)
    ensures num >= result + bit ==> Rooting(y, p + s, s / 2, num - (result + bit), result / 2 + bit, bit / 4)
    ensures num < result + bit ==> Rooting(y, p, s / 2, num, result / 2, bit / 4)
  {
    var h := s / 2;
    Square(p, s);
    Arith.Distribute(p, s, s);
    if s == 1 {
      assert p * 1 == p;
    } else {
      assert s == 2 * h;
      Arith.Twice(p, h);
      Arith.Twice(s, h);
      Arith.Twice(h, h);
      Arith.Distribute(p, s, h);
      assert s * s == 4 * (h * h);
      assert p * s == 2 * (p * h);
    }
  }

  // A power of two, which halving brings down to 1.
  predicate IsPow2(s: nat) { s == 1 || (s > 1 && s % 2 == 0 && IsPow2(s / 2)) }

  // The largest power of four that is no larger than num, or 0.
  method FirstBit(num: nat) returns (bit: nat, ghost s: nat)
    requires num <= 0x8000_0000
    ensures Rooting(num, 0, s, num, 0, bit) && (s == 0 || IsPow2(s)) && bit <= 0x4000_0000
  {
    KickTest(num);
    PowersOfTwo();
    if And(num, 0xFFF0_0000) != 0 {
      bit, s := 0x4000_0000, 0x8000;
    } else {
      bit, s := 0x4_0000, 0x200;
    }
    while bit > num
      invariant Rooting(num, 0, s, num, 0, bit) && (s == 0 || IsPow2(s)) && bit <= 0x4000_0000
      decreases bit
    {
      RootStep(num, 0, s, num, 0, bit);
      bit, s := bit / 4, s / 2;
    }
  }

  lemma PowersOfTwo()
    ensures IsPow2(0x80) && IsPow2(0x200) && IsPow2(0x8000)
  {
    assert IsPow2(8);
    assert IsPow2(0x40);
    assert IsPow2(0x100);
    assert IsPow2(0x400);
    assert IsPow2(0x1000);
    assert IsPow2(0x4000);
  }

  // The digits from one bit on. Nothing exceeds 32 bits.
  method RootDigits(num0: nat, result0: nat, bit0: nat, ghost y: nat, ghost p0: nat, ghost s0: nat)
    returns (num: nat, result: nat)
    requires Rooting(y, p0, s0, num0, result0, bit0) && (s0 == 0 || IsPow2(s0))
    requires bit0 <= 0x4000_0000 && result0 + bit0 < HALF && num0 < HALF
    ensures Rooting(y, result, 0, num, result, 0) && num <= num0
  {
    num, result := num0, result0;
    var bit: nat := bit0;
    ghost var p: nat, s: nat := p0, s0;
    while bit != 0
      invariant Rooting(y, p, s, num, result, bit) && (s == 0 || IsPow2(s))
      invariant bit <= 0x4000_0000 && result + bit < HALF && num <= num0
      decreases bit
    {
      RootStep(y, p, s, num, result, bit);
      if num >= result + bit {
        num := num - (result + bit);
        result := result / 2 + bit;
        p := p + s;
      } else {
        result := result / 2;
      }
      bit, s := bit / 4, s / 2;
    }
  }

  function Root(n: nat): (p: nat)
    ensures p * p <= n < (p + 1) * (p + 1)
  {
    if n == 0 then 0 else
      var q := Root(n - 1);
      if (q + 1) * (q + 1) <= n then RootGrows(q, n); q + 1 else q
  }

  lemma RootGrows(q: nat, n: nat)
    requires n - 1 < (q + 1) * (q + 1)
    ensures n < (q + 2) * (q + 2)
  {
    Square(q + 1, 1);
  }

  lemma RootIsUnique(n: nat, p: nat)
    requires p * p <= n <= p * p + 2 * p
    ensures p == Root(n)
  {
    var q := Root(n);
    Square(p, 1);
    if p < q { SquareMono(p + 1, q); }
    if q < p { SquareMono(q + 1, p); }
  }

  lemma SquareMono(a: nat, b: nat)
    requires a <= b
    ensures a * a <= b * b
  {
    Arith.MulMono(a, b, a);
    Arith.MulMono(a, b, b);
  }

  // What the root of n leaves; above 65535 it cannot be shifted as it is, and the
  // correction for that takes 0x4000 too much off.
  function Slip(n: nat): nat { if n - Root(n) * Root(n) > 0xFFFF then 0x4000 else 0 }

  // Rounding up when the rest is more than the root.
  lemma RoundRoot(y: nat, p: nat, num: nat)
    requires Rooting(y, p, 0, num, p, 0)
    ensures IsNearest(y, if num > p then p + 1 else p)
  {
    Square(p, 1);
    if p > 0 { Arith.MulMono(1, p, p); }
  }

  // fix16_sqrt, of a negative number the root of its magnitude with the sign.
  method Sqrt(v: int) returns (r: int)
    requires IsFix16(v)
    ensures (r > 0 ==> v > 0) && (r < 0 ==> v < 0)
    ensures Slip(Magnitude(v)) <= Magnitude(v) * ONE
    ensures IsNearest(Magnitude(v) * ONE - Slip(Magnitude(v)), Magnitude(r))
    ensures IsNearest(Magnitude(v) * ONE, Magnitude(r)) <==> SqrtExact(Magnitude(v))
  {
    var n: nat := Magnitude(v);
    var num, result := FirstPhase(n);
    ghost var y: nat, p: nat;
    num, result, y, p := NextPhase(n, num, result);
    var root := SecondPhase(num, result, y, p);
    if n == 0 { NearestIsUnique(0, root, 0); }
    RightIff(n, root);
    r := if v < 0 then -(root as int) else root;
  }

  method FirstPhase(n: nat) returns (num: nat, result: nat)
    requires n <= 0x8000_0000
    ensures Rooting(n, result, 0, num, result, 0)
  {
    var bit: nat; ghost var s: nat;
    bit, s := FirstBit(n);
    num, result := RootDigits(n, 0, bit, n, 0, s);
  }

  method SecondPhase(num0: nat, result0: nat, ghost y: nat, ghost p: nat) returns (root: nat)
    requires Rooting(y, p, 0x80, num0, result0, 0x4000) && num0 < HALF && result0 + 0x4000 < HALF
    ensures IsNearest(y, root)
  {
    PowersOfTwo();
    var num, result := RootDigits(num0, result0, 0x4000, y, p, 0x80);
    RoundRoot(y, result, num);
    root := if num > result then result + 1 else result;
  }

  // Setting up the second phase.
  method NextPhase(n: nat, num0: nat, result0: nat) returns (num: nat, result: nat, ghost y: nat, ghost p: nat)
    requires n <= 0x8000_0000 && Rooting(n, result0, 0, num0, result0, 0)
    ensures Slip(n) <= n * ONE && y == n * ONE - Slip(n) && Rooting(y, p, 0x80, num, result, 0x4000)
    ensures num < HALF && result + 0x4000 < HALF
  {
    RootIsUnique(n, result0);
    RootBound(result0, n);
    NextRooting(n, result0, num0);
    if num0 > 65535 {
      num, result := num0 - result0, result0 * ONE + 0x8000;
      num := num * ONE - 0x8000;
      p := 256 * result0 + 128;
      y := n * ONE - 0x4000;
    } else {
      num, result := num0 * ONE, result0 * ONE;
      p := 256 * result0;
      y := n * ONE;
    }
  }

  lemma NextRooting(n: nat, q: nat, num: nat)
    requires n == q * q + num && num <= 2 * q && q <= 46340
    ensures num > 0xFFFF ==>
      Rooting(n * ONE - 0x4000, 256 * q + 128, 0x80, (num - q) * ONE - 0x8000, q * ONE + 0x8000, 0x4000)
    ensures num <= 0xFFFF ==> Rooting(n * ONE, 256 * q, 0x80, num * ONE, q * ONE, 0x4000)
  {
    Square(256 * q, 128);
    Scaled(q);
  }

  lemma Scaled(q: nat)
    ensures 256 * q * (256 * q) == 0x1_0000 * (q * q)
  {
  }

  lemma RootBound(p: nat, n: nat)
    requires p * p <= n <= 0x8000_0000
    ensures p <= 46340 && (n < 0x4000_0000 ==> p < 0x8000)
  {
    if p > 46340 { Arith.MulMono(46341, p, p); Arith.MulMono(46341, p, 46341); }
    if p >= 0x8000 { Arith.MulMono(0x8000, p, p); Arith.MulMono(0x8000, p, 0x8000); }
  }

  // Below 2^30 nothing slips.
  lemma SmallSlip(n: nat)
    requires n <= 0x8000_0000
    ensures n < 0x4000_0000 ==> Slip(n) == 0
  {
    RootBound(Root(n), n);
    Square(Root(n), 1);
  }

  // The numbers whose root comes out right: nothing slips, or the rest of n * 2^16 is not
  // just above its root, so that the slip leaves the rounding as it is.
  predicate SqrtExact(n: nat) {
    var x := n * ONE;
    var root := Root(x);
    var rest := x - root * root;
    Slip(n) == 0 || rest <= root || rest > root + 0x4000
  }

  // The nearest root is the whole root or the next.
  lemma NearestOfRest(x: nat, root: nat)
    requires root * root <= x <= root * root + 2 * root
    ensures IsNearest(x, if x - root * root <= root then root else root + 1)
  {
    Square(root, 1);
    if root > 0 { Arith.MulMono(1, root, root); }
  }

  lemma InOrder(p: nat, q: nat)
    ensures p <= q || (q + 1) * (q + 1) <= p * p
  {
    if p > q { SquareMono(q + 1, p); }
  }

  lemma RootMono(x: nat, y: nat)
    requires x <= y
    ensures Root(x) <= Root(y)
  {
    InOrder(Root(x), Root(y));
  }

  // A slip means a number of at least 2^30, with a root far above the slip.
  lemma SlipIsHigh(n: nat)
    requires n <= 0x8000_0000 && Slip(n) != 0
    ensures n >= 0x4000_0000 && Root(n * ONE) >= 0x80_0000
  {
    SmallSlip(n);
    RootMono(0x4000_0000_0000, n * ONE);
    RootIsUnique(0x4000_0000_0000, 0x80_0000);
  }

  lemma RightIff(n: nat, m: nat)
    requires n <= 0x8000_0000 && Slip(n) <= n * ONE && IsNearest(n * ONE - Slip(n), m)
    ensures IsNearest(n * ONE, m) <==> SqrtExact(n)
  {
    var x := n * ONE;
    var root := Root(x);
    Square(root, 1);
    NearestOfRest(x, root);
    var best := if x - root * root <= root then root else root + 1;
    if Slip(n) != 0 {
      SlipIsHigh(n);
      SlippedRoot(x, root, m);
    }
    if IsNearest(x, m) { NearestIsUnique(x, best, m); }
  }

  // The root of x less the slip: below the root of x only when the rounding is lost.
  lemma SlippedRoot(x: nat, root: nat, m: nat)
    requires root >= 0x80_0000 && root * root <= x <= root * root + 2 * root
    requires IsNearest(x - 0x4000, m)
    ensures m == if x - root * root <= root + 0x4000 then root else root + 1
  {
    Square(root, 1);
    Arith.MulMono(1, root, root);
    assert IsNearest(x - 0x4000, if x - root * root <= root + 0x4000 then root else root + 1);
    NearestIsUnique(x - 0x4000, m, if x - root * root <= root + 0x4000 then root else root + 1);
  }

  // A number for which the slip shows: the result is one too small.
  lemma SlipShows()
    ensures var n := 1167586097;
      Slip(n) == 0x4000 && IsNearest(n * ONE - Slip(n), 8747509) && IsNearest(n * ONE, 8747510)
  {
    RootIsUnique(1167586097, 34169);
  }
}
