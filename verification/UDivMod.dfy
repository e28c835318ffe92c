// 64-bit division from 32-bit halves: the case analysis and the shift-subtract loop.
module UDivMod {
  import opened Words
  import Arith

  function Join(high: nat, low: nat): nat { high * HALF + low }

  // ----- the shift-subtract loop, on values -----

  // With sr steps to go: of the dividend n, the digits before the last sr have been
  // divided, giving k and the remainder r; q holds the last sr digits m on top of
  // the digits of k, the last of which is still in carry.
  ghost predicate Dividing(n: nat, d: nat, sr: nat, r: nat, q: nat, carry: nat, k: nat, m: nat) {
    && sr <= 64 && m < Pow2(sr) && r < d && carry <= 1
    && n == Up(k * d + r, sr) + m
    && Packed(q, k, m, sr, carry)
    && (d > SIGN ==> sr == 0 || (sr == 1 && n >= SIGN && k == 0))
  }

  ghost predicate Packed(q: nat, k: nat, m: nat, sr: nat, carry: nat) {
    sr <= 64 && Up(m, 64 - sr) <= q < Up(m, 64 - sr) + Pow2(64 - sr)
    && k == 2 * (q - Up(m, 64 - sr)) + carry
  }

  // The next digit of the dividend, and what is left of it.
  function Digit(m: nat, sr: nat): nat
    requires sr > 0
  {
    if m >= Pow2(sr - 1) then 1 else 0
  }

  function Others(m: nat, sr: nat): nat
    requires sr > 0
  {
    if m >= Pow2(sr - 1) then m - Pow2(sr - 1) else m
  }

  // Shifting q left by one moves the next digit out at the top, and the carry in.
  lemma ShiftPacked(q: nat, k: nat, m: nat, sr: nat, carry: nat)
    requires Packed(q, k, m, sr, carry) && sr > 0 && m < Pow2(sr) && carry <= 1
    ensures q < WORD && q / SIGN == Digit(m, sr)
    ensures var q' := (2 * q + carry) % WORD; var y := Up(Others(m, sr), 65 - sr);
      y <= q' < y + Pow2(65 - sr) && q' - y == k
  {
    var p, t, top, m' := Pow2(sr - 1), Pow2(64 - sr), Digit(m, sr), Others(m, sr);
    Pow2Add(sr - 1, 64 - sr);
    Pow2Words();
    assert m == top * p + m' && p * t == SIGN;
    UpIs(m, 64 - sr);
    UpIs(m', 65 - sr);
    ShiftCore(q, k, carry, top, m', p, t);
  }

  lemma ShiftCore(q: nat, k: nat, carry: nat, top: nat, m: nat, p: nat, t: nat)
    requires p * t == SIGN && m < p && top <= 1 && carry <= 1 && 0 < t
    requires var y := (top * p + m) * t; y <= q < y + t && k == 2 * (q - y) + carry
    ensures q < WORD && q / SIGN == top
    ensures var q' := (2 * q + carry) % WORD;
      m * (2 * t) <= q' < m * (2 * t) + 2 * t && q' - m * (2 * t) == k
  {
    Arith.Regroup(top, p, m, t);
    Arith.Twice(m, t);
    MulFits(m, p, t);
    ShiftTop(q, carry, top, q - top * SIGN);
  }

  lemma MulFits(m: nat, p: nat, t: nat)
    requires m < p
    ensures 0 <= m * t && m * t + t <= p * t
  {
    Arith.MulMono(m + 1, p, t);
    Arith.Distribute(m, 1, t);
    Arith.MulMono(0, m, t);
  }

  lemma ShiftTop(q: nat, carry: nat, top: nat, y: nat)
    requires q == top * SIGN + y && y < SIGN && top <= 1 && carry <= 1
    ensures q / SIGN == top && (2 * q + carry) % WORD == 2 * y + carry
  {
  }

  // The next remainder before the subtraction still fits in 64 bits, and is below 2 * d.
  lemma NextRemainder(n: nat, d: nat, sr: nat, r: nat, k: nat, m: nat)
    requires n < WORD && sr > 0 && m < Pow2(sr) && r < d && n == Up(k * d + r, sr) + m
    ensures var r1 := 2 * r + Digit(m, sr);
      && r1 < 2 * d && r1 <= n
      && n == Up(2 * k * d + r1, sr - 1) + Others(m, sr)
      && (k == 0 && sr == 1 ==> r1 == n)
  {
    var p, top, m' := Pow2(sr - 1), Digit(m, sr), Others(m, sr);
    UpIs(k * d + r, sr);
    UpIs(2 * k * d + (2 * r + top), sr - 1);
    NextDigit(k * d + r, p, top);
    Arith.Twice(k, d);
    Arith.MulMono(0, k, d);
    AtMostWhole(2 * k * d, 2 * r + top, p);
  }

  lemma NextDigit(x: int, p: int, top: int)
    ensures x * (2 * p) + top * p == (2 * x + top) * p
  {
    Arith.Twice(x, p);
    Arith.Distribute(2 * x, top, p);
  }

  lemma AtMostWhole(x: nat, r: nat, p: nat)
    requires 0 < p
    ensures r <= (x + r) * p
  {
    Arith.MulMono(1, p, x + r);
  }

  // The comparison by sign: d - r - 1 computed modulo 2^64 has its sign bit set
  // exactly when r >= d, as long as the two differ by no more than 2^63.
  lemma SignCompares(d: nat, r: nat)
    requires 0 < d < WORD && r < WORD && r < 2 * d && (d > SIGN ==> r >= SIGN)
    ensures (d - r - 1) % WORD >= SIGN <==> r >= d
  {
  }

  lemma DivideStep(n: nat, d: nat, sr: nat, r: nat, q: nat, carry: nat, k: nat, m: nat)
    requires n < WORD && 0 < d < WORD && sr > 0 && Dividing(n, d, sr, r, q, carry, k, m)
    ensures var r1, q1 := 2 * r + q / SIGN, (2 * q + carry) % WORD;
      var c := if r1 >= d then 1 else 0;
      && r1 < WORD && r1 < 2 * d && (d > SIGN ==> r1 >= SIGN)
      && Dividing(n, d, sr - 1, if r1 >= d then r1 - d else r1, q1, c, 2 * k + c, Others(m, sr))
  {
    ShiftPacked(q, k, m, sr, carry);
    NextRemainder(n, d, sr, r, k, m);
    var r1 := 2 * r + Digit(m, sr);
    var c := if r1 >= d then 1 else 0;
    Arith.Distribute(2 * k, c, d);
    assert 2 * k * d + r1 == (2 * k + c) * d + (r1 - c * d);
  }

  // After the last step the quotient and the remainder are there.
  lemma DivideEnd(n: nat, d: nat, r: nat, q: nat, carry: nat, k: nat, m: nat)
    requires n < WORD && 0 < d && Dividing(n, d, 0, r, q, carry, k, m)
    ensures (2 * q + carry) % WORD == k && n == k * d + r && r < d
  {
    Pow2Words();
    UpIs(0, 64);
    Arith.MulMono(1, d, k);
  }

  // ----- on the halves -----

  lemma Shl1(h: nat)
    ensures Shl32(h, 1) == (2 * h) % HALF
  {
    assert Pow2(1) == 2;
  }

  lemma Shr31(l: nat)
    requires l < HALF
    ensures Shr(l, 31) == l / 0x8000_0000 <= 1
  {
    Pow2Words();
    ShrRange(l, 31);
    Quotient31(l, Shr(l, 31));
  }

  lemma Quotient31(l: nat, s: nat)
    requires l < HALF && s * 0x8000_0000 <= l < s * 0x8000_0000 + 0x8000_0000
    ensures s == l / 0x8000_0000 <= 1
  {
  }

  lemma OrCarry(x: nat, carry: nat)
    requires carry <= 1
    ensures Or(2 * x, carry) == 2 * x + carry
  {
    assert Pow2(1) == 2;
    OrIsSum(x, carry, 1);
  }

  lemma ShiftIn(h: nat, l: nat)
    requires h < HALF && l < HALF
    ensures Or(Shl32(h, 1), Shr(l, 31)) == (2 * h) % HALF + l / 0x8000_0000 < HALF
  {
    Shl1(h);
    Shr31(l);
    var x := if h < 0x8000_0000 then h else h - 0x8000_0000;
    assert (2 * h) % HALF == 2 * x;
    OrCarry(x, l / 0x8000_0000);
  }

  // A word without its top digit, doubled.
  lemma Doubled(h: nat)
    requires h < HALF
    ensures (2 * h) % HALF == 2 * h - h / 0x8000_0000 * HALF
  {
  }

  // r:q = ((r:q) << 1) | carry, half by half.
  method ShiftLeft(rh0: nat, rl0: nat, qh0: nat, ql0: nat, carry: nat) returns (rh: nat, rl: nat, qh: nat, ql: nat)
    requires rh0 < HALF && rl0 < HALF && qh0 < HALF && ql0 < HALF && carry <= 1
    requires 2 * Join(rh0, rl0) + Join(qh0, ql0) / SIGN < WORD
    ensures rh < HALF && rl < HALF && qh < HALF && ql < HALF
    ensures Join(rh, rl) == 2 * Join(rh0, rl0) + Join(qh0, ql0) / SIGN
    ensures Join(qh, ql) == (2 * Join(qh0, ql0) + carry) % WORD
  {
    ShiftIn(rh0, rl0);
    ShiftIn(rl0, qh0);
    ShiftIn(qh0, ql0);
    ShiftLast(ql0, carry);
    Doubled(rh0);
    Doubled(rl0);
    Doubled(qh0);
    Doubled(ql0);
    rh := Or(Shl32(rh0, 1), Shr(rl0, 31));
    rl := Or(Shl32(rl0, 1), Shr(qh0, 31));
    qh := Or(Shl32(qh0, 1), Shr(ql0, 31));
    ql := Or(Shl32(ql0, 1), carry);
    TopDigit(qh0, ql0);
    NoTop(rh0, rl0, qh0 / 0x8000_0000);
    WithoutTop(2 * Join(qh0, ql0) + carry, qh0 / 0x8000_0000, Join(qh, ql));
  }

  lemma ShiftLast(l: nat, carry: nat)
    requires l < HALF && carry <= 1
    ensures Or(Shl32(l, 1), carry) == (2 * l) % HALF + carry < HALF
  {
    Shl1(l);
    var x := if l < 0x8000_0000 then l else l - 0x8000_0000;
    assert (2 * l) % HALF == 2 * x;
    OrCarry(x, carry);
  }

  lemma TopDigit(h: nat, l: nat)
    requires h < HALF && l < HALF
    ensures Join(h, l) / SIGN == h / 0x8000_0000
  {
  }

  lemma NoTop(h: nat, l: nat, c: nat)
    requires 2 * Join(h, l) + c < WORD
    ensures h / 0x8000_0000 == 0
  {
  }

  lemma WithoutTop(x: nat, top: nat, y: nat)
    requires x == top * WORD + y && y < WORD
    ensures x % WORD == y
  {
  }

  lemma MaskSign(d: nat)
    requires d < WORD
    ensures And(d, WORD - 1) == d && And(d, 0) == 0 && And(WORD - 1, 1) == 1 && And(0, 1) == 0
  {
    MaskAll(d);
    AndNone(d);
    LowBit(WORD - 1);
    LowBit(0);
  }

  lemma MaskAll(d: nat)
    requires d < WORD
    ensures And(d, WORD - 1) == d
  {
    Pow2Words();
    AndMask(d, 64);
    ShrRange(d, 64);
  }

  lemma LowBit(x: nat)
    ensures And(x, 1) == x % 2
  {
    AndMask(x, 1);
    ShrRange(x, 1);
    assert Pow2(1) == 2;
  }

  // Subtracts d when it is not above r: through the sign of d - r - 1.
  method SubtractIf(rh0: nat, rl0: nat, d: nat) returns (rh: nat, rl: nat, carry: nat)
    requires rh0 < HALF && rl0 < HALF && 0 < d < WORD && Join(rh0, rl0) < 2 * d && (d > SIGN ==> Join(rh0, rl0) >= SIGN)
    ensures rh < HALF && rl < HALF && carry == if Join(rh0, rl0) >= d then 1 else 0
    ensures Join(rh, rl) == if Join(rh0, rl0) >= d then Join(rh0, rl0) - d else Join(rh0, rl0)
  {
    var r := Join(rh0, rl0);
    SignCompares(d, r);
    MaskSign(d);
    var s := if (d - r - 1) % WORD >= SIGN then WORD - 1 else 0;
    carry := And(s, 1);
    r := (r - And(d, s)) % WORD;
    rh, rl := r / HALF, r % HALF;
  }

  method LoopStep(sr: nat, rh0: nat, rl0: nat, qh0: nat, ql0: nat, carry0: nat, d: nat, ghost n: nat, ghost k0: nat,
                  ghost m0: nat)
    returns (rh: nat, rl: nat, qh: nat, ql: nat, carry: nat, ghost k: nat, ghost m: nat)
    requires n < WORD && 0 < d < WORD && rh0 < HALF && rl0 < HALF && qh0 < HALF && ql0 < HALF && carry0 <= 1 && sr > 0
    requires Dividing(n, d, sr, Join(rh0, rl0), Join(qh0, ql0), carry0, k0, m0)
    ensures rh < HALF && rl < HALF && qh < HALF && ql < HALF && carry <= 1
    ensures Dividing(n, d, sr - 1, Join(rh, rl), Join(qh, ql), carry, k, m)
  {
    DivideStep(n, d, sr, Join(rh0, rl0), Join(qh0, ql0), carry0, k0, m0);
    rh, rl, qh, ql := ShiftLeft(rh0, rl0, qh0, ql0, carry0);
    rh, rl, carry := SubtractIf(rh, rl, d);
    k, m := 2 * k0 + carry, Others(m0, sr);
  }

  // The loop at the end of __udivmoddi4.
  method DivideLoop(sr0: nat, rh0: nat, rl0: nat, qh0: nat, ql0: nat, d: nat, ghost n: nat, ghost m0: nat)
    returns (q: nat, r: nat)
    requires n < WORD && 0 < d < WORD && rh0 < HALF && rl0 < HALF && qh0 < HALF && ql0 < HALF
    requires Dividing(n, d, sr0, Join(rh0, rl0), Join(qh0, ql0), 0, 0, m0)
    ensures n == q * d + r && r < d
  {
    var sr: nat, rh: nat, rl: nat, qh: nat, ql: nat, carry: nat := sr0, rh0, rl0, qh0, ql0, 0;
    ghost var k: nat, m: nat := 0, m0;
    while sr > 0
      invariant rh < HALF && rl < HALF && qh < HALF && ql < HALF && carry <= 1
      invariant Dividing(n, d, sr, Join(rh, rl), Join(qh, ql), carry, k, m)
    {
      rh, rl, qh, ql, carry, k, m := LoopStep(sr, rh, rl, qh, ql, carry, d, n, k, m);
      sr := sr - 1;
    }
    q, r := Finish(rh, rl, qh, ql, carry, d, n, k, m);
  }

  method Finish(rh: nat, rl: nat, qh: nat, ql: nat, carry: nat, ghost d: nat, ghost n: nat, ghost k: nat,
                ghost m: nat) returns (q: nat, r: nat)
    requires rh < HALF && rl < HALF && qh < HALF && ql < HALF && carry <= 1
    requires n < WORD && 0 < d && Dividing(n, d, 0, Join(rh, rl), Join(qh, ql), carry, k, m)
    ensures n == q * d + r && r < d
  {
    DivideEnd(n, d, Join(rh, rl), Join(qh, ql), carry, k, m);
    q := LastDigit(qh, ql, carry);
    r := Join(rh, rl);
    assert q == k;
  }

  // q.all = (q.all << 1) | carry
  method LastDigit(qh: nat, ql: nat, carry: nat) returns (q: nat)
    requires qh < HALF && ql < HALF && carry <= 1
    ensures q == (2 * Join(qh, ql) + carry) % WORD
  {
    var x := Join(qh, ql);
    ghost var y := if x < SIGN then x else x - SIGN;
    assert (2 * x) % WORD == 2 * y && (2 * x + carry) % WORD == 2 * y + carry;
    OrCarry(y, carry);
    q := Or((2 * x) % WORD, carry);
  }

  // ----- setting the loop up -----

  lemma StartDividing(n: nat, d: nat, sr: nat, r: nat, q: nat, m: nat)
    requires 0 < sr <= 64 && n == Up(r, sr) + m && m < Pow2(sr) && q == Up(m, 64 - sr) && r < d
    requires d > SIGN ==> sr == 1 && n >= SIGN
    ensures Dividing(n, d, sr, r, q, 0, 0, m)
  {
    assert 0 * d == 0;
  }

  // The dividend's halves, each divided at its last digits.
  lemma SplitCore(s: nat, t: nat, u: nat, v: nat, p: nat, c: nat)
    requires p * c == HALF && t < p && v < p && u < c
    ensures (s * p + t) * HALF + (u * p + v) == (s * HALF + (t * c + u)) * p + v
    ensures t * c + u < HALF && v * c < HALF
    ensures (t * HALF + (u * p + v)) * c == (t * c + u) * HALF + v * c
  {
    Arith.Distribute(s * p, t, HALF);
    Arith.Distribute(s * HALF, t * c + u, p);
    Arith.Distribute(t * c, u, p);
    Commute(t, c, p);
    Commute(s, p, HALF);
    Arith.Distribute(t * HALF, u * p + v, c);
    Arith.Distribute(u * p, v, c);
    Arith.Associate(u, p, c);
    Commute(t, HALF, c);
    Arith.Distribute(t * c, u, HALF);
    MulFits(t, p, c);
    MulFits(v, p, c);
  }

  lemma Commute(x: int, y: int, z: int)
    ensures x * y * z == x * z * y && x * y * z == x * (z * y)
  {
  }

  lemma BelowFactor(u: nat, p: nat, c: nat)
    requires u * p < p * c
    ensures u < c
  {
    if c <= u { Arith.MulMono(c, u, p); }
  }

  function Low(x: nat, k: nat): nat {
    ShrRange(x, k);
    x - Shr(x, k) * Pow2(k)
  }

  // Shifting both halves right by 1 <= k <= 31, what falls out going to the top of q.
  method ShiftLow(nh: nat, nl: nat, k: nat) returns (rh: nat, rl: nat, qh: nat, ql: nat, ghost m: nat)
    requires nh < HALF && nl < HALF && 1 <= k <= 31
    ensures rh < HALF && rl < HALF && qh < HALF && ql < HALF
    ensures m < Pow2(k) && Join(nh, nl) == Up(Join(rh, rl), k) + m && Join(qh, ql) == Up(m, 64 - k)
  {
    ql := 0;
    qh := Shl32(nl, 32 - k);
    rh := Shr(nh, k);
    rl := Or(Shl32(nh, 32 - k), Shr(nl, k));
    m := ShiftLowIs(nh, nl, k);
  }

  lemma ShiftLowIs(nh: nat, nl: nat, k: nat) returns (m: nat)
    requires nh < HALF && nl < HALF && 1 <= k <= 31
    ensures var rh, rl, qh := Shr(nh, k), Or(Shl32(nh, 32 - k), Shr(nl, k)), Shl32(nl, 32 - k);
      && rh < HALF && rl < HALF && qh < HALF && m < Pow2(k)
      && Join(nh, nl) == Up(Join(rh, rl), k) + m && Join(qh, 0) == Up(m, 64 - k) && m == Low(nl, k)
  {
    var s, t, u, v, p, c := Shr(nh, k), Low(nh, k), Shr(nl, k), Low(nl, k), Pow2(k), Pow2(32 - k);
    Halves(nh, nl, k);
    SplitCore(s, t, u, v, p, c);
    OrIsSum(t, u, 32 - k);
    UpIs(s * HALF + (t * c + u), k);
    UpHalf(v, k);
    m := v;
  }

  // What the shifts of the halves by k and 32 - k give.
  lemma Halves(nh: nat, nl: nat, k: nat)
    requires nh < HALF && nl < HALF && 1 <= k <= 31
    ensures Pow2(k) * Pow2(32 - k) == HALF
    ensures nh == Shr(nh, k) * Pow2(k) + Low(nh, k) && Low(nh, k) < Pow2(k) && Shr(nh, k) < HALF
    ensures nl == Shr(nl, k) * Pow2(k) + Low(nl, k) && Low(nl, k) < Pow2(k) && Shr(nl, k) < Pow2(32 - k)
    ensures Shl32(nh, 32 - k) == Low(nh, k) * Pow2(32 - k) && Shl32(nl, 32 - k) == Low(nl, k) * Pow2(32 - k)
  {
    Pow2Words();
    Pow2Add(k, 32 - k);
    ShrRange(nh, k);
    ShrRange(nl, k);
    ShlIs(nh, 32 - k);
    ShlIs(nl, 32 - k);
    BelowFactor(Shr(nl, k), Pow2(k), Pow2(32 - k));
    Arith.MulMono(1, Pow2(k), Shr(nh, k));
  }

  lemma UpHalf(v: nat, k: nat)
    requires k <= 32
    ensures Up(v, 64 - k) == v * Pow2(32 - k) * HALF
  {
    UpIs(v, 64 - k);
    Pow2Add(32 - k, 32);
    Pow2Words();
    Arith.Associate(v, Pow2(32 - k), HALF);
  }

  // Shifting by 32 moves the halves as they are.
  method ShiftMid(nh: nat, nl: nat) returns (rh: nat, rl: nat, qh: nat, ql: nat, ghost m: nat)
    requires nh < HALF && nl < HALF
    ensures rh < HALF && rl < HALF && qh < HALF && ql < HALF
    ensures m < Pow2(32) && Join(nh, nl) == Up(Join(rh, rl), 32) + m && Join(qh, ql) == Up(m, 32)
  {
    ql := 0;
    qh := nl;
    rh := 0;
    rl := nh;
    m := nl;
    Pow2Words();
    UpIs(nh, 32);
    UpIs(nl, 32);
  }

  // Shifting by 33 <= k <= 63 leaves nothing of the high half of r.
  method ShiftHigh(nh: nat, nl: nat, k: nat) returns (rh: nat, rl: nat, qh: nat, ql: nat, ghost m: nat)
    requires nh < HALF && nl < HALF && 33 <= k <= 63
    ensures rh < HALF && rl < HALF && qh < HALF && ql < HALF
    ensures m < Pow2(k) && Join(nh, nl) == Up(Join(rh, rl), k) + m && Join(qh, ql) == Up(m, 64 - k)
  {
    ql := Shl32(nl, 64 - k);
    qh := Or(Shl32(nh, 64 - k), Shr(nl, k - 32));
    rh := 0;
    rl := Shr(nh, k - 32);
    m := ShiftHighIs(nh, nl, k - 32);
  }

  lemma ShiftHighIs(nh: nat, nl: nat, k: nat) returns (m: nat)
    requires nh < HALF && nl < HALF && 1 <= k <= 31
    ensures var rl, qh, ql := Shr(nh, k), Or(Shl32(nh, 32 - k), Shr(nl, k)), Shl32(nl, 32 - k);
      && rl < HALF && ql < HALF && qh < HALF && m < Pow2(32 + k)
      && Join(nh, nl) == Up(Join(0, rl), 32 + k) + m && Join(qh, ql) == Up(m, 32 - k)
  {
    var s, t, u, v, p, c := Shr(nh, k), Low(nh, k), Shr(nl, k), Low(nl, k), Pow2(k), Pow2(32 - k);
    Halves(nh, nl, k);
    SplitCore(s, t, u, v, p, c);
    OrIsSum(t, u, 32 - k);
    m := t * HALF + nl;
    UpIs(m, 32 - k);
    UpIs(s, 32 + k);
    Pow2Add(k, 32);
    Pow2Words();
    Arith.Associate(s, p, HALF);
    Arith.Distribute(s * p, t, HALF);
  }

  // ----- the first remainder is below the divisor -----

  lemma JoinRange(h: nat, l: nat)
    requires 0 < h < HALF && l < HALF
    ensures BitLength(h) <= 32 && Pow2(31 + BitLength(h)) <= Join(h, l) < Pow2(32 + BitLength(h))
  {
    BitsBound(h, 32);
    BitsRange(h);
    Pow2Words();
    Pow2Add(BitLength(h) - 1, 32);
    Pow2Add(BitLength(h), 32);
    assert Pow2(31 + BitLength(h)) == Pow2(BitLength(h) - 1) * HALF
      && Pow2(32 + BitLength(h)) == Pow2(BitLength(h)) * HALF;
  }

  lemma RemainderBelow(n: nat, r: nat, sr: nat, x: nat)
    requires Up(r, sr) <= n < Pow2(x + sr)
    ensures r < Pow2(x)
  {
    UpIs(r, sr);
    Pow2Add(x, sr);
    if Pow2(x) <= r { Arith.MulMono(Pow2(x), r, Pow2(sr)); }
  }

  // For a divisor with a high half.
  lemma FirstRemainder(nh: nat, nl: nat, dh: nat, dl: nat, sr: nat, r: nat)
    requires 0 < nh < HALF && nl < HALF && 0 < dh < HALF && dl < HALF
    requires sr == 1 + BitLength(nh) - BitLength(dh) && sr > 0 && Up(r, sr) <= Join(nh, nl)
    ensures r < Join(dh, dl)
  {
    JoinRange(nh, nl);
    JoinRange(dh, dl);
    RemainderBelow(Join(nh, nl), r, sr, 31 + BitLength(dh));
  }

  // A divisor above 2^63 leaves only one step.
  lemma LargeDivisor(nh: nat, nl: nat, dh: nat, dl: nat)
    requires 0 < nh < HALF && nl < HALF && 0 < dh < HALF && dl < HALF
    requires BitLength(dh) <= BitLength(nh) && Join(dh, dl) > SIGN
    ensures BitLength(dh) == BitLength(nh) && Join(nh, nl) >= SIGN
  {
    BitsRange(dh);
    BitsRange(nh);
    BitsBound(nh, 32);
    Pow2Words();
    if BitLength(dh) <= 31 { Pow2Mono(BitLength(dh), 31); }
  }

  // A dividend with fewer digits is the smaller number.
  lemma FewerDigits(nh: nat, nl: nat, dh: nat, dl: nat)
    requires 0 < nh < HALF && nl < HALF && 0 < dh < HALF && dl < HALF && BitLength(nh) < BitLength(dh)
    ensures Join(nh, nl) < Join(dh, dl)
  {
    BitsRange(nh);
    BitsRange(dh);
    Pow2Mono(BitLength(nh), BitLength(dh) - 1);
  }

  // The unsigned difference of the leading zeros; huge when the dividend has fewer digits.
  function Steps(nh: nat, dh: nat): (sr: nat)
    requires 0 < nh < HALF && 0 < dh < HALF
    ensures if BitLength(nh) < BitLength(dh) then sr > 31 else sr == BitLength(nh) - BitLength(dh) <= 31
  {
    BitsBound(nh, 32);
    BitsBound(dh, 32);
    (Clz(dh) - Clz(nh)) % HALF
  }

  // From r:q set up to the result.
  method RunLoop(nh: nat, nl: nat, dh: nat, dl: nat, sr: nat, rh: nat, rl: nat, qh: nat, ql: nat, ghost m: nat)
    returns (q: nat, rem: nat)
    requires 0 < nh < HALF && nl < HALF && 0 < dh < HALF && dl < HALF && rh < HALF && rl < HALF && qh < HALF
      && ql < HALF
    requires sr == 1 + BitLength(nh) - BitLength(dh) && 0 < sr <= 64
    requires m < Pow2(sr) && Join(nh, nl) == Up(Join(rh, rl), sr) + m && Join(qh, ql) == Up(m, 64 - sr)
    ensures Join(nh, nl) == q * Join(dh, dl) + rem && rem < Join(dh, dl)
  {
    FirstRemainder(nh, nl, dh, dl, sr, Join(rh, rl));
    if Join(dh, dl) > SIGN { LargeDivisor(nh, nl, dh, dl); }
    StartDividing(Join(nh, nl), Join(dh, dl), sr, Join(rh, rl), Join(qh, ql), m);
    q, rem := DivideLoop(sr, rh, rl, qh, ql, Join(dh, dl), Join(nh, nl), m);
  }

  lemma DigitsOfOne(x: nat)
    requires 0 < x && (BitLength(x) == 1 || x == 1)
    ensures x == 1 && And(x, x - 1) == 0 && BitLength(x) == 1
  {
    BitsRange(x);
    assert Pow2(1) == 2;
    AndNone(1);
  }

  // ----- the cases of __udivmoddi4 with a high half in the dividend -----

  // K X / K K
  method BothHigh(nh: nat, nl: nat, dh: nat, dl: nat) returns (q: nat, rem: nat)
    requires 0 < nh < HALF && nl < HALF && 0 < dh < HALF && 0 < dl < HALF
    ensures Join(nh, nl) == q * Join(dh, dl) + rem && rem < Join(dh, dl)
  {
    var sr := Steps(nh, dh);
    if sr > 31 {
      FewerDigits(nh, nl, dh, dl);
      return 0, Join(nh, nl);
    }
    sr := sr + 1;
    var rh: nat, rl: nat, qh: nat, ql: nat; ghost var m: nat;
    if sr == 32 {
      rh, rl, qh, ql, m := ShiftMid(nh, nl);
    } else {
      rh, rl, qh, ql, m := ShiftLow(nh, nl, sr);
    }
    q, rem := RunLoop(nh, nl, dh, dl, sr, rh, rl, qh, ql, m);
  }

  lemma DivideHalves(nh: nat, nl: nat, dh: nat, q: nat, r: nat)
    requires nh == q * dh + r && r < dh && nl < HALF
    ensures Join(nh, nl) == q * Join(dh, 0) + Join(r, nl) && Join(r, nl) < Join(dh, 0)
  {
    Arith.Distribute(q * dh, r, HALF);
    Arith.Associate(q, dh, HALF);
  }

  // K 0 / K 0: the high halves alone.
  method HighByHigh(nh: nat, dh: nat) returns (q: nat, rem: nat)
    requires 0 < nh < HALF && 0 < dh < HALF
    ensures Join(nh, 0) == q * Join(dh, 0) + rem && rem < Join(dh, 0)
  {
    q, rem := nh / dh, Join(nh % dh, 0);
    DivideHalves(nh, 0, dh, q, nh % dh);
  }

  // K K / K 0, the divisor a power of two.
  method HighByPowerOfTwo(nh: nat, nl: nat, dh: nat) returns (q: nat, rem: nat)
    requires 0 < nh < HALF && nl < HALF && 0 < dh < HALF && And(dh, dh - 1) == 0
    ensures Join(nh, nl) == q * Join(dh, 0) + rem && rem < Join(dh, 0)
  {
    PowerOfTwo(dh);
    AndMask(nh, Ctz(dh));
    ShrRange(nh, Ctz(dh));
    rem := Join(And(nh, dh - 1), nl);
    q := Shr(nh, Ctz(dh));
    DivideHalves(nh, nl, dh, q, And(nh, dh - 1));
  }

  // K X / K 0
  method DivisorLowZero(nh: nat, nl: nat, dh: nat) returns (q: nat, rem: nat)
    requires 0 < nh < HALF && nl < HALF && 0 < dh < HALF
    ensures Join(nh, nl) == q * Join(dh, 0) + rem && rem < Join(dh, 0)
  {
    if nl == 0 {
      q, rem := HighByHigh(nh, dh);
      return;
    }
    if And(dh, dh - 1) == 0 {
      q, rem := HighByPowerOfTwo(nh, nl, dh);
      return;
    }
    if BitLength(dh) == 1 { DigitsOfOne(dh); }
    var sr := Steps(nh, dh);
    if sr > 30 {
      BitsBound(nh, 32);
      BitsBound(dh, 32);
      FewerDigits(nh, nl, dh, 0);
      return 0, Join(nh, nl);
    }
    sr := sr + 1;
    var rh: nat, rl: nat, qh: nat, ql: nat; ghost var m: nat;
    rh, rl, qh, ql, m := ShiftLow(nh, nl, sr);
    q, rem := RunLoop(nh, nl, dh, 0, sr, rh, rl, qh, ql, m);
  }

  // K X / 0 K, the divisor a power of two: shifts only.
  method DivisorPowerOfTwo(nh: nat, nl: nat, dl: nat) returns (q: nat, rem: nat)
    requires 0 < nh < HALF && nl < HALF && 0 < dl < HALF && And(dl, dl - 1) == 0
    ensures Join(nh, nl) == q * dl + rem && rem < dl
  {
    rem := And(nl, dl - 1);
    if dl == 1 {
      AndNone(nl);
      return Join(nh, nl), rem;
    }
    PowerOfTwo(dl);
    var sr := Ctz(dl);
    Pow2Words();
    if sr >= 32 { Pow2Mono(32, sr); }
    AndMask(nl, sr);
    ghost var m := ShiftLowIs(nh, nl, sr);
    var qh := Shr(nh, sr);
    var ql := Or(Shl32(nh, 32 - sr), Shr(nl, sr));
    q := Join(qh, ql);
    UpIs(q, sr);
  }

  // K X / 0 K
  method DivisorHighZero(nh: nat, nl: nat, dl: nat) returns (q: nat, rem: nat)
    requires 0 < nh < HALF && nl < HALF && 0 < dl < HALF
    ensures Join(nh, nl) == q * dl + rem && rem < dl
  {
    if And(dl, dl - 1) == 0 {
      q, rem := DivisorPowerOfTwo(nh, nl, dl);
      return;
    }
    if BitLength(dl) == 1 { DigitsOfOne(dl); }
    var sr: nat := 1 + 32 + Clz(dl) - Clz(nh);
    var rh: nat, rl: nat, qh: nat, ql: nat; ghost var m: nat;
    if sr == 32 {
      rh, rl, qh, ql, m := ShiftMid(nh, nl);
    } else if sr < 32 {
      rh, rl, qh, ql, m := ShiftLow(nh, nl, sr);
    } else {
      rh, rl, qh, ql, m := ShiftHigh(nh, nl, sr);
    }
    q, rem := RunLowLoop(nh, nl, dl, sr, rh, rl, qh, ql, m);
  }

  method RunLowLoop(nh: nat, nl: nat, dl: nat, sr: nat, rh: nat, rl: nat, qh: nat, ql: nat, ghost m: nat)
    returns (q: nat, rem: nat)
    requires 0 < nh < HALF && nl < HALF && 0 < dl < HALF && rh < HALF && rl < HALF && qh < HALF && ql < HALF
    requires sr == 33 + BitLength(nh) - BitLength(dl) && 0 < sr <= 64
    requires m < Pow2(sr) && Join(nh, nl) == Up(Join(rh, rl), sr) + m && Join(qh, ql) == Up(m, 64 - sr)
    ensures Join(nh, nl) == q * dl + rem && rem < dl
  {
    JoinRange(nh, nl);
    BitsRange(dl);
    RemainderBelow(Join(nh, nl), Join(rh, rl), sr, BitLength(dl) - 1);
    StartDividing(Join(nh, nl), dl, sr, Join(rh, rl), Join(qh, ql), m);
    q, rem := DivideLoop(sr, rh, rl, qh, ql, dl, Join(nh, nl), m);
  }

  // __udivmoddi4; a divisor of 0 is the caller's error.
  method UDivModDi4(a: nat, b: nat) returns (q: nat, rem: nat)
    requires a < WORD && 0 < b < WORD
    ensures a == q * b + rem && rem < b
  {
    var nh, nl, dh, dl := a / HALF, a % HALF, b / HALF, b % HALF;
    assert a == Join(nh, nl) && b == Join(dh, dl);
    if nh == 0 {
      if dh == 0 {
        return nl / dl, nl % dl;
      }
      return 0, nl;
    }
    if dl == 0 {
      q, rem := DivisorLowZero(nh, nl, dh);
    } else if dh == 0 {
      q, rem := DivisorHighZero(nh, nl, dl);
    } else {
      q, rem := BothHigh(nh, nl, dh, dl);
    }
  }
}
