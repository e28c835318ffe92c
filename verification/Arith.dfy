// Facts about multiplication and division by a variable that the solver does
// not find alone.
module Arith {

  lemma MulMono(m: int, n: int, q: int)
    requires m <= n && 0 <= q
    ensures m * q <= n * q
  {
    assert 0 <= (n - m) * q;
  }

  lemma Distribute(a: int, b: int, c: int)
    ensures (a + b) * c == a * c + b * c
  {
  }

  // Quotient and remainder are unique.
  lemma DivUnique(x: int, q: int, d: int, r: int)
    requires 0 < q && x == d * q + r && 0 <= r < q
    ensures x / q == d && x % q == r
  {
    var d', r' := x / q, x % q;
    assert x == d' * q + r';
    if d' < d {
      MulMono(d' + 1, d, q);
      Distribute(d', 1, q);
    } else if d < d' {
      MulMono(d + 1, d', q);
      Distribute(d, 1, q);
    }
  }

  lemma MultipleModulo(m: int, q: int)
    requires 0 < q
    ensures (m * q) % q == 0 && (m * q) / q == m
  {
    DivUnique(m * q, q, m, 0);
  }

  lemma Twice(s: int, p: int)
    ensures s * (2 * p) == 2 * (s * p) && 2 * s * p == 2 * (s * p)
  {
  }

  lemma Associate(s: int, p: int, q: int)
    ensures s * p * q == s * (p * q)
  {
  }

  lemma Regroup(s: int, p: int, t: int, q: int)
    ensures (s * p + t) * q == s * (p * q) + t * q
  {
    Distribute(s * p, t, q);
    Associate(s, p, q);
  }

  // Products of what lies below p stay below p times the factor.
  lemma MulBelow(t: int, p: int, q: int)
    requires 0 <= t < p && 0 < q
    ensures 0 <= t * q < p * q
  {
    MulMono(0, t, q);
    MulMono(t + 1, p, q);
    Distribute(t, 1, q);
  }

  lemma DivBelow(x: int, d: int, q: int)
    requires 0 < d && 0 <= x < q * d
    ensures 0 <= x / d < q
  {
    assert x == x / d * d + x % d;
    if q <= x / d { MulMono(q, x / d, d); }
  }
}
