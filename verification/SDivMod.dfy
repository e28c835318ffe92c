// The signed division and remainder on top of the unsigned one: truncation
// towards zero, as section 6.5.5 of ISO/IEC 9899:1999 has it.
module SDivMod {
  import opened Words
  import opened UDivMod
  import Arith

  // A 64-bit pattern read as a signed number.
  function Wrap(x: int): (w: int)
    ensures -SIGN <= w < SIGN
  {
    (x + SIGN) % WORD - SIGN
  }

  function Abs(x: int): nat { if x < 0 then -x else x }

  // The quotient without its fraction.
  function Trunc(a: int, b: int): int
    requires b != 0
  {
    if (a < 0) == (b < 0) then Abs(a) / Abs(b) else -(Abs(a) / Abs(b))
  }

  ghost predicate Truncates(a: int, b: int, q: int, r: int) {
    a == q * b + r && Abs(r) < Abs(b) && (r == 0 || (r < 0 <==> a < 0))
  }

  lemma SignOfProduct(m: int, b: int)
    ensures (-m) * b == -(m * b) && m * (-b) == -(m * b)
  {
  }

  // Trunc is the one quotient whose remainder is smaller than b and has the sign of a.
  lemma TruncTruncates(a: int, b: int)
    requires b != 0
    ensures Truncates(a, b, Trunc(a, b), a - Trunc(a, b) * b)
  {
    Divide(Abs(a), Abs(b));
    WithSigns(a, b, Abs(a) / Abs(b), Abs(a) % Abs(b));
  }

  lemma Divide(x: nat, y: nat)
    requires 0 < y
    ensures x == x / y * y + x % y && 0 <= x % y < y && 0 <= x / y
  {
  }

  lemma WithSigns(a: int, b: int, m: nat, r: nat)
    requires b != 0 && Abs(a) == m * Abs(b) + r && r < Abs(b)
    ensures var q := if (a < 0) == (b < 0) then m else -(m as int);
      && Truncates(a, b, q, a - q * b)
      && a - q * b == (if a < 0 then -(r as int) else r as int)
  {
    SignOfProduct(m, b);
  }

  lemma TruncIsUnique(a: int, b: int, q: int, r: int)
    requires b != 0 && Truncates(a, b, q, r)
    ensures q == Trunc(a, b) && r == a - Trunc(a, b) * b
  {
    TruncTruncates(a, b);
    var q', r' := Trunc(a, b), a - Trunc(a, b) * b;
    Arith.Distribute(q, -q', b);
    SignOfProduct(q', b);
    NoMultipleBelow(q - q', b, r' - r);
  }

  // A multiple of b that is nearer to 0 than b is 0.
  lemma NoMultipleBelow(x: int, b: int, d: int)
    requires b != 0 && x * b == d && Abs(d) < Abs(b)
    ensures x == 0
  {
    SignOfProduct(x, b);
    if x >= 1 { Arith.MulMono(1, x, Abs(b)); }
    if x <= -1 { Arith.MulMono(x, -1, Abs(b)); }
  }

  // x ^ s for s = 0 or -1, all bits kept or all turned over.
  function Flip(x: int, s: int): int { if s == 0 then x else -1 - x }

  function SignOf(x: int): int { if x < 0 then -1 else 0 }

  // (x ^ s) - s as the unsigned pattern passed on: the magnitude, even of the smallest number.
  lemma Magnitude(x: int)
    requires -SIGN <= x < SIGN
    ensures Wrap(Flip(x, SignOf(x)) - SignOf(x)) % WORD == Abs(x)
  {
  }

  // __divdi3
  method DivDi3(a: int, b: int) returns (r: int)
    requires -SIGN <= a < SIGN && -SIGN <= b < SIGN && b != 0
    ensures r == Wrap(Trunc(a, b))
  {
    var sa, sb := SignOf(a), SignOf(b);
    Magnitude(a);
    Magnitude(b);
    var ua := Wrap(Flip(a, sa) - sa);
    var ub := Wrap(Flip(b, sb) - sb);
    sa := if sa == sb then 0 else -1;  // s_a ^= s_b
    var q, rem := UDivModDi4(ua % WORD, ub % WORD);
    r := Wrap(Flip(q, sa) - sa);
    Arith.DivUnique(Abs(a), Abs(b), q, rem);
  }

  // __moddi3
  method ModDi3(a: int, b: int) returns (r: int)
    requires -SIGN <= a < SIGN && -SIGN <= b < SIGN && b != 0
    ensures r == a - Trunc(a, b) * b
  {
    var s := SignOf(b);
    Magnitude(b);
    Magnitude(a);
    var ub := Wrap(Flip(b, s) - s);
    s := SignOf(a);
    var ua := Wrap(Flip(a, s) - s);
    var q, rem := UDivModDi4(ua % WORD, ub % WORD);
    r := Wrap(Flip(Wrap(rem), s) - s);
    RemainderOf(a, b, q, rem);
  }

  lemma RemainderOf(a: int, b: int, q: nat, rem: nat)
    requires b != 0 && -SIGN <= b < SIGN && Abs(a) == q * Abs(b) + rem && rem < Abs(b)
    ensures a - Trunc(a, b) * b == (if a < 0 then -(rem as int) else rem as int)
    ensures Wrap(Flip(Wrap(rem), SignOf(a)) - SignOf(a)) == (if a < 0 then -(rem as int) else rem as int)
  {
    Arith.DivUnique(Abs(a), Abs(b), q, rem);
    WithSigns(a, b, q, rem);
    SignBack(a, rem);
  }

  // The remainder gets the sign of the dividend.
  lemma SignBack(a: int, rem: nat)
    requires rem < SIGN
    ensures Wrap(Flip(Wrap(rem), SignOf(a)) - SignOf(a)) == (if a < 0 then -(rem as int) else rem as int)
  {
  }

  // The quotient is exact unless the smallest number is divided by -1, and even then
  // quotient and remainder give the dividend back modulo 2^64.
  lemma QuotientExact(a: int, b: int)
    requires -SIGN <= a < SIGN && -SIGN <= b < SIGN && b != 0
    ensures Wrap(Trunc(a, b)) == Trunc(a, b) <==> !(a == -SIGN && b == -1)
    ensures (Wrap(Trunc(a, b)) * b + (a - Trunc(a, b) * b)) % WORD == a % WORD
  {
    var m, r := Abs(a) / Abs(b), Abs(a) % Abs(b);
    Divide(Abs(a), Abs(b));
    QuotientBound(m, Abs(b), r);
    if a == -SIGN && b == -1 { Arith.DivUnique(SIGN, 1, SIGN, 0); }
  }

  lemma QuotientBound(m: nat, b: nat, r: nat)
    requires m * b + r <= SIGN && 0 < b
    ensures m <= SIGN && (m == SIGN ==> b == 1 && r == 0)
  {
    Arith.MulMono(1, b, m);
    if b >= 2 { Arith.MulMono(2, b, m); }
  }
}
