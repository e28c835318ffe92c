// Machine words as numbers: shifts and bitwise operators.
module Words {
  import Arith

  const HALF := 0x1_0000_0000            // 2^32
  const WORD := 0x1_0000_0000_0000_0000  // 2^64
  const SIGN := 0x8000_0000_0000_0000    // 2^63

  function Pow2(k: nat): (p: nat)
    ensures 0 < p
  {
    if k == 0 then 1 else 2 * Pow2(k - 1)
  }

  lemma {:induction false} Pow2Add(j: nat, k: nat)
    ensures Pow2(j + k) == Pow2(j) * Pow2(k)
  {
    if j > 0 {
      Pow2Add(j - 1, k);
      assert Pow2(j + k) == 2 * (Pow2(j - 1) * Pow2(k));
    }
  }

  lemma {:induction false} Pow2Mono(j: nat, k: nat)
    requires j <= k
    ensures Pow2(j) <= Pow2(k)
  {
    if j < k { Pow2Mono(j, k - 1); }
  }

  lemma Pow2Words()
    ensures Pow2(31) == 0x8000_0000 && Pow2(32) == HALF && Pow2(63) == SIGN && Pow2(64) == WORD
  {
    assert Pow2(8) == 256;
    Pow2Add(8, 8);
    Pow2Add(16, 16);
    Pow2Add(32, 32);
  }

  // x with k more binary digits.
  function Up(x: nat, k: nat): nat { if k == 0 then x else 2 * Up(x, k - 1) }

  lemma {:induction false} UpIs(x: nat, k: nat)
    ensures Up(x, k) == x * Pow2(k)
  {
    if k > 0 {
      UpIs(x, k - 1);
      Arith.Twice(x, Pow2(k - 1));
    }
  }

  // Left shift of a 32-bit word: the high bits are lost.
  function Shl32(x: nat, k: nat): nat { (x * Pow2(k)) % HALF }

  function Shr(x: nat, k: nat): nat { if k == 0 then x else Shr(x / 2, k - 1) }

  function Or(x: nat, y: nat): nat
    decreases x + y
  {
    if x == 0 && y == 0 then 0 else (if x % 2 == 1 || y % 2 == 1 then 1 else 0) + 2 * Or(x / 2, y / 2)
  }

  function And(x: nat, y: nat): nat
    decreases x
  {
    if x == 0 then 0 else (if x % 2 == 1 && y % 2 == 1 then 1 else 0) + 2 * And(x / 2, y / 2)
  }

  // How many binary digits x has.
  function BitLength(x: nat): nat { if x == 0 then 0 else 1 + BitLength(x / 2) }

  // __builtin_clz of a 32-bit word; undefined on 0.
  function Clz(x: nat): (z: nat)
    requires 0 < x < HALF
    ensures z == 32 - BitLength(x)
  {
    BitsBound(x, 32);
    32 - BitLength(x)
  }

  // __builtin_ctz; undefined on 0.
  function Ctz(x: nat): nat
    requires 0 < x
  {
    if x % 2 == 1 then 0 else 1 + Ctz(x / 2)
  }

  lemma {:induction false} BitsRange(x: nat)
    requires 0 < x
    ensures 0 < BitLength(x) && Pow2(BitLength(x) - 1) <= x < Pow2(BitLength(x))
  {
    if x > 1 { BitsRange(x / 2); }
  }

  lemma BitsBound(x: nat, k: nat)
    requires 0 < x < (if k == 32 then HALF else Pow2(k))
    ensures 0 < BitLength(x) <= k
  {
    BitsRange(x);
    Pow2Words();
    if k < BitLength(x) { Pow2Mono(k, BitLength(x) - 1); }
  }

  // ----- what the bitwise operators mean for numbers -----

  lemma {:induction false} OrZero(x: nat)
    ensures Or(x, 0) == x && Or(0, x) == x
  {
    if x > 0 { OrZero(x / 2); }
  }

  // Or of a multiple of 2^k and a number below 2^k is their sum.
  lemma {:induction false} OrIsSum(c: nat, y: nat, k: nat)
    requires y < Pow2(k)
    ensures Or(c * Pow2(k), y) == c * Pow2(k) + y
    decreases k
  {
    if k == 0 {
      OrZero(c);
    } else {
      OrIsSum(c, y / 2, k - 1);
      Arith.Twice(c, Pow2(k - 1));
    }
  }

  // A right shift by k drops the last k digits.
  lemma {:induction false} ShrRange(x: nat, k: nat)
    ensures Shr(x, k) * Pow2(k) <= x < Shr(x, k) * Pow2(k) + Pow2(k)
    decreases k
  {
    if k > 0 {
      ShrRange(x / 2, k - 1);
      Arith.Twice(Shr(x, k), Pow2(k - 1));
    }
  }

  // A left shift in a 32-bit word keeps the last 32 - k digits, moved up.
  lemma ShlIs(x: nat, k: nat)
    requires k <= 32
    ensures Shl32(x, k) == (x - Shr(x, 32 - k) * Pow2(32 - k)) * Pow2(k) < HALF
  {
    var s, p, q := Shr(x, 32 - k), Pow2(32 - k), Pow2(k);
    ShrRange(x, 32 - k);
    Pow2Words();
    Pow2Add(32 - k, k);
    var t := x - s * p;
    Arith.Regroup(s, p, t, q);
    Arith.MulBelow(t, p, q);
    Wrapped(s, t * q);
  }

  lemma Wrapped(s: int, z: int)
    requires 0 <= z < HALF
    ensures (s * HALF + z) % HALF == z
  {
  }

  // x & (x - 1) clears the lowest bit set, so only a power of two gives 0.
  lemma {:induction false} PowerOfTwo(x: nat)
    requires 0 < x
    ensures And(x, x - 1) == 0 <==> x == Pow2(Ctz(x))
  {
    if x % 2 == 0 {
      PowerOfTwo(x / 2);
      assert (x - 1) / 2 == x / 2 - 1;
    } else {
      AndSelf(x / 2);
      assert (x - 1) / 2 == x / 2;
    }
  }

  lemma {:induction false} AndSelf(x: nat)
    ensures And(x, x) == x
  {
    if x > 0 { AndSelf(x / 2); }
  }

  lemma HalfMask(x: nat, k: nat)
    requires 0 < k
    ensures And(x, Pow2(k) - 1) == x % 2 + 2 * And(x / 2, Pow2(k - 1) - 1)
  {
    var p := Pow2(k - 1);
    assert (2 * p - 1) / 2 == p - 1 && (2 * p - 1) % 2 == 1;
    if x == 0 { AndNone(0); }
  }

  // Masking with 2^k - 1 keeps the last k digits.
  lemma {:induction false} AndMask(x: nat, k: nat)
    ensures And(x, Pow2(k) - 1) == x - Shr(x, k) * Pow2(k)
    decreases k
  {
    if k == 0 {
      AndNone(x);
    } else {
      AndMask(x / 2, k - 1);
      Arith.Twice(Shr(x, k), Pow2(k - 1));
      ShrRange(x, k);
      HalfMask(x, k);
    }
  }

  lemma {:induction false} AndNone(x: nat)
    ensures And(x, 0) == 0
  {
    if x > 0 { AndNone(x / 2); }
  }
}
