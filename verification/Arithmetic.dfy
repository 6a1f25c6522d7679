/**
  Powers of two, integer division as the machine does it, toward zero, and facts about
  quotients and products.
 */
module Arithmetic {

  /** C++ `/` and `%` for a positive divisor. */
  function TruncDiv(a: int, b: int): int
    requires b > 0
  {
    if a >= 0 then a / b else -(-a / b)
  }

  function TruncMod(a: int, b: int): int
    requires b > 0
  {
    a - b * TruncDiv(a, b)
  }

  lemma TimesMonotone(a: int, b: int, n: int)
    requires n >= 0 && a <= b
    ensures a * n <= b * n
  {
    assert (b - a) * n >= 0;
  }

  /** The quotient and the remainder of a flooring division. */
  lemma Floor(x: nat, d: int)
    requires d >= 1
    ensures x == x / d * d + x % d && 0 <= x / d <= x
    ensures x / d * d <= x < x / d * d + d
  {
    if x / d < 0 {
      TimesMonotone(x / d, -1, d);
    } else {
      TimesMonotone(1, d, x / d);
    }
  }

  lemma QuotientIs(x: nat, d: nat, q: nat)
    requires d > 0 && q * d <= x < q * d + d
    ensures x / d == q
  {
    Floor(x, d);
    if x / d < q {
      TimesMonotone(x / d + 1, q, d);
    } else if x / d > q {
      TimesMonotone(q + 1, x / d, d);
    }
  }

  function Pow2(k: nat): (r: nat)
    ensures r >= 1
  {
    if k == 0 then 1 else 2 * Pow2(k - 1)
  }

  lemma {:induction false} Pow2Add(a: nat, b: nat)
    ensures Pow2(a + b) == Pow2(a) * Pow2(b)
  {
    if a > 0 {
      Pow2Add(a - 1, b);
      assert 2 * (Pow2(a - 1) * Pow2(b)) == 2 * Pow2(a - 1) * Pow2(b);
    }
  }

  /** The powers that machine words are made of. */
  lemma WordSizes()
    ensures Pow2(1) == 2 && Pow2(2) == 4 && Pow2(7) == 0x80 && Pow2(8) == 0x100
    ensures Pow2(15) == 0x8000 && Pow2(16) == 0x1_0000
    ensures Pow2(31) == 0x8000_0000 && Pow2(32) == 0x1_0000_0000
    ensures Pow2(63) == 0x8000_0000_0000_0000 && Pow2(64) == 0x1_0000_0000_0000_0000
  {
    assert Pow2(3) == 8 && Pow2(4) == 16;
    Pow2Add(4, 4);
    Pow2Add(8, 8);
    Pow2Add(16, 16);
    Pow2Add(32, 32);
    assert Pow2(8) == 2 * Pow2(7) && Pow2(16) == 2 * Pow2(15) && Pow2(32) == 2 * Pow2(31) && Pow2(64) == 2 * Pow2(63);
  }
}
