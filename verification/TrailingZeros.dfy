/**
  Trailing-zero removal of Dragonbox: divisibility tested by multiplying with a modular
  inverse of 5 or 25 and rotating, and by 10^8 with a magic multiplication.

  Machine words are integers below 2^32 or 2^64; every multiplication that wraps in the
  code is reduced here explicitly.
 */
module TrailingZeros {
  import opened Arithmetic
  import opened Decimals

  const TWO_32: nat := 0x1_0000_0000
  const TWO_64: nat := 0x1_0000_0000_0000_0000
  const TWO_90: nat := 0x400_0000_0000_0000_0000_0000
  const TEN_8: nat := 100_000_000

  const MOD_INV_5_32: nat := 0xcccccccd
  const MOD_INV_25_32: nat := 0xc28f5c29
  const MOD_INV_5_64: nat := 0xcccccccccccccccd
  const MOD_INV_25_64: nat := 0x8f5c28f5c28f5c29
  /** ceil(2^90 / 10^8) */
  const MAGIC: nat := 12379400392853802749

  type uint32 = n: int | 0 <= n < TWO_32
  type uint64 = n: int | 0 <= n < TWO_64

  /** rotr: the low r bits of a word of `width` bits go to the top. */
  function Rotr(n: nat, r: nat, width: nat): int
    requires r <= width
  {
    n / Pow2(r) + n % Pow2(r) * Pow2(width - r)
  }

  /** Bitwise or with 1. */
  function OrOne(s: int): int { if s % 2 == 0 then s + 1 else s }

  // ----- The rotated products are exact tests and exact quotients ------------------------

  lemma OnlyZeroFits(M: int, k: int)
    requires M >= 1 && -M < k * M < M
    ensures k == 0
  {
    if k >= 1 {
      TimesMonotone(1, k, M);
    } else if k <= -1 {
      TimesMonotone(k, -1, M);
    }
  }

  /** A word with a bit rotated to the top is larger than every quotient by d * p. */
  lemma TopIsLarge(top: int, limit: int, p: int, h: int, d: int)
    requires p >= 1 && h >= 1 && d >= 1 && top >= h && limit * (d * p) < p * h
    ensures limit < top
  {
    assert h * (d * p) == d * (p * h);
    TimesMonotone(1, d, p * h);
    if top <= limit {
      TimesMonotone(h, limit, d * p);
    }
  }

  /** So it is small only if nothing was rotated to the top. */
  lemma SmallRotation(m: nat, p: nat, h: nat, d: nat, limit: int)
    requires p >= 1 && h >= 1 && d >= 1 && limit * (d * p) < p * h && m / p + m % p * h <= limit
    ensures m % p == 0 && m == m / p * p
  {
    Floor(m, p);
    if m % p >= 1 {
      TimesMonotone(1, m % p, h);
      TopIsLarge(m / p + m % p * h, limit, p, h, d);
    }
  }

  /** Multiplying by the inverse of d and then by d gives the number back, modulo M. */
  lemma InverseUndone(n: int, m: int, a: int, M: int, d: int, inv: int, c: int)
    requires d * inv == 1 + M * c && n * inv == a * M + m
    ensures d * m == n + (n * c - d * a) * M
  {
    assert d * (n * inv) == n * (d * inv) == n * (1 + M * c);
    assert n * (1 + M * c) == n + n * c * M;
    assert d * (a * M + m) == d * a * M + d * m;
    assert (n * c - d * a) * M == n * c * M - d * a * M;
  }

  /** A multiple of M that d divides is d times a multiple of M. */
  lemma InverseCancels(x: int, M: int, d: int, inv: int, c: int, k: int)
    requires M >= 1 && d * inv == 1 + M * c && d * x == k * M && -M < x < M
    ensures x == 0
  {
    assert x * (d * inv) == (d * x) * inv == (k * M) * inv == (k * inv) * M;
    assert x * (1 + M * c) == x + (x * c) * M;
    assert (k * inv - x * c) * M == (k * inv) * M - (x * c) * M;
    OnlyZeroFits(M, k * inv - x * c);
  }

  /** For every word n: the rotated product with the inverse of d is small exactly if d * 2^r
      divides n, and is then the quotient. */
  lemma RotationTest(n: nat, r: nat, width: nat, d: nat, inv: nat, c: nat)
    requires r <= width && n < Pow2(width) && d >= 1 && d * inv == 1 + Pow2(width) * c
    ensures d * Pow2(r) >= 1
    ensures var q, divisor := Rotr(n * inv % Pow2(width), r, width), d * Pow2(r);
      && (q <= (Pow2(width) - 1) / divisor <==> n % divisor == 0)
      && (n % divisor == 0 ==> q == n / divisor)
  {
    hide Pow2;
    var M, p, h := Pow2(width), Pow2(r), Pow2(width - r);
    Pow2Add(r, width - r);
    TimesMonotone(1, d, p);
    var m := n * inv % M;
    var k := Wrapped(n, m, M, d, inv, c);
    RotationTestFor(n, m, Rotr(m, r, width), M, p, h, d, inv, c, k);
  }

  /** The wrapped product with the inverse is n / d up to multiples of the modulus. */
  lemma Wrapped(n: nat, m: nat, M: nat, d: nat, inv: nat, c: nat) returns (k: int)
    requires M >= 1 && d * inv == 1 + M * c && m == n * inv % M
    ensures m < M && d * m == n + k * M
  {
    var product := n * inv;
    Floor(product, M);
    InverseUndone(n, m, product / M, M, d, inv, c);
    k := n * c - d * (product / M);
  }

  lemma RotationTestFor(n: nat, m: nat, q: int, M: nat, p: nat, h: nat, d: nat, inv: nat, c: nat, k: int)
    requires p >= 1 && h >= 1 && d >= 1 && d * p >= 1 && M >= 1 && M == p * h && n < M && m < M
    requires d * m == n + k * M && d * inv == 1 + M * c && q == m / p + m % p * h
    ensures q <= (M - 1) / (d * p) <==> n % (d * p) == 0
    ensures n % (d * p) == 0 ==> q == n / (d * p)
  {
    if q <= (M - 1) / (d * p) {
      SmallDivides(n, m, q, M, p, h, d, k);
    }
    DividesIsSmall(n, m, q, M, p, h, d, inv, c, k);
  }

  lemma SmallDivides(n: nat, m: nat, q: int, M: nat, p: nat, h: nat, d: nat, k: int)
    requires p >= 1 && h >= 1 && d >= 1 && d * p >= 1 && M == p * h && n < M && m < M && d * m == n + k * M
    requires q == m / p + m % p * h && q <= (M - 1) / (d * p)
    ensures n % (d * p) == 0
  {
    var D, limit := d * p, (M - 1) / (d * p);
    Floor(M - 1, D);
    Floor(m, p);
    SmallRotation(m, p, h, d, limit);
    Reorder(d, m / p, p);
    SmallMultiple(n, m / p, D, M, k);
  }

  lemma Reorder(d: int, q: int, p: int)
    ensures d * (q * p) == q * (d * p)
  {
  }

  lemma SmallMultiple(n: nat, q: nat, D: nat, M: nat, k: int)
    requires D >= 1 && n < M && q * D == n + k * M && q <= (M - 1) / D
    ensures n % D == 0
  {
    Floor(M - 1, D);
    TimesMonotone(0, q, D);
    TimesMonotone(q, (M - 1) / D, D);
    OnlyZeroFits(M, k);
    Floor(n, D);
    QuotientIs(n, D, q);
  }

  lemma DividesIsSmall(n: nat, m: nat, q: int, M: nat, p: nat, h: nat, d: nat, inv: nat, c: nat, k: int)
    requires p >= 1 && d >= 1 && d * p >= 1 && M >= 1 && n < M && m < M && d * m == n + k * M && d * inv == 1 + M * c
    requires q == m / p + m % p * h
    ensures n % (d * p) == 0 ==> q == n / (d * p) && q <= (M - 1) / (d * p)
  {
    var D := d * p;
    if n % D == 0 {
      var t := n / D;
      Floor(n, D);
      assert d * (t * p) == t * D == n;
      QuotientIsInverse(m, M, p, d, inv, c, k, t);
      Floor(m, p);
      assert m % p * h == 0;
      QuotientFits(n, M, D);
    }
  }

  lemma QuotientIsInverse(m: nat, M: nat, p: nat, d: nat, inv: nat, c: nat, k: int, t: nat)
    requires p >= 1 && d >= 1 && M >= 1 && d * (t * p) < M && m < M
    requires d * m == d * (t * p) + k * M && d * inv == 1 + M * c
    ensures m / p == t && m % p == 0
  {
    assert d * (m - t * p) == d * m - d * (t * p);
    TimesMonotone(0, t, p);
    TimesMonotone(1, d, t * p);
    InverseCancels(m - t * p, M, d, inv, c, k);
    QuotientIs(m, p, t);
    Floor(m, p);
  }

  lemma QuotientFits(n: nat, M: nat, D: nat)
    requires D >= 1 && n < M
    ensures n / D <= (M - 1) / D
  {
    Floor(n, D);
    Floor(M - 1, D);
    var limit := (M - 1) / D;
    assert (limit + 1) * D == limit * D + D;
    if n / D > limit {
      TimesMonotone(limit + 1, n / D, D);
    }
  }

  lemma Test100of32(n: uint32)
    ensures var q := Rotr(n * MOD_INV_25_32 % TWO_32, 2, 32);
      && (q <= (TWO_32 - 1) / 100 <==> n % 100 == 0)
      && (n % 100 == 0 ==> q == n / 100)
  {
    WordSizes();
    RotationTest(n, 2, 32, 25, MOD_INV_25_32, 19);
  }

  lemma Test10of32(n: uint32)
    ensures var q := Rotr(n * MOD_INV_5_32 % TWO_32, 1, 32);
      && (q <= (TWO_32 - 1) / 10 <==> n % 10 == 0)
      && (n % 10 == 0 ==> q == n / 10)
  {
    WordSizes();
    RotationTest(n, 1, 32, 5, MOD_INV_5_32, 4);
  }

  lemma Test100of64(n: uint64)
    ensures var q := Rotr(n * MOD_INV_25_64 % TWO_64, 2, 64);
      && (q <= (TWO_64 - 1) / 100 <==> n % 100 == 0)
      && (n % 100 == 0 ==> q == n / 100)
  {
    WordSizes();
    RotationTest(n, 2, 64, 25, MOD_INV_25_64, 14);
  }

  lemma Test10of64(n: uint64)
    ensures var q := Rotr(n * MOD_INV_5_64 % TWO_64, 1, 64);
      && (q <= (TWO_64 - 1) / 10 <==> n % 10 == 0)
      && (n % 10 == 0 ==> q == n / 10)
  {
    WordSizes();
    RotationTest(n, 1, 64, 5, MOD_INV_5_64, 4);
  }

  /** The magic test: the low 26 bits of the high word are clear and the low word is below
      the magic number exactly when 10^8 divides n, and then the rest of the high word is
      the quotient. */
  lemma TestTen8(n: uint64)
    ensures var nm := n * MAGIC;
      && (nm / TWO_64 % 0x400_0000 == 0 && nm % TWO_64 < MAGIC <==> n % TEN_8 == 0)
      && nm / TWO_64 / 0x400_0000 == n / TEN_8
  {
    var nm, q, r := n * MAGIC, n / TEN_8, n % TEN_8;
    // 10^8 * MAGIC == 2^90 + 875776, so the remainder modulo 2^90 is r * MAGIC + q * 875776.
    var rem := r * MAGIC + q * 875776;
    assert nm == q * TWO_90 + rem;
    assert 0 <= rem < TWO_90 && (rem < MAGIC <==> r == 0);
    var high, low := nm / TWO_64, nm % TWO_64;
    var top, mid := high / 0x400_0000, high % 0x400_0000;
    assert nm == top * TWO_90 + (mid * TWO_64 + low);
    assert 0 <= mid * TWO_64 + low < TWO_90;
    assert top == q;
    assert mid * TWO_64 + low == rem;
  }

  // ----- The two functions ---------------------------------------------------------------

  /** One pass of a loop: a quotient that passes the test takes two more zeros off. */
  lemma TwoZeros(n: nat, out: nat, k: nat, q: nat)
    requires n == out * Pow10(k) && out > 0 && out % 100 == 0 && q == out / 100
    ensures n == q * Pow10(k + 2) && 0 < q < out
  {
    var p := Pow10(k);
    assert out == 100 * q && Pow10(k + 2) == 10 * Pow10(k + 1);
    assert 100 * q * p == q * (100 * p);
  }

  lemma OneZero(n: nat, out: nat, k: nat, q: nat)
    requires n == out * Pow10(k) && out > 0 && out % 10 == 0 && q == out / 10
    ensures n == q * Pow10(k + 1) && 0 < q
    ensures out % 100 != 0 ==> q % 10 != 0
  {
    var p := Pow10(k);
    assert out == 10 * q;
    assert 10 * q * p == q * (10 * p);
  }

  /** `k` is how many zeros go: n is out * 10^k and out ends in no zero.  The counter starts
      at `s`; the last odd zero is counted with an or, so it is lost on an odd start. */
  method RemoveTrailingZeros32(n: uint32, s: int) returns (out: uint32, count: int, ghost k: nat)
    requires n != 0
    ensures n == out * Pow10(k) && out % 10 != 0
    ensures count == s + k - (if s % 2 == 0 then 0 else k % 2)
  {
    out, count, k := n, s, 0;
    while true
      invariant out > 0 && n == out * Pow10(k)
      invariant k % 2 == 0 && count == s + k
      decreases out
    {
      Test100of32(out);
      var q := Rotr(out * MOD_INV_25_32 % TWO_32, 2, 32);
      if q > (TWO_32 - 1) / 100 {
        break;
      }
      TwoZeros(n, out, k, q);
      out, count, k := q, count + 2, k + 2;
    }
    Test10of32(out);
    var q := Rotr(out * MOD_INV_5_32 % TWO_32, 1, 32);
    if q <= (TWO_32 - 1) / 10 {
      OneZero(n, out, k, q);
      LastZero(s, k, count);
      out, count, k := q, OrOne(count), k + 1;
    }
  }

  lemma LastZero(s: int, k: nat, count: int)
    requires k % 2 == 0 && count == s + k
    ensures OrOne(count) == s + (k + 1) - (if s % 2 == 0 then 0 else (k + 1) % 2)
  {
  }

  /** AssertFailed is FMT_ASSERT(n != 0) of the 32-bit function, reached from the 64-bit one. */
  datatype Removal = Removed(n: uint64, zeros: int) | AssertFailed

  /** The quotient by 10^8 is cut to 32 bits before its own zeros are removed.  So the result
      is right exactly when n is not a multiple of 10^8, or is below 2^32 * 10^8. */
  method RemoveTrailingZeros64(n: uint64) returns (r: Removal, ghost k: nat)
    requires n != 0
    ensures r.Removed? ==> r.n % 10 != 0 && r.zeros == k
    ensures r.Removed? && n == r.n * Pow10(k) <==> !(n % TEN_8 == 0 && n >= TWO_32 * TEN_8)
    ensures r.AssertFailed? <==> n % TEN_8 == 0 && n / TEN_8 % TWO_32 == 0
  {
    TestTen8(n);
    var nm := n * MAGIC;
    if nm / TWO_64 % 0x400_0000 == 0 && nm % TWO_64 < MAGIC {
      var n32: uint32 := nm / TWO_64 / 0x400_0000 % TWO_32;
      if n32 == 0 {
        return AssertFailed, 0;
      }
      var out, s;
      out, s, k := RemoveTrailingZeros32(n32, 8);
      CutResult(n, n32, out, k);
      return Removed(out, s), k + 8;
    }
    var out, s := RemoveZerosLoop64(n);
    return Removed(out, s), s;
  }

  /** The part of the 64-bit function for numbers that 10^8 does not divide. */
  method RemoveZerosLoop64(n: uint64) returns (out: uint64, s: nat)
    requires n != 0
    ensures n == out * Pow10(s) && out % 10 != 0
  {
    out, s := n, 0;
    while true
      invariant out > 0 && n == out * Pow10(s) && s % 2 == 0
      decreases out
    {
      Test100of64(out);
      var q := Rotr(out * MOD_INV_25_64 % TWO_64, 2, 64);
      if q > (TWO_64 - 1) / 100 {
        break;
      }
      TwoZeros(n, out, s, q);
      out, s := q, s + 2;
    }
    Test10of64(out);
    var q := Rotr(out * MOD_INV_5_64 % TWO_64, 1, 64);
    if q <= (TWO_64 - 1) / 10 {
      OneZero(n, out, s, q);
      LastZero(0, s, s);
      out, s := q, OrOne(s);
    }
  }

  lemma CutResult(n: uint64, n32: uint32, out: nat, k: nat)
    requires n % TEN_8 == 0 && n32 == n / TEN_8 % TWO_32 && n32 == out * Pow10(k)
    ensures n == out * Pow10(k + 8) <==> n < TWO_32 * TEN_8
  {
    Pow10Plus8(out, k);
  }

  lemma Pow10Plus8(n: nat, k: nat)
    ensures n * Pow10(k + 8) == TEN_8 * (n * Pow10(k))
  {
    var p := Pow10(k);
    assert Pow10(k + 2) == 100 * p;
    assert Pow10(k + 4) == 100 * Pow10(k + 2);
    assert Pow10(k + 6) == 100 * Pow10(k + 4);
    assert Pow10(k + 8) == 100 * Pow10(k + 6) == TEN_8 * p;
    assert n * (TEN_8 * p) == TEN_8 * (n * p);
  }

  /** The result is determined by n: there is only one way to write n as out * 10^k with
      out not ending in a zero. */
  lemma {:induction false} SplitIsUnique(n: nat, a: nat, j: nat, b: nat, k: nat)
    requires n == a * Pow10(j) && a % 10 != 0
    requires n == b * Pow10(k) && b % 10 != 0
    ensures a == b && j == k
    decreases j
  {
    if j == 0 {
      assert n == a;
      if k > 0 {
        TenOut(n, b, k);
      }
    } else {
      TenOut(n, a, j);
      if k > 0 {
        TenOut(n, b, k);
        SplitIsUnique(n / 10, a, j - 1, b, k - 1);
      }
    }
  }

  lemma TenOut(n: nat, a: nat, j: nat)
    requires j > 0 && n == a * Pow10(j)
    ensures n % 10 == 0 && n / 10 == a * Pow10(j - 1)
  {
    var p := Pow10(j - 1);
    assert a * (10 * p) == 10 * (a * p);
  }

  /** 2^32 * 10^8 is a concrete 64-bit input on which the cut loses the number. */
  lemma CutExample()
    ensures TWO_32 * TEN_8 < TWO_64
    ensures TWO_32 * TEN_8 % TEN_8 == 0 && TWO_32 * TEN_8 / TEN_8 % TWO_32 == 0
  {
  }
}
