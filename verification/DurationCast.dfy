/**
  Checked conversion between integral durations: lossless_integral_conversion and the
  integral duration_cast of the chrono formatter.

  Integer types are described by signedness and width; a value lives in an unbounded int
  together with the obligation to stay inside its type.
 */
module DurationCast {
  import opened Arithmetic

  /** The widths the standard integer types have. */
  datatype IntType = IntType(signed: bool, bits: nat) {
    predicate Valid() { bits == 8 || bits == 16 || bits == 32 || bits == 64 }

    /** numeric_limits<T>::digits */
    function Digits(): (n: nat)
      requires Valid()
      ensures IsWidth(n)
    {
      if signed then bits - 1 else bits
    }

    function Max(): int
      requires Valid()
    {
      WordPower(Digits()) - 1
    }

    function Min(): int
      requires Valid()
    {
      if signed then -WordPower(Digits()) else 0
    }

    predicate Holds(x: int)
      requires Valid()
    {
      Min() <= x <= Max()
    }
  }

  /** The numbers of bits and digits of those types. */
  predicate IsWidth(n: nat) { n == 7 || n == 8 || n == 15 || n == 16 || n == 31 || n == 32 || n == 63 || n == 64 }

  /** 2^n for one of them. */
  function WordPower(n: nat): int
    requires IsWidth(n)
  {
    if n == 7 then 0x80 else if n == 8 then 0x100
    else if n == 15 then 0x8000 else if n == 16 then 0x1_0000
    else if n == 31 then 0x8000_0000 else if n == 32 then 0x1_0000_0000
    else if n == 63 then 0x8000_0000_0000_0000 else 0x1_0000_0000_0000_0000
  }

  lemma WordPowerIsPower(n: nat)
    requires IsWidth(n)
    ensures WordPower(n) == Pow2(n)
  {
    WordSizes();
  }

  /** static_cast<T>(x): the value of T congruent to x modulo 2^bits. */
  function StaticCast(x: int, t: IntType): (r: int)
    requires t.Valid()
    ensures t.Holds(r) && (t.Holds(x) ==> r == x)
  {
    var m := x % WordPower(t.bits);
    if m <= t.Max() then m else m - WordPower(t.bits)
  }

  /** Both overloads: same signedness first, mixed signedness second; types of equal
      signedness and width share the trivial third. */
  method LosslessIntegralConversion(from: int, f: IntType, t: IntType) returns (to: int, ec: int)
    requires f.Valid() && t.Valid() && f.Holds(from)
    ensures ec == 0 <==> t.Holds(from)
    ensures ec == 0 ==> to == from
    ensures ec == 0 || (ec == 1 && to == 0)
  {
    ec := 0;
    if f.signed == t.signed {
      if f.Digits() > t.Digits() {
        if from < t.Min() || from > t.Max() {
          return 0, 1;
        }
      }
    } else {
      if f.signed && !t.signed {
        if from < 0 {
          return 0, 1;
        }
        if f.Digits() > t.Digits() && from > StaticCast(t.Max(), f) {
          return 0, 1;
        }
      }
      if !f.signed && t.signed && f.Digits() >= t.Digits() && from > StaticCast(t.Max(), f) {
        return 0, 1;
      }
    }
    to := StaticCast(from, t);
  }

  const INT64 := IntType(true, 64)
  const UINT64 := IntType(false, 64)

  /** common_type of the two reps and intmax_t, the type of the ratio's members. */
  function CommonRep(f: IntType, t: IntType): IntType {
    if f == UINT64 || t == UINT64 then UINT64 else INT64
  }

  /** It is signed exactly if intmax_t holds all values of both reps, and holds all values of
      either and of intmax_t, but for negative ones if it is unsigned. */
  lemma CommonHolds(f: IntType, t: IntType)
    requires f.Valid() && t.Valid()
    ensures var c := CommonRep(f, t);
      && c.Valid() && (c.signed <==> forall x :: f.Holds(x) || t.Holds(x) ==> INT64.Holds(x))
      && forall x :: (f.Holds(x) || t.Holds(x) || INT64.Holds(x)) && (c.signed || x >= 0) ==> c.Holds(x)
  {
    assert UINT64.Holds(0x8000_0000_0000_0000) && !INT64.Holds(0x8000_0000_0000_0000);
  }

  datatype Cast = Cast(count: int) | Throws

  /** What the cast promises: the exact quotient toward zero when the count, the product and
      the quotient fit their types, a throw in every other case. */
  function CastSpec(count: int, f: IntType, t: IntType, num: int, den: int): Cast
    requires f.Valid() && t.Valid() && den > 0
  {
    var c := CommonRep(f, t);
    if c.Holds(count) && c.Holds(count * num) && t.Holds(TruncDiv(count * num, den))
    then Cast(TruncDiv(count * num, den))
    else Throws
  }

  lemma QuotientGuard(x: int, m: nat, n: int)
    requires n >= 1
    ensures x > m / n <==> x * n > m
  {
    Floor(m, n);
    if x > m / n {
      TimesMonotone(m / n + 1, x, n);
    } else {
      TimesMonotone(x, m / n, n);
    }
  }

  /** The guards `count > max / num` and `count < min / num` are exactly overflow. */
  lemma GuardsAreExact(count: int, num: int, c: IntType)
    requires c.Valid() && num >= 1
    ensures count > c.Max() / num <==> count * num > c.Max()
    ensures count < TruncDiv(c.Min(), num) <==> count * num < c.Min()
  {
    QuotientGuard(count, c.Max(), num);
    QuotientGuard(-count, -c.Min(), num);
    assert -count * num == -(count * num);
    assert TruncDiv(c.Min(), num) == -(-c.Min() / num);
  }

  lemma TruncDivFits(a: int, den: int, c: IntType)
    requires c.Valid() && den >= 1 && c.Holds(a)
    ensures c.Holds(TruncDiv(a, den))
  {
    Floor(if a >= 0 then a else -a, den);
  }

  /** duration_cast for a conversion factor num/den.  Every assignment to the running count
      is checked to stay in the common type, so no intermediate value overflows. */
  method DurationCast(count: int, f: IntType, t: IntType, num: int, den: int) returns (r: Cast)
    requires f.Valid() && t.Valid() && f.Holds(count)
    requires 1 <= num <= INT64.Max() && 1 <= den <= INT64.Max()
    ensures r == CastSpec(count, f, t, num, den)
  {
    var c := CommonRep(f, t);
    var running, ec := LosslessIntegralConversion(count, f, c);
    if ec != 0 {
      return Throws;
    }
    GuardsAreExact(running, num, c);
    if num != 1 {
      if running > c.Max() / num {
        return Throws;
      }
      if c.signed && running < TruncDiv(c.Min(), num) {
        return Throws;
      }
      if !c.signed {
        TimesMonotone(0, running, num);
      }
      running := running * num;
      assert c.Holds(running);
    }
    if den != 1 {
      TruncDivFits(running, den, c);
      running := TruncDiv(running, den);
      assert c.Holds(running);
    }
    var to;
    to, ec := LosslessIntegralConversion(running, c, t);
    if ec != 0 {
      return Throws;
    }
    r := Cast(to);
  }

  /** Meaning of a result: `to` is the magnitude |count| * num / den rounded down, with the
      sign of count. */
  lemma CastMeaning(count: int, f: IntType, t: IntType, num: int, den: int)
    requires f.Valid() && t.Valid() && num >= 1 && den >= 1
    requires CastSpec(count, f, t, num, den).Cast?
    ensures var to := CastSpec(count, f, t, num, den).count;
      && (count >= 0 ==> 0 <= to && to * den <= count * num < to * den + den)
      && (count <= 0 ==> to <= 0 && to * den - den < count * num <= to * den)
  {
    var p := count * num;
    if count >= 0 {
      TimesMonotone(0, count, num);
      Floor(p, den);
    } else {
      TimesMonotone(count, 0, num);
      NegatedFloor(p, den);
    }
  }

  lemma NegatedFloor(p: int, den: int)
    requires p <= 0 && den >= 1
    ensures var q := TruncDiv(p, den); q <= 0 && q * den - den < p <= q * den
  {
    Floor(-p, den);
    var q := -p / den;
    assert -q * den == -(q * den);
    assert TruncDiv(p, den) == -q;
  }

  /** A negative count never converts when the common type is unsigned, even where the exact
      result would be 0. */
  lemma NegativeToUnsigned(count: int, f: IntType, t: IntType, num: int, den: int)
    requires f.Valid() && t.Valid() && num >= 1 && den >= 1 && f.Holds(count)
    requires count < 0 && t == UINT64
    ensures CastSpec(count, f, t, num, den) == Throws
  {
  }
}
