/**
  The digits after the decimal point of a duration: count_fractional_digits and the
  integral write_fractional_seconds of the chrono formatter.

  A duration is `count` ticks of num/den seconds each, and count is not negative: the
  callers pass an unsigned count, or one already shifted to be positive.
 */
module FractionalSeconds {
  import opened Arithmetic
  import opened Decimals

  const MAX_INT64: int := 0x7fff_ffff_ffff_ffff

  /** The template recursion: up to 18 digits, or 6 if those do not make the period exact. */
  function CountFractionalDigits(num: nat, den: nat, n: nat): (r: nat)
    requires den > 0 && n <= 19
    decreases 19 - n
  {
    if n < 19 && num <= MAX_INT64 / 10 then
      if num % den == 0 then n else CountFractionalDigits(num * 10, den, n + 1)
    else if num % den == 0 then n else 6
  }

  /** k digits write the period exactly. */
  predicate IsExact(num: nat, den: nat, k: nat)
    requires den > 0
  {
    num * Pow10(k) % den == 0
  }

  /** The template can multiply by ten once more. */
  predicate GoesOn(num: nat, k: nat) { k < 19 && num * Pow10(k) <= MAX_INT64 / 10 }

  /** k digits are the fewest that are exact, and the template gets that far. */
  predicate FirstExact(num: nat, den: nat, k: nat)
    requires den > 0
  {
    IsExact(num, den, k) && forall j: nat :: j < k ==> GoesOn(num, j) && !IsExact(num, den, j)
  }

  /** The digits are those fewest, if there are any, and else 6. */
  lemma DigitsExactly(num: nat, den: nat)
    requires den > 0
    ensures forall k: nat :: FirstExact(num, den, k) ==> CountFractionalDigits(num, den, 0) == k
    ensures (forall k: nat :: !FirstExact(num, den, k)) ==> CountFractionalDigits(num, den, 0) == 6
  {
    assert num * Pow10(0) == num;
    DigitsFrom(num, den, 0);
  }

  lemma OneMoreDigit(num: nat, den: nat, n: nat)
    requires den > 0 && n <= 19
    ensures CountFractionalDigits(num * Pow10(n), den, n)
         == if IsExact(num, den, n) then n
            else if GoesOn(num, n) then CountFractionalDigits(num * Pow10(n + 1), den, n + 1) else 6
  {
    TenMore(num, n);
    hide Pow10;
    Unrolled(num * Pow10(n), den, n);
    hide CountFractionalDigits;
  }

  lemma TenMore(num: nat, n: nat)
    ensures num * Pow10(n + 1) == num * Pow10(n) * 10
  {
    assert Pow10(n + 1) == 10 * Pow10(n);
  }

  lemma Unrolled(x: nat, den: nat, n: nat)
    requires den > 0 && n <= 19
    ensures CountFractionalDigits(x, den, n)
         == if x % den == 0 then n
            else if n < 19 && x <= MAX_INT64 / 10 then CountFractionalDigits(x * 10, den, n + 1) else 6
  {
  }

  lemma {:induction false} DigitsFrom(num: nat, den: nat, n: nat)
    requires den > 0 && n <= 19 && forall j: nat :: j < n ==> GoesOn(num, j) && !IsExact(num, den, j)
    ensures var r := CountFractionalDigits(num * Pow10(n), den, n);
      && (forall k: nat :: FirstExact(num, den, k) ==> r == k)
      && ((forall k: nat :: !FirstExact(num, den, k)) ==> r == 6)
    decreases 19 - n
  {
    OneMoreDigit(num, den, n);
    OnlyNineteen(num, n);
    hide CountFractionalDigits, IsExact, GoesOn, Pow10;
    if IsExact(num, den, n) {
      assert FirstExact(num, den, n);
    } else if GoesOn(num, n) {
      DigitsFrom(num, den, n + 1);
    }
  }

  lemma OnlyNineteen(num: nat, n: nat)
    ensures GoesOn(num, n) ==> n < 19
  {
  }

  // ----- Zeros around digits -----------------------------------------------------------------

  function Zeros(k: nat): (s: string)
    ensures |s| == k && IsDigits(s)
  {
    seq(k, _ => '0')
  }

  lemma {:induction false} ValueWithLeadingZeros(k: nat, s: string)
    requires IsDigits(s)
    ensures IsDigits(Zeros(k) + s) && Value(Zeros(k) + s) == Value(s)
  {
    if s == [] {
      assert Zeros(k) + s == Zeros(k);
      if k > 0 {
        assert Zeros(k)[..k - 1] == Zeros(k - 1) == Zeros(k - 1) + [];
        ValueWithLeadingZeros(k - 1, []);
      }
    } else {
      var init := s[..|s| - 1];
      ValueWithLeadingZeros(k, init);
      assert (Zeros(k) + s)[..k + |s| - 1] == Zeros(k) + init;
    }
  }

  lemma {:induction false} ValueWithTrailingZeros(s: string, k: nat)
    requires IsDigits(s)
    ensures IsDigits(s + Zeros(k)) && Value(s + Zeros(k)) == Value(s) * Pow10(k)
  {
    if k == 0 {
      assert s + Zeros(0) == s;
    } else {
      ValueWithTrailingZeros(s, k - 1);
      ZeroAtEnd(s + Zeros(k - 1));
      assert s + Zeros(k) == s + Zeros(k - 1) + "0";
      TenTimes(Value(s), Pow10(k - 1));
    }
  }

  lemma TenTimes(a: int, b: int)
    ensures 10 * (a * b) == a * (10 * b)
  {
  }

  lemma ZeroAtEnd(s: string)
    requires IsDigits(s)
    ensures IsDigits(s + "0") && Value(s + "0") == 10 * Value(s)
  {
    assert (s + "0")[..|s|] == s;
  }

  // ----- Division and powers of ten ----------------------------------------------------------

  lemma {:induction false} Pow10Add(a: nat, b: nat)
    ensures Pow10(a + b) == Pow10(a) * Pow10(b)
  {
    if a > 0 {
      Pow10Add(a - 1, b);
      assert 10 * (Pow10(a - 1) * Pow10(b)) == 10 * Pow10(a - 1) * Pow10(b);
    }
  }

  lemma Regroup(r: nat, a: nat, b: nat)
    ensures r * b * a == r * (a * b) && (r + 1) * b * a == r * (a * b) + a * b
  {
    assert (r + 1) * b * a == r * b * a + b * a;
  }

  lemma NestedQuotient(x: nat, a: nat, b: nat)
    requires a > 0 && b > 0
    ensures a * b > 0 && x / a / b == x / (a * b)
  {
    var q := x / a;
    var r := q / b;
    Floor(x, a);
    Floor(q, b);
    TimesMonotone(r * b, q, a);
    TimesMonotone(q + 1, (r + 1) * b, a);
    Regroup(r, a, b);
    assert (q + 1) * a == q * a + a;
    assert a * b > 0;
    QuotientIs(x, a * b, r);
  }

  lemma CommonFactor(x: nat, d: nat, m: nat)
    requires d > 0 && m > 0
    ensures d * m > 0 && (x * m) / (d * m) == x / d
  {
    NestedQuotient(x * m, m, d);
    assert d * m == m * d;
    QuotientIs(x * m, m, x);
  }

  // ----- The writer --------------------------------------------------------------------------

  /** Ticks of 1/den second beyond the last full second: d - duration_cast<seconds>(d). */
  function Fraction(count: nat, num: nat, den: nat): (f: nat)
    requires den > 0
    ensures f < den
  {
    count * num % den
  }

  /** What is left of the count when the whole seconds are taken away. */
  lemma WholeAndFraction(count: nat, num: nat, den: nat)
    requires den > 0
    ensures count * num == count * num / den * den + Fraction(count, num, den)
  {
    Floor(count * num, den);
  }

  /** duration_cast to the finest unit that is written. */
  function Subseconds(count: nat, num: nat, den: nat, digits: nat): nat
    requires den > 0
  {
    Floor(Fraction(count, num, den) * Pow10(digits), den);
    Fraction(count, num, den) * Pow10(digits) / den
  }

  lemma SubsecondsFit(count: nat, num: nat, den: nat, digits: nat)
    requires den > 0
    ensures Subseconds(count, num, den, digits) < Pow10(digits)
  {
    var f, p := Fraction(count, num, den), Pow10(digits);
    Floor(f * p, den);
    if f * p / den >= p {
      TimesMonotone(p, f * p / den, den);
      TimesMonotone(f + 1, den, p);
    }
  }

  /** n has `digits` digits counting leading zeros; its first p, with zeros after the last. */
  function Cut(n: nat, digits: nat, p: nat): int {
    if p <= digits then n / Pow10(digits - p) else n * Pow10(p - digits)
  }

  function LeadingZeros(n: nat, digits: nat): nat {
    if digits > CountDigits(n) then digits - CountDigits(n) else 0
  }

  /** Zero has no digits of its own here: it is left to the filling. */
  function NonZeroText(n: nat): (s: string)
    ensures IsDigits(s)
  {
    if n != 0 then Decimal(n) else ""
  }

  /** A point and p digits that denote v. */
  predicate PointAndDigits(out: string, p: nat, v: int) {
    |out| == p + 1 && out[0] == '.' && IsDigits(out[1..]) && Value(out[1..]) == v
  }

  lemma PointThen(s: string, p: nat, v: int)
    requires |s| == p && IsDigits(s) && Value(s) == v
    ensures PointAndDigits("." + s, p, v)
  {
    assert ("." + s)[1..] == s;
  }

  /** Always a point and then exactly `precision` digits, or the unit's own number of digits
      when the precision is not given; nothing for precision 0 or whole seconds. */
  method WriteFractionalSeconds(count: nat, num: nat, den: nat, precision: int) returns (out: string)
    requires num > 0 && den > 0
    ensures var digits := CountFractionalDigits(num, den, 0);
      var p := if precision < 0 then digits else precision;
      if p == 0 then out == ""
      else PointAndDigits(out, p, Cut(Subseconds(count, num, den, digits), digits, p))
  {
    var digits := CountFractionalDigits(num, den, 0);
    var n := Subseconds(count, num, den, digits);
    SubsecondsFit(count, num, den, digits);
    hide Value, Cut, CountFractionalDigits, Subseconds, Decimal, Pow10, PointAndDigits, Zeros;
    out := "";
    if precision < 0 {
      if digits > 0 {
        PaddedDecimal(n, digits);
        PointThen(Zeros(LeadingZeros(n, digits)) + Decimal(n), digits, Cut(n, digits, digits));
        out := "." + (Zeros(LeadingZeros(n, digits)) + Decimal(n));
      }
    } else if precision > 0 {
      out := WritePrecise(n, digits, precision);
    }
  }

  /** The branch for a given precision, with its truncating and its padding path. */
  method WritePrecise(subseconds: nat, digits: nat, precision: nat) returns (out: string)
    requires precision > 0 && subseconds < Pow10(digits)
    ensures PointAndDigits(out, precision, Cut(subseconds, digits, precision))
  {
    hide Value, Cut, Decimal, Pow10, PointAndDigits, Zeros;
    var n, numDigits := subseconds, CountDigits(subseconds);
    var leading := LeadingZeros(n, digits);
    leading := if leading < precision then leading else precision;
    var remaining := precision - leading;
    out := "." + Zeros(leading);
    if remaining < numDigits {
      TruncatedDigits(n, digits, precision, leading);
      n := n / Pow10(numDigits - remaining);
      PointThen(Zeros(leading) + NonZeroText(n), precision, Cut(subseconds, digits, precision));
      ghost var whole := "." + (Zeros(leading) + NonZeroText(n));
      if n != 0 {
        out := out + Decimal(n);
      }
      assert out == whole;
      return;
    }
    ExtendedDigits(n, digits, precision);
    ghost var fill := Zeros(precision - leading - |NonZeroText(n)|);
    PointThen(Zeros(leading) + (NonZeroText(n) + fill), precision, Cut(subseconds, digits, precision));
    ghost var whole := "." + (Zeros(leading) + (NonZeroText(n) + fill));
    if n != 0 {
      out := out + Decimal(n);
      remaining := remaining - numDigits;
    }
    out := out + Zeros(remaining);
    assert out == whole;
  }

  lemma DigitsFit(n: nat, digits: nat)
    requires n < Pow10(digits)
    ensures n == 0 ==> CountDigits(n) == 1
    ensures n > 0 ==> CountDigits(n) <= digits
  {
    if n > 0 {
      DecimalLength(n);
      if digits < CountDigits(n) - 1 {
        Pow10Ascending(digits, CountDigits(n) - 1);
      }
    }
  }

  lemma PaddedDecimal(n: nat, digits: nat)
    requires n < Pow10(digits) && digits > 0
    ensures CountDigits(n) <= digits
    ensures var s := Zeros(LeadingZeros(n, digits)) + Decimal(n);
      IsDigits(s) && Value(s) == Cut(n, digits, digits)
  {
    DigitsFit(n, digits);
    ValueOfDecimal(n);
    ValueWithLeadingZeros(LeadingZeros(n, digits), Decimal(n));
    assert n / 1 == n;
  }

  /** Dividing by a power of ten takes that many digits off the end. */
  lemma {:induction false} CutDecimal(n: nat, k: nat)
    requires n > 0
    ensures k >= CountDigits(n) ==> n / Pow10(k) == 0
    ensures k < CountDigits(n) ==> n / Pow10(k) > 0 && CountDigits(n / Pow10(k)) == CountDigits(n) - k
  {
    if k == 0 {
      assert n / 1 == n;
    } else {
      NestedQuotient(n, 10, Pow10(k - 1));
      if n < 10 {
        QuotientIs(0, Pow10(k - 1), 0);
      } else {
        CutDecimal(n / 10, k - 1);
      }
    }
  }

  /** The branch that drops digits. */
  lemma TruncatedDigits(n: nat, digits: nat, p: nat, cut: nat)
    requires p > 0 && n < Pow10(digits)
    requires cut == (if LeadingZeros(n, digits) < p then LeadingZeros(n, digits) else p)
    requires p - cut < CountDigits(n)
    ensures var m := n / Pow10(CountDigits(n) - (p - cut));
      && m >= 0
      && var s := Zeros(cut) + NonZeroText(m);
         |s| == p && IsDigits(s) && Value(s) == Cut(n, digits, p)
  {
    hide Value, Decimal, Zeros, Pow10, Cut;
    var k := CountDigits(n) - (p - cut);
    DigitsFit(n, digits);
    if n == 0 || LeadingZeros(n, digits) >= p {
      AllDropped(n, digits, p, k);
      ValueOfZeros(p);
    } else {
      SomeKept(n, digits, p, k);
      ValueWithLeadingZeros(cut, Decimal(n / Pow10(k)));
    }
  }

  /** The leading digits are those of the cut number. */
  lemma SomeKept(n: nat, digits: nat, p: nat, k: nat)
    requires n > 0 && n < Pow10(digits) && p <= digits && k == digits - p && k < CountDigits(n)
    ensures var m := n / Pow10(k);
      m > 0 && |Decimal(m)| == CountDigits(n) - k && Value(Decimal(m)) == m == Cut(n, digits, p)
  {
    CutDecimal(n, k);
    ValueOfDecimal(n / Pow10(k));
    hide Value, Decimal, Pow10;
  }

  /** Nothing is left of a number below the digits that are written. */
  lemma AllDropped(n: nat, digits: nat, p: nat, k: nat)
    requires p <= digits && k >= CountDigits(n)
    requires n > 0 ==> digits - p >= CountDigits(n)
    ensures n / Pow10(k) == 0 && Cut(n, digits, p) == 0
  {
    if n == 0 {
      QuotientIs(0, Pow10(k), 0);
      QuotientIs(0, Pow10(digits - p), 0);
    } else {
      CutDecimal(n, k);
      CutDecimal(n, digits - p);
    }
  }

  lemma ValueOfZeros(p: nat)
    ensures IsDigits(Zeros(p) + "") && Value(Zeros(p) + "") == 0
  {
    ValueWithLeadingZeros(p, "");
  }

  /** The branch that writes all digits and fills up with zeros. */
  lemma ExtendedDigits(n: nat, digits: nat, p: nat)
    requires p > 0 && n < Pow10(digits)
    requires var leading := LeadingZeros(n, digits);
      p - (if leading < p then leading else p) >= CountDigits(n)
    ensures LeadingZeros(n, digits) < p
    ensures LeadingZeros(n, digits) + |NonZeroText(n)| <= p
    ensures var leading := LeadingZeros(n, digits);
      var s := Zeros(leading) + (NonZeroText(n) + Zeros(p - leading - |NonZeroText(n)|));
      |s| == p && IsDigits(s) && Value(s) == Cut(n, digits, p)
  {
    DigitsFit(n, digits);
    hide Value, Decimal, Pow10;
    var leading := LeadingZeros(n, digits);
    var text := NonZeroText(n);
    var rest := p - leading - |text|;
    ValueWithTrailingZeros(text, rest);
    ValueWithLeadingZeros(leading, text + Zeros(rest));
    CutOfExtended(n, digits, p, rest);
  }

  lemma CutOfExtended(n: nat, digits: nat, p: nat, rest: nat)
    requires n == 0 || (p >= digits && rest == p - digits)
    ensures Value(NonZeroText(n)) * Pow10(rest) == Cut(n, digits, p)
  {
    hide Decimal;
    if n == 0 {
      ValueOfEmpty(rest);
      if p <= digits {
        QuotientIs(0, Pow10(digits - p), 0);
      }
    } else {
      hide Value;
      ValueOfDecimal(n);
      assert p == digits ==> Pow10(rest) == 1 && n / 1 == n;
    }
  }

  lemma ValueOfEmpty(k: nat)
    ensures Value("") * Pow10(k) == 0
  {
  }

  // ----- What the digits mean ------------------------------------------------------------------

  /** The first p decimal places of the fraction of a second, as a whole number. */
  function TrueDigits(count: nat, num: nat, den: nat, p: nat): int
    requires den > 0
  {
    Fraction(count, num, den) * Pow10(p) / den
  }

  function WrittenDigits(count: nat, num: nat, den: nat, p: nat): int
    requires den > 0
  {
    var digits := CountFractionalDigits(num, den, 0);
    Cut(Subseconds(count, num, den, digits), digits, p)
  }

  /** What is lost below the finest unit, in units of 1 / (den * 10^digits) second. */
  function Lost(count: nat, num: nat, den: nat): int
    requires den > 0
  {
    Fraction(count, num, den) * Pow10(CountFractionalDigits(num, den, 0)) % den
  }

  /** The digits written are those of the fraction unless more are asked for than the unit
      has and what was lost would show in them. */
  lemma WrittenIsTrue(count: nat, num: nat, den: nat, p: nat)
    requires num > 0 && den > 0
    ensures WrittenDigits(count, num, den, p) == TrueDigits(count, num, den, p)
       <==> (var digits := CountFractionalDigits(num, den, 0);
             p <= digits || Lost(count, num, den) * Pow10(p - digits) < den)
  {
    hide Pow10, CountFractionalDigits;
    var digits := CountFractionalDigits(num, den, 0);
    if p <= digits {
      FewerDigits(Fraction(count, num, den), den, digits, p);
    } else {
      MoreDigits(Fraction(count, num, den), den, digits, p);
    }
  }

  /** Asking for no more digits than the unit has. */
  lemma FewerDigits(f: nat, den: nat, digits: nat, p: nat)
    requires den > 0 && p <= digits
    ensures f * Pow10(digits) / den >= 0
    ensures f * Pow10(digits) / den / Pow10(digits - p) == f * Pow10(p) / den
  {
    hide Pow10;
    var k := digits - p;
    Pow10Add(p, k);
    Floor(f * Pow10(digits), den);
    NestedQuotient(f * Pow10(digits), den, Pow10(k));
    assert f * (Pow10(p) * Pow10(k)) == f * Pow10(p) * Pow10(k);
    CommonFactor(f * Pow10(p), den, Pow10(k));
  }

  /** Asking for more: zeros stand where the digits of the lost part would. */
  lemma MoreDigits(f: nat, den: nat, digits: nat, p: nat)
    requires den > 0 && p > digits
    ensures f * Pow10(digits) / den * Pow10(p - digits) == f * Pow10(p) / den
       <==> f * Pow10(digits) % den * Pow10(p - digits) < den
  {
    hide Pow10;
    var k := p - digits;
    Pow10Add(digits, k);
    ScaledQuotient(f * Pow10(digits), den, Pow10(k));
    assert f * (Pow10(digits) * Pow10(k)) == f * Pow10(digits) * Pow10(k);
  }

  lemma ScaledQuotient(x: nat, d: nat, m: nat)
    requires d > 0 && m > 0
    ensures x / d * m == (x * m) / d <==> x % d * m < d
  {
    Floor(x, d);
    Floor(x * m, d);
    var q, r := x / d, x % d;
    assert x * m == q * m * d + r * m by { assert q * d * m == q * m * d; assert (q * d + r) * m == q * d * m + r * m; }
    if r * m < d {
      TimesMonotone(0, r, m);
      QuotientIs(x * m, d, q * m);
    }
  }

  /** Over all durations of one period: `p` digits are right for every count exactly when the
      unit has that many, or its digits express the period exactly. */
  lemma PeriodDecides(num: nat, den: nat, p: nat)
    requires num > 0 && den > 0
    ensures (forall count: nat :: WrittenDigits(count, num, den, p) == TrueDigits(count, num, den, p))
       <==> p <= CountFractionalDigits(num, den, 0)
            || num * Pow10(CountFractionalDigits(num, den, 0)) % den == 0
  {
    hide WrittenDigits, TrueDigits, CountFractionalDigits;
    var digits := CountFractionalDigits(num, den, 0);
    if p <= digits || num * Pow10(digits) % den == 0 {
      forall count: nat
        ensures WrittenDigits(count, num, den, p) == TrueDigits(count, num, den, p)
      {
        WrittenIsTrue(count, num, den, p);
        if p > digits {
          LostIsMultiple(count, num, den);
          ZeroTimes(count, num * Pow10(digits), den);
        }
      }
    } else {
      var count := CountThatShows(num, den);
      ShowsInNextDigit(Lost(count, num, den), den, p - digits);
      WrittenIsTrue(count, num, den, p);
    }
  }

  /** If the digits do not express the period, some count loses a tenth of a unit or more. */
  lemma CountThatShows(num: nat, den: nat) returns (count: nat)
    requires den > 0 && num * Pow10(CountFractionalDigits(num, den, 0)) % den != 0
    ensures 10 * Lost(count, num, den) >= den
  {
    hide CountFractionalDigits, Pow10;
    var x := num * Pow10(CountFractionalDigits(num, den, 0));
    var g := x % den;
    Floor(x, den);
    Floor(den - 1, g);
    count := if g * 10 >= den then 1 else (den - 1) / g;
    LostIsMultiple(count, num, den);
    NearlyOneUnit(count, g, den);
    MultipleOfRemainder(count, x, den);
    RemainderIs(count * g, den, 0, count * g);
  }

  lemma ShowsInNextDigit(lost: nat, den: nat, k: nat)
    requires k > 0 && 10 * lost >= den
    ensures lost * Pow10(k) >= den
  {
    Pow10Ascending(1, k);
    assert Pow10(1) == 10;
    TimesMonotone(10, Pow10(k), lost);
  }

  lemma NearlyOneUnit(count: nat, g: nat, den: nat)
    requires 0 < g < den && count == if g * 10 >= den then 1 else (den - 1) / g
    ensures count * g < den <= 10 * (count * g)
  {
    Floor(den - 1, g);
  }

  /** Remainders can be taken before multiplying. */
  lemma MultipleOfRemainder(c: nat, x: nat, d: nat)
    requires d > 0
    ensures c * x % d == c * (x % d) % d
  {
    Floor(x, d);
    Floor(c * (x % d), d);
    var q, r := x / d, x % d;
    var q' := c * r / d;
    assert c * x == (c * q + q') * d + c * r % d by {
      assert c * (q * d + r) == c * q * d + c * r;
      assert (c * q + q') * d == c * q * d + q' * d;
    }
    RemainderIs(c * x, d, c * q + q', c * r % d);
  }

  lemma RemainderIs(x: nat, d: nat, q: nat, r: nat)
    requires d > 0 && x == q * d + r && r < d
    ensures x % d == r
  {
    QuotientIs(x, d, q);
    Floor(x, d);
  }

  lemma ZeroTimes(c: nat, x: nat, d: nat)
    requires d > 0 && x % d == 0
    ensures c * x % d == 0
  {
    MultipleOfRemainder(c, x, d);
    assert c * 0 == 0;
    RemainderIs(0, d, 0, 0);
  }

  lemma LostIsMultiple(count: nat, num: nat, den: nat)
    requires den > 0
    ensures Lost(count, num, den) == count * (num * Pow10(CountFractionalDigits(num, den, 0))) % den
  {
    var p := Pow10(CountFractionalDigits(num, den, 0));
    MultipleOfRemainder(p, count * num, den);
    assert p * (count * num) == count * (num * p);
    assert p * (count * num % den) == count * num % den * p;
  }

  /** A third of a second to seven places is 3333333; the code writes six digits and a zero. */
  lemma ThirdOfASecond()
    ensures CountFractionalDigits(1, 3, 0) == 6
    ensures WrittenDigits(1, 1, 3, 7) == 3333330 && TrueDigits(1, 1, 3, 7) == 3333333
  {
    ThirdDigits(1, 0);
    assert Pow10(4) == 10 * Pow10(3) && Pow10(3) == 1000 && Pow10(5) == 10 * Pow10(4);
    assert Pow10(6) == 10 * Pow10(5) && Pow10(7) == 10 * Pow10(6) && Pow10(1) == 10;
  }

  lemma {:induction false} ThirdDigits(num: nat, n: nat)
    requires n <= 19 && num % 3 == 1
    ensures CountFractionalDigits(num, 3, n) == 6
    decreases 19 - n
  {
    if n < 19 && num <= MAX_INT64 / 10 {
      ThirdDigits(num * 10, n + 1);
    }
  }
}
