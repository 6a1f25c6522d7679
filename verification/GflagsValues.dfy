/**
  Flag values: parsing a C string into a typed value and printing it back.

  Doubles are left out.  strtoll and strtoull are specified here, with base 10 and 16 only.
  A C string never contains the character NUL.
 */
module GflagsValues {
  import opened Decimals
  import opened Wrappers

  datatype FlagType = FvBool | FvInt32 | FvUint32 | FvInt64 | FvUint64 | FvString

  datatype FlagValue =
    | Bool(b: bool) | Int32(n: int) | Uint32(n: int) | Int64(n: int) | Uint64(n: int) | Str(s: string)
  {
    function Type(): FlagType {
      match this
      case Bool(_) => FvBool
      case Int32(_) => FvInt32
      case Uint32(_) => FvUint32
      case Int64(_) => FvInt64
      case Uint64(_) => FvUint64
      case Str(_) => FvString
    }

    /** The number fits its type. */
    predicate InRange() {
      match this
      case Bool(_) => true
      case Int32(n) => IsInt32(n)
      case Uint32(n) => IsUint32(n)
      case Int64(n) => IsInt64(n)
      case Uint64(n) => IsUint64(n)
      case Str(_) => true
    }
  }

  const TWO_64: int := 0x1_0000_0000_0000_0000

  predicate IsInt32(n: int) { -0x8000_0000 <= n < 0x8000_0000 }
  predicate IsUint32(n: int) { 0 <= n < 0x1_0000_0000 }
  predicate IsInt64(n: int) { -0x8000_0000_0000_0000 <= n < 0x8000_0000_0000_0000 }
  predicate IsUint64(n: int) { 0 <= n < TWO_64 }

  // ----- strtoll and strtoull --------------------------------------------------------------------

  predicate IsSpace(c: char) {
    c == ' ' || c == '\t' || c == '\n' || c == '\r' || c == 11 as char || c == 12 as char
  }

  lemma SpaceCharacters(c: char)
    ensures IsSpace(c) <==> c == ' ' || 9 <= c as int <= 13
  {
  }

  function SpaceRun(s: string): (k: nat)
    ensures k <= |s|
  {
    if s != [] && IsSpace(s[0]) then 1 + SpaceRun(s[1..]) else 0
  }

  predicate IsHexDigit(c: char) { IsDigit(c) || 'a' <= c <= 'f' || 'A' <= c <= 'F' }

  function DigitRun(s: string, base: int): (k: nat)
    ensures k <= |s|
    ensures forall i :: 0 <= i < k ==> if base == 16 then IsHexDigit(s[i]) else IsDigit(s[i])
  {
    if s != [] && (if base == 16 then IsHexDigit(s[0]) else IsDigit(s[0])) then 1 + DigitRun(s[1..], base) else 0
  }

  function HexDigit(c: char): nat
    requires IsHexDigit(c)
  {
    if IsDigit(c) then c as int - '0' as int
    else if 'a' <= c <= 'f' then c as int - 'a' as int + 10
    else c as int - 'A' as int + 10
  }

  function HexValue(s: string): nat
    requires forall i :: 0 <= i < |s| ==> IsHexDigit(s[i])
  {
    if s == [] then 0 else 16 * HexValue(s[..|s| - 1]) + HexDigit(s[|s| - 1])
  }

  /** The longest number at the front of a string: its sign, its size, and where it ends;
      the end is 0 when there is no number. */
  datatype Numeral = Numeral(negative: bool, magnitude: nat, end: nat)

  function ScanNumber(s: string, base: int): Numeral {
    var spaces := SpaceRun(s);
    var signed := spaces < |s| && (s[spaces] == '-' || s[spaces] == '+');
    var negative := spaces < |s| && s[spaces] == '-';
    var start := if signed then spaces + 1 else spaces;
    var prefixed := base == 16 && start + 2 < |s| && s[start] == '0'
                    && (s[start + 1] == 'x' || s[start + 1] == 'X') && IsHexDigit(s[start + 2]);
    var first := if prefixed then start + 2 else start;
    var k := DigitRun(s[first..], base);
    if k == 0 then Numeral(false, 0, 0)
    else Numeral(negative, if base == 16 then HexValue(s[first..][..k]) else Value(s[first..][..k]), first + k)
  }

  // ----- ParseFrom ---------------------------------------------------------------------------------

  function Lower(c: char): char {
    if 'A' <= c <= 'Z' then (c as int - 'A' as int + 'a' as int) as char else c
  }

  function LowerAll(s: string): string {
    seq(|s|, i requires 0 <= i < |s| => Lower(s[i]))
  }

  function ParseBool(s: string): Option<FlagValue> {
    var l := LowerAll(s);
    if l == "1" || l == "t" || l == "true" || l == "y" || l == "yes" then Some(Bool(true))
    else if l == "0" || l == "f" || l == "false" || l == "n" || l == "no" then Some(Bool(false))
    else None
  }

  function BaseOf(s: string): int {
    if |s| >= 2 && s[0] == '0' && (s[1] == 'x' || s[1] == 'X') then 16 else 10
  }

  /** strto64, a full parse, no overflow. */
  function ParseSigned(s: string): Option<int> {
    var r := ScanNumber(s, BaseOf(s));
    var n: int := if r.negative then -(r.magnitude as int) else r.magnitude;
    if r.end == |s| && IsInt64(n) then Some(n) else None
  }

  function SkipBlanks(s: string): string {
    if s != [] && s[0] == ' ' then SkipBlanks(s[1..]) else s
  }

  /** Blanks are skipped and a minus sign is refused before strtou64 sees the rest, which
      may still skip other white space and negate modulo 2^64. */
  function ParseUnsigned(s: string): Option<int> {
    var rest := SkipBlanks(s);
    if rest != [] && rest[0] == '-' then None
    else
      var r := ScanNumber(rest, BaseOf(s));
      if r.end != |rest| || r.magnitude >= TWO_64 then None
      else Some(if r.negative then (TWO_64 - r.magnitude) % TWO_64 else r.magnitude)
  }

  function ParseFrom(s: string, t: FlagType): (r: Option<FlagValue>)
    ensures r.Some? ==> r.value.Type() == t && r.value.InRange()
  {
    match t
    case FvBool => ParseBool(s)
    case FvString => Some(Str(s))
    case FvInt32 =>
      var n := ParseSigned(s);
      if s != [] && n.Some? && IsInt32(n.value) then Some(Int32(n.value)) else None
    case FvInt64 =>
      var n := ParseSigned(s);
      if s != [] && n.Some? then Some(Int64(n.value)) else None
    case FvUint32 =>
      var n := ParseUnsigned(s);
      if s != [] && n.Some? && IsUint32(n.value) then Some(Uint32(n.value)) else None
    case FvUint64 =>
      var n := ParseUnsigned(s);
      if s != [] && n.Some? && IsUint64(n.value) then Some(Uint64(n.value)) else None
  }

  // ----- Which texts are numbers -------------------------------------------------------------------

  /** A hexadecimal digit is worth its place in the list of digits, in either case. */
  lemma HexDigits(d: nat)
    requires d < 16
    ensures HexDigit("0123456789abcdef"[d]) == d && HexDigit("0123456789ABCDEF"[d]) == d
  {
  }

  predicate SameLetter(c: char, d: char) { c == d || ('A' <= c <= 'Z' && c as int + 32 == d as int) }

  /** The text is the word, in small or capital letters. */
  predicate IsWord(s: string, word: string) {
    |s| == |word| && forall i :: 0 <= i < |s| ==> SameLetter(s[i], word[i])
  }

  lemma LowerIsWord(s: string, word: string)
    requires forall i :: 0 <= i < |word| ==> !('A' <= word[i] <= 'Z')
    ensures LowerAll(s) == word <==> IsWord(s, word)
  {
    if IsWord(s, word) {
      assert forall i :: 0 <= i < |s| ==> Lower(s[i]) == word[i];
    }
    if LowerAll(s) == word {
      assert forall i :: 0 <= i < |s| ==> Lower(s[i]) == LowerAll(s)[i];
    }
  }

  /** A boolean flag takes exactly five words for true and five for false. */
  lemma BoolExactly(s: string, b: bool)
    ensures ParseFrom(s, FvBool) == Some(Bool(b))
       <==> if b then IsWord(s, "1") || IsWord(s, "t") || IsWord(s, "true") || IsWord(s, "y") || IsWord(s, "yes")
            else IsWord(s, "0") || IsWord(s, "f") || IsWord(s, "false") || IsWord(s, "n") || IsWord(s, "no")
  {
    LowerIsWord(s, "1"); LowerIsWord(s, "t"); LowerIsWord(s, "true"); LowerIsWord(s, "y"); LowerIsWord(s, "yes");
    LowerIsWord(s, "0"); LowerIsWord(s, "f"); LowerIsWord(s, "false"); LowerIsWord(s, "n"); LowerIsWord(s, "no");
    var l := LowerAll(s);
    assert l == "1" || l == "t" || l == "true" || l == "y" || l == "yes" ==>
      l[0] == '1' || l[0] == 't' || l[0] == 'y';
    hide LowerAll, IsWord;
  }

  /** Digits behind k characters of white space and an optional sign, and the number they denote. */
  predicate DecimalFrom(s: string, k: nat, n: int) {
    k < |s| && (forall i :: 0 <= i < k ==> IsSpace(s[i]))
    && var digits := if s[k] == '-' || s[k] == '+' then s[k + 1..] else s[k..];
       digits != [] && IsDigits(digits) && n == if s[k] == '-' then -(Value(digits) as int) else Value(digits)
  }

  /** The texts of a number in a base: decimal, or 0x and hexadecimal digits. */
  ghost predicate Denotes(s: string, base: int, n: int) {
    if base == 16 then
      |s| > 2 && (forall i :: 2 <= i < |s| ==> IsHexDigit(s[i])) && n == HexValue(s[2..])
    else
      exists k: nat :: DecimalFrom(s, k, n)
  }

  lemma SpaceRunIs(s: string, k: nat)
    requires k < |s| && !IsSpace(s[k]) && forall i :: 0 <= i < k ==> IsSpace(s[i])
    ensures SpaceRun(s) == k
  {
    if k > 0 {
      SpaceRunIs(s[1..], k - 1);
    }
  }

  lemma SpaceRunStops(s: string)
    ensures forall i :: 0 <= i < SpaceRun(s) ==> IsSpace(s[i])
  {
  }

  lemma {:induction false} HexRun(s: string)
    requires forall i :: 0 <= i < |s| ==> IsHexDigit(s[i])
    ensures DigitRun(s, 16) == |s|
  {
    if s != [] {
      HexRun(s[1..]);
    }
  }

  lemma BaseIs(s: string)
    ensures BaseOf(s) == 16 <==> "0x" <= s || "0X" <= s
    ensures BaseOf(s) == 10 || BaseOf(s) == 16
  {
  }

  /** What a numeral that was scanned to the end of its text stands for. */
  function Signed(r: Numeral): int {
    if r.negative then -(r.magnitude as int) else r.magnitude
  }

  /** A scan reaches the end of a text exactly when the text denotes a number, and then it is
      the number. */
  lemma ScanExactly(s: string, base: int, n: int)
    requires s != [] && (base == 10 || base == 16 == BaseOf(s))
    ensures var r := ScanNumber(s, base);
      r.end == |s| && Signed(r) == n <==> Denotes(s, base, n)
  {
    if base == 16 {
      HexScan(s);
    } else {
      DecimalScan(s, n);
      hide ScanNumber, SpaceRun, DecimalFrom;
      if k: nat :| DecimalFrom(s, k, n) {
        DecimalStart(s, k, n);
      }
    }
  }

  lemma DecimalStart(s: string, k: nat, n: int)
    requires DecimalFrom(s, k, n)
    ensures SpaceRun(s) == k
  {
    SpaceRunIs(s, k);
  }

  lemma HexScan(s: string)
    requires BaseOf(s) == 16
    ensures var r := ScanNumber(s, 16);
      && (r.end == |s| <==> |s| > 2 && forall i :: 2 <= i < |s| ==> IsHexDigit(s[i]))
      && (r.end == |s| ==> Signed(r) == HexValue(s[2..]))
  {
    if |s| > 2 && IsHexDigit(s[2]) {
      var digits := s[2..];
      if forall i :: 2 <= i < |s| ==> IsHexDigit(s[i]) {
        HexRun(digits);
      }
      if DigitRun(digits, 16) == |digits| {
        assert digits[..|digits|] == digits;
        assert forall i :: 2 <= i < |s| ==> s[i] == digits[i - 2];
      }
    } else {
      assert !IsHexDigit(s[1]);
    }
  }

  /** Where the digits of a decimal number must start: behind white space and a sign. */
  function DigitsStart(s: string): (k: nat)
    ensures k <= |s|
  {
    var spaces := SpaceRun(s);
    if spaces < |s| && (s[spaces] == '-' || s[spaces] == '+') then spaces + 1 else spaces
  }

  /** A decimal scan: the digits behind white space and a sign. */
  lemma ScanIsDecimal(s: string)
    ensures var start := DigitsStart(s); var k := DigitRun(s[start..], 10);
      ScanNumber(s, 10)
      == if k == 0 then Numeral(false, 0, 0)
         else Numeral(SpaceRun(s) < |s| && s[SpaceRun(s)] == '-', Value(s[start..][..k]), start + k)
  {
    hide SpaceRun, DigitRun, Value;
  }

  lemma DecimalScan(s: string, n: int)
    requires s != []
    ensures var r := ScanNumber(s, 10);
      r.end == |s| && Signed(r) == n <==> DecimalFrom(s, SpaceRun(s), n)
  {
    SpaceRunStops(s);
    ScanIsDecimal(s);
    var digits := s[DigitsStart(s)..];
    WholeRun(digits);
    hide SpaceRun, DigitRun, Value, ScanNumber, IsSpace;
    assert digits[..|digits|] == digits;
  }

  lemma WholeRun(s: string)
    ensures DigitRun(s, 10) == |s| <==> IsDigits(s)
  {
    if IsDigits(s) {
      AllDigitsRun(s);
    }
  }

  /** A signed flag takes exactly the texts of the numbers in its range. */
  lemma SignedExactly(s: string, n: int)
    ensures ParseFrom(s, FvInt64) == Some(Int64(n)) <==> s != [] && Denotes(s, BaseOf(s), n) && IsInt64(n)
    ensures ParseFrom(s, FvInt32) == Some(Int32(n)) <==> s != [] && Denotes(s, BaseOf(s), n) && IsInt32(n)
  {
    hide ScanNumber, Denotes;
    if s != [] {
      ScanExactly(s, BaseOf(s), n);
    }
  }

  /** An unsigned flag takes, behind any blanks, the numbers below 2^64 in size, unless a minus
      sign comes first; behind other white space they may be negative, and then they wrap.
      Blanks alone are 0. */
  ghost predicate IsUnsigned(s: string, n: int) {
    s != [] && exists k :: BlanksEnd(s, k) && UnsignedFrom(s, k, n)
  }

  predicate BlanksEnd(s: string, k: int) {
    0 <= k <= |s| && (forall i :: 0 <= i < k ==> s[i] == ' ') && (k < |s| ==> s[k] != ' ')
  }

  ghost predicate UnsignedFrom(s: string, k: int, n: int)
    requires 0 <= k <= |s|
  {
    if k == |s| then n == 0
    else s[k] != '-' && exists m :: Denotes(s[k..], BaseOf(s), m) && -TWO_64 < m < TWO_64 && n == m % TWO_64
  }

  lemma {:induction false} BlanksSkipped(s: string, k: nat)
    requires BlanksEnd(s, k)
    ensures SkipBlanks(s) == s[k..]
  {
    if k > 0 {
      BlanksSkipped(s[1..], k - 1);
    } else {
      assert s[0..] == s;
    }
  }

  lemma {:induction false} SkippedBlanks(s: string) returns (k: nat)
    ensures BlanksEnd(s, k) && SkipBlanks(s) == s[k..]
  {
    k := 0;
    if s != [] && s[0] == ' ' {
      k := SkippedBlanks(s[1..]);
      k := k + 1;
    }
    BlanksSkipped(s, k);
  }

  lemma UnsignedExactly(s: string, n: int)
    ensures ParseFrom(s, FvUint64) == Some(Uint64(n)) <==> IsUnsigned(s, n)
    ensures ParseFrom(s, FvUint32) == Some(Uint32(n)) <==> IsUnsigned(s, n) && IsUint32(n)
  {
    if s != [] {
      ParseUnsignedExactly(s, n);
    }
    hide ParseUnsigned, BaseOf, Denotes, SkipBlanks;
  }

  lemma ParseUnsignedExactly(s: string, n: int)
    requires s != []
    ensures ParseUnsigned(s) == Some(n) <==> IsUnsigned(s, n)
    ensures IsUnsigned(s, n) ==> IsUint64(n)
  {
    var k := SkippedBlanks(s);
    ParseUnsignedFrom(s, k, n);
    hide ParseUnsigned, UnsignedFrom;
    forall k' | BlanksEnd(s, k') ensures k' == k {
    }
  }

  lemma ParseUnsignedFrom(s: string, k: nat, n: int)
    requires s != [] && BlanksEnd(s, k) && SkipBlanks(s) == s[k..]
    ensures ParseUnsigned(s) == Some(n) <==> UnsignedFrom(s, k, n)
    ensures UnsignedFrom(s, k, n) ==> IsUint64(n)
  {
    var rest, base := s[k..], BaseOf(s);
    assert base == 16 ==> k == 0 && rest == s;
    var r := ScanNumber(rest, base);
    if rest == [] {
      assert r == Numeral(false, 0, 0);
    } else {
      hide ScanNumber, Denotes, SkipBlanks, BaseOf, BlanksEnd;
      UnsignedScan(rest, base, n);
      if r.magnitude < TWO_64 {
        Wrapped(r);
      }
    }
  }

  lemma Wrapped(r: Numeral)
    requires r.magnitude < TWO_64
    ensures (if r.negative then (TWO_64 - r.magnitude) % TWO_64 else r.magnitude) == Signed(r) % TWO_64
  {
  }

  lemma UnsignedScan(s: string, base: int, n: int)
    requires s != [] && (base == 10 || base == 16 == BaseOf(s))
    ensures var r := ScanNumber(s, base);
      r.end == |s| && r.magnitude < TWO_64 && n == Signed(r) % TWO_64
      <==> exists m :: Denotes(s, base, m) && -TWO_64 < m < TWO_64 && n == m % TWO_64
  {
    hide ScanNumber, Denotes, BaseOf;
    var r := ScanNumber(s, base);
    forall m ensures r.end == |s| && Signed(r) == m <==> Denotes(s, base, m) {
      ScanExactly(s, base, m);
    }
    assert r.end == |s| ==> Denotes(s, base, Signed(r));
  }

  // ----- ToString and the round trip -----------------------------------------------------------------

  function ToString(v: FlagValue): string {
    match v
    case Bool(b) => if b then "true" else "false"
    case Str(s) => s
    case Int32(n) => IntText(n)
    case Uint32(n) => IntText(n)
    case Int64(n) => IntText(n)
    case Uint64(n) => IntText(n)
  }

  lemma {:induction false} AllDigitsRun(s: string)
    requires IsDigits(s)
    ensures DigitRun(s, 10) == |s|
  {
    if s != [] {
      AllDigitsRun(s[1..]);
    }
  }

  /** A digit string, with or without a minus sign, scans as a whole. */
  lemma ScanOfDigits(d: string, negative: bool)
    requires d != [] && IsDigits(d)
    ensures var s := if negative then "-" + d else d;
      && BaseOf(s) == 10
      && ScanNumber(s, 10) == Numeral(negative, Value(d), |s|)
  {
    AllDigitsRun(d);
    hide Value, DigitRun;
    var s := if negative then "-" + d else d;
    assert IsDigit(d[0]) && (|d| > 1 ==> IsDigit(d[1]));
    var start := if negative then 1 else 0;
    assert s[start..] == d && d[..|d|] == d;
  }

  lemma SignedText(n: int)
    requires IsInt64(n)
    ensures ParseSigned(IntText(n)) == Some(n) && IntText(n) != []
  {
    var m := if n < 0 then -n else n;
    ScanOfDigits(Decimal(m), n < 0);
    ValueOfDecimal(m);
    hide ScanNumber, BaseOf, Decimal, Value;
  }

  lemma UnsignedText(n: int)
    requires IsUint64(n)
    ensures ParseUnsigned(IntText(n)) == Some(n) && IntText(n) != []
  {
    ScanOfDigits(Decimal(n), false);
    ValueOfDecimal(n);
    hide ScanNumber, BaseOf, Decimal, Value;
    assert IsDigit(Decimal(n)[0]);
  }

  /** How values are printed: true and false, strings as they are, numbers in decimal without
      leading zeros and with a sign only if they are negative. */
  lemma PrintedExactly(b: bool, s: string, n: int)
    ensures ToString(Bool(true)) == "true" && ToString(Bool(false)) == "false" && ToString(Str(s)) == s
    ensures var text := IntText(n); var digits := if n < 0 then text[1..] else text;
      && ToString(Int32(n)) == ToString(Int64(n)) == ToString(Uint32(n)) == ToString(Uint64(n)) == text
      && text != "" && (n < 0 ==> text[0] == '-')
      && digits != "" && IsDigits(digits) && (digits[0] == '0' ==> digits == "0")
      && Value(digits) == if n < 0 then -n else n
  {
    var m: nat := if n < 0 then -n else n;
    ValueOfDecimal(m);
    if m > 0 {
      LeadingDigit(m);
    }
    hide Decimal, Value;
    assert ("-" + Decimal(m))[1..] == Decimal(m);
  }

  /** Every value that fits its type is what its text parses to. */
  lemma ParseUndoesToString(v: FlagValue)
    requires v.InRange()
    ensures ParseFrom(ToString(v), v.Type()) == Some(v)
  {
    hide ParseSigned, ParseUnsigned, IntText, ParseBool;
    match v
    case Bool(b) => BoolText(b);
    case Str(s) =>
    case Int32(n) => SignedText(n);
    case Int64(n) => SignedText(n);
    case Uint32(n) => UnsignedText(n);
    case Uint64(n) => UnsignedText(n);
  }

  lemma BoolText(b: bool)
    ensures ParseBool(if b then "true" else "false") == Some(Bool(b))
  {
    assert LowerAll("true") == "true";
    assert LowerAll("false") == "false";
    assert "false"[0] == 'f';
  }

  /** Blanks alone are accepted as an unsigned zero, which printing does not give back. */
  lemma BlanksAreZero()
    ensures ParseFrom(" ", FvUint32) == Some(Uint32(0)) && ToString(Uint32(0)) != " "
  {
    assert SkipBlanks(" ") == [];
    assert Decimal(0) == "0";
  }
}
