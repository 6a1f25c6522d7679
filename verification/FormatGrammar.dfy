/**
  The grammar of format specifications with its meaning, stated without the parser: which parts
  a text may have, for which argument types, and what each part says.  The parser accepts
  exactly these texts and reads exactly this out of them.
 */
module FormatGrammar {
  import opened Decimals
  import opened FormatSpecs
  import opened Wrappers

  // ----- What argument types take --------------------------------------------------------------------

  predicate TakesSign(t: ArgType) { t.Int? || t.LongLong? || t.Int128? || t.Float? || t.Double? || t.LongDouble? }
  predicate TakesZero(t: ArgType) { !t.CString? && !t.String? && !t.Pointer? }
  predicate TakesPrecision(t: ArgType) { t.Float? || t.Double? || t.LongDouble? || t.CString? || t.String? }

  /** The presentations of each argument type, and which of them have an upper case. */
  predicate Admits(presentation: nat, upper: bool, t: ArgType) {
    match t
    case Float | Double | LongDouble =>
      presentation == EXP || presentation == FIXED || presentation == GENERAL || presentation == HEXFLOAT
    case Bool =>
      presentation == HEX || presentation == BIN
      || (!upper && (presentation == DEC || presentation == OCT || presentation == STRING))
    case Char =>
      presentation == HEX || presentation == BIN
      || (!upper && (presentation == DEC || presentation == OCT || presentation == CHR || presentation == DEBUG))
    case String => !upper && (presentation == STRING || presentation == DEBUG)
    case CString => !upper && (presentation == STRING || presentation == DEBUG || presentation == ADDRESS)
    case Pointer => !upper && presentation == ADDRESS
    case _ =>
      presentation == HEX || presentation == BIN
      || (!upper && (presentation == DEC || presentation == OCT || presentation == CHR))
  }

  /** The letter for a presentation, as the argument type reads it. */
  function TypeChar(presentation: nat, upper: bool, t: ArgType): char {
    match t
    case Float | Double | LongDouble =>
      if presentation == EXP then if upper then 'E' else 'e'
      else if presentation == FIXED then if upper then 'F' else 'f'
      else if presentation == GENERAL then if upper then 'G' else 'g'
      else if upper then 'A' else 'a'
    case _ =>
      if presentation == DEBUG then '?'
      else if presentation == STRING then 's'
      else if presentation == DEC then if t.CString? || t.Pointer? then 'p' else 'd'
      else if presentation == HEX then if upper then 'X' else 'x'
      else if presentation == OCT then 'o'
      else if presentation == BIN then if upper then 'B' else 'b'
      else 'c'
  }

  function AlignChar(a: Align): char { if a.Left? then '<' else if a.Right? then '>' else '^' }

  // ----- The parts and what they say -----------------------------------------------------------------

  /** The length of the UTF-8 sequence that a first byte announces by its leading ones; a unit
      that announces nothing stands alone. */
  function Utf8Length(c: char): nat {
    if c as int / 0x20 == 6 then 2 else if c as int / 0x10 == 14 then 3 else if c as int / 8 == 30 then 4 else 1
  }

  predicate IsFill(fill: string) {
    fill != [] && |fill| == Utf8Length(fill[0]) && fill[0] != '{' && fill[0] != '}'
  }

  predicate IsLetter(c: char) { 'a' <= c <= 'z' || 'A' <= c <= 'Z' || c == '_' }

  predicate IsArgName(x: string) {
    x != [] && IsLetter(x[0]) && forall i :: 0 <= i < |x| ==> IsLetter(x[i]) || IsDigit(x[i])
  }

  /** Digits without leading zeros. */
  predicate IsNumeral(x: string) { x == "0" || (x != "" && IsDigits(x) && x[0] != '0') }

  /** What an explicit id says; a number beyond INT_MAX is read as INT_MAX. */
  predicate IdOf(x: string, ref: Ref) {
    || (IsNumeral(x) && ref == Index(if Value(x) <= INT_MAX then Value(x) else INT_MAX))
    || (IsArgName(x) && ref == Name(x))
  }

  /** An id, and what it makes of the indexing mode: without a text it is taken automatically,
      and automatic ids and numbers exclude each other. */
  predicate ReadsId(x: string, next: int, ref: Ref, next': int) {
    || (x == "" && next >= 0 && ref == Index(next) && next' == next + 1)
    || (IdOf(x, ref) && (ref.Index? ==> next <= 0) && next' == -1)
  }

  predicate ReadsNumber(x: string, value: int) {
    x != "" && IsDigits(x) && |x| <= 10 && Value(x) == value <= INT_MAX
  }

  predicate ReadsRef(x: string, next: int, ref: Ref, next': int) {
    |x| >= 2 && x[0] == '{' && x[|x| - 1] == '}' && ReadsId(x[1..|x| - 1], next, ref, next')
  }

  predicate ReadsWidth(x: string, a: Specs, next: int, b: Specs, next': int) {
    || (ReadsNumber(x, b.width) && b == a.(width := b.width, widthRef := NoRef) && next' == next)
    || (ReadsRef(x, next, b.widthRef, next') && b == a.(widthRef := b.widthRef))
  }

  predicate ReadsPrecision(x: string, a: Specs, next: int, b: Specs, next': int) {
    || (ReadsNumber(x, b.precision) && b == a.(precision := b.precision, precisionRef := NoRef) && next' == next)
    || (ReadsRef(x, next, b.precisionRef, next') && b == a.(precisionRef := b.precisionRef))
  }

  /** The k-th part of [[fill]align][sign]["#"]["0"][width]["." precision]["L"][type], for the
      types that take it: it turns the specs a into b and the indexing mode next into next'. */
  predicate Says(k: int, x: string, t: ArgType, a: Specs, next: int, b: Specs, next': int) {
    if k == 5 then x != "" && x[0] != '0' && ReadsWidth(x, a, next, b, next')
    else if k == 6 then TakesPrecision(t) && x != "" && x[0] == '.' && ReadsPrecision(x[1..], a, next, b, next')
    else next' == next && SaysMark(k, x, t, a, b)
  }

  predicate SaysMark(k: int, x: string, t: ArgType, a: Specs, b: Specs) {
    match k
    case 1 =>
      && (b.align.Left? || b.align.Right? || b.align.Center?)
      && (x == [AlignChar(b.align)] || (IsFill(b.fill) && x == b.fill + [AlignChar(b.align)]))
      && b == a.(align := b.align, fill := if |x| == 1 then a.fill else b.fill)
    case 2 =>
      && TakesSign(t) && (x == "+" || x == " " || x == "-")
      && b == a.(sign := if x == "+" then Plus else if x == " " then Space else a.sign)
    case 3 => TakesZero(t) && x == "#" && b == a.(alt := true)
    case 4 => TakesZero(t) && x == "0" && b == if a.align == NoAlign then a.(align := Numeric, fill := "0") else a
    case 7 => TakesZero(t) && x == "L" && b == a.(localized := true)
    case 8 =>
      && Admits(b.presentation, b.upper, t) && x == [TypeChar(b.presentation, b.upper, t)]
      && b == a.(presentation := b.presentation, upper := b.upper)
    case _ => false
  }

  /** The text is made of parts later than k, in order and each at most once, and they say b. */
  ghost predicate Reads(k: int, x: string, t: ArgType, a: Specs, next: int, b: Specs, next': int)
    decreases |x|
  {
    if x == "" then b == a && next' == next
    else exists m: int, n: int, c: Specs, next1: int ::
      k < m <= 8 && 0 < n <= |x| && Says(m, x[..n], t, a, next, c, next1) && Reads(m, x[n..], t, c, next1, b, next')
  }

  /** The specs that a text denotes for an argument type. */
  ghost predicate Denotes(x: string, t: ArgType, next: int, specs: Specs, next': int) {
    Reads(0, x, t, DEFAULT, next, specs, next')
  }

  // ----- Places in a string --------------------------------------------------------------------------

  /** s holds x at pos. */
  predicate Holds(s: string, pos: nat, x: string) {
    pos + |x| <= |s| && s[pos..pos + |x|] == x
  }

  lemma HoldsSplits(s: string, pos: nat, x: string, y: string)
    requires Holds(s, pos, x + y) && y != ""
    ensures Holds(s, pos, x) && Holds(s, pos + |x|, y) && pos + |x| < |s| && s[pos + |x|] == y[0]
  {
    var both := s[pos..pos + |x + y|];
    assert s[pos..pos + |x|] == both[..|x|] == x;
    assert s[pos + |x|..pos + |x| + |y|] == both[|x|..] == y;
    assert s[pos + |x|] == s[pos + |x|..pos + |x| + |y|][0];
  }

  lemma HoldsAt(s: string, pos: nat, x: string, i: nat)
    requires Holds(s, pos, x) && i < |x|
    ensures s[pos + i] == x[i]
  {
    assert s[pos + i] == s[pos..pos + |x|][i];
  }

  lemma {:induction false} DigitsEndAt(s: string, pos: nat, end: nat)
    requires pos <= end <= |s| && IsDigits(s[pos..end]) && (end < |s| ==> !IsDigit(s[end]))
    ensures DigitsEnd(s, pos) == end
    decreases end - pos
  {
    if pos < end {
      assert s[pos] == s[pos..end][0];
      assert s[pos + 1..end] == s[pos..end][1..];
      DigitsEndAt(s, pos + 1, end);
    }
  }

  lemma {:induction false} NameEndAt(s: string, pos: nat, end: nat)
    requires pos <= end < |s| && !IsNameStart(s[end]) && !IsDigit(s[end])
    requires forall i :: pos <= i < end ==> IsNameStart(s[i]) || IsDigit(s[i])
    ensures NameEnd(s, pos) == end
    decreases end - pos
  {
    if pos < end {
      NameEndAt(s, pos + 1, end);
    }
  }

  // ----- Numbers and ids -----------------------------------------------------------------------------

  lemma {:induction false} LongNumeral(x: string)
    requires x != "" && IsDigits(x) && x[0] != '0'
    ensures Value(x) >= Pow10(|x| - 1)
  {
    if |x| > 1 {
      LongNumeral(x[..|x| - 1]);
    } else {
      assert Value(x[..0]) == 0;
    }
  }

  /** More than ten digits without leading zeros are more than INT_MAX. */
  lemma NumeralNumber(x: string)
    requires IsNumeral(x)
    ensures IsDigits(x) && NumberOf(x, INT_MAX) == if Value(x) <= INT_MAX then Value(x) else INT_MAX
  {
    if |x| > 10 {
      LongNumeral(x);
      TenDigits();
      Pow10Ascending(10, |x| - 1);
    }
  }

  lemma ZeroIsNumeral()
    ensures IsNumeral("0") && Value("0") == 0
  {
    assert Value("0"[..0]) == 0;
  }

  lemma IdSays(s: string, pos: nat)
    requires pos < |s| && ParseArgId(s, pos).Id?
    ensures var id := ParseArgId(s, pos); IdOf(s[pos..id.end], id.ref)
  {
    var id := ParseArgId(s, pos);
    var x := s[pos..id.end];
    assert x[0] == s[pos];
    if IsDigit(s[pos]) {
      if s[pos] == '0' {
        assert x == "0";
        ZeroIsNumeral();
      } else {
        NumeralNumber(x);
      }
    }
    hide Value, NumberOf, DigitsEnd;
  }

  /** An id is read where a brace or a colon follows. */
  lemma IdIsRead(s: string, pos: nat, x: string, ref: Ref)
    requires IdOf(x, ref) && Holds(s, pos, x) && pos + |x| < |s| && (s[pos + |x|] == '}' || s[pos + |x|] == ':')
    ensures x != "" && (IsDigit(s[pos]) || IsNameStart(s[pos])) && ParseArgId(s, pos) == Id(ref, pos + |x|)
  {
    HoldsAt(s, pos, x, 0);
    if IsNumeral(x) {
      NumeralNumber(x);
      DigitsEndAt(s, pos, pos + |x|);
      if x == "0" {
        ZeroIsNumeral();
      }
    } else {
      assert forall i :: pos <= i < pos + |x| ==> s[i] == s[pos..pos + |x|][i - pos];
      NameEndAt(s, pos, pos + |x|);
    }
    hide Value, NumberOf, DigitsEnd, NameEnd;
  }

  lemma DynamicSays(s: string, pos: nat, next: int)
    requires pos < |s|
    ensures var r := ParseDynamic(s, pos, next);
      && (r.Literal? ==> ReadsNumber(s[pos..r.end], r.value))
      && (r.Argument? ==> ReadsRef(s[pos..r.end], next, r.ref, r.next))
  {
    if IsDigit(s[pos]) {
      DigitsGoOn(s, pos);
      hide Value, DigitsEnd;
    } else if ParseDynamic(s, pos, next).Argument? {
      RefSays(s, pos, next);
      hide ParseDynamic, ReadsRef;
    }
  }

  lemma RefSays(s: string, pos: nat, next: int)
    requires pos < |s| && !IsDigit(s[pos]) && ParseDynamic(s, pos, next).Argument?
    ensures var r := ParseDynamic(s, pos, next); ReadsRef(s[pos..r.end], next, r.ref, r.next)
  {
    hide ParseArgId, IdOf, DigitsEnd, NumberOf;
    var r := ParseDynamic(s, pos, next);
    var x := s[pos..r.end];
    if s[pos + 1] == '}' {
      assert x[1..|x| - 1] == "";
    } else {
      IdSays(s, pos + 1);
      assert x[1..|x| - 1] == s[pos + 1..r.end - 1];
    }
  }

  lemma DigitsGoOn(s: string, pos: nat)
    requires pos < |s| && IsDigit(s[pos])
    ensures DigitsEnd(s, pos) > pos
  {
  }

  lemma NumberIsRead(s: string, pos: nat, x: string, value: int, next: int)
    requires ReadsNumber(x, value) && Holds(s, pos, x) && pos + |x| < |s| && !IsDigit(s[pos + |x|])
    ensures IsDigit(s[pos]) && s[pos] == x[0] && ParseDynamic(s, pos, next) == Literal(value, pos + |x|)
  {
    HoldsAt(s, pos, x, 0);
    DigitsEndAt(s, pos, pos + |x|);
    hide Value, DigitsEnd;
  }

  lemma RefIsRead(s: string, pos: nat, x: string, next: int, ref: Ref, next': int)
    requires ReadsRef(x, next, ref, next') && Holds(s, pos, x)
    ensures s[pos] == '{' && ParseDynamic(s, pos, next) == Argument(ref, pos + |x|, next')
  {
    var id := x[1..|x| - 1];
    assert x == "{" + (id + "}");
    HoldsSplits(s, pos, "{", id + "}");
    HoldsSplits(s, pos + 1, id, "}");
    HoldsAt(s, pos, x, 0);
    hide Holds, ParseArgId;
    if id != "" {
      IdIsRead(s, pos + 1, id, ref);
    }
  }

  // ----- The parser says what the parts say ----------------------------------------------------------

  /** The parser's classes of types are those of the grammar, and so are its letters. */
  lemma TypesAgree(t: ArgType)
    ensures IsSigned(t) || IsFloat(t) <==> TakesSign(t)
    ensures IsArithmetic(t) <==> TakesZero(t)
    ensures IsFloat(t) || IsText(t) <==> TakesPrecision(t)
  {
  }

  lemma LettersAgree(c: char, t: ArgType, p: nat, upper: bool)
    ensures Presentation(c, t) == Some((p, upper)) <==> Admits(p, upper, t) && c == TypeChar(p, upper, t)
  {
  }

  lemma AlignsAgree(c: char, a: Align)
    ensures ParseAlign(ToAscii(c)) == a && !a.NoAlign? <==> c == AlignChar(a) && (a.Left? || a.Right? || a.Center?)
  {
  }

  lemma UnitsAgree(c: char)
    ensures CodePointLength(c) == Utf8Length(c) && (IsNameStart(c) <==> IsLetter(c))
  {
  }

  lemma WidthSays(s: string, pos: nat, specs: Specs, next: int, t: ArgType)
    requires pos < |s| && s[pos] != '0' && ParseWidth(s, pos, specs, next).More?
    ensures var r := ParseWidth(s, pos, specs, next); Says(5, s[pos..r.pos], t, specs, next, r.specs, r.next)
  {
    DynamicSays(s, pos, next);
    hide ReadsNumber, ReadsRef, ParseDynamic;
  }

  lemma PrecisionSays(s: string, pos: nat, specs: Specs, next: int, t: ArgType)
    requires pos < |s| && s[pos] == '.' && TakesPrecision(t) && ParsePrecision(s, pos, specs, next).More?
    ensures var r := ParsePrecision(s, pos, specs, next); Says(6, s[pos..r.pos], t, specs, next, r.specs, r.next)
  {
    DynamicSays(s, pos + 1, next);
    var x := s[pos..ParsePrecision(s, pos, specs, next).pos];
    assert x[1..] == s[pos + 1..ParsePrecision(s, pos, specs, next).pos];
    hide ReadsNumber, ReadsRef, ParseDynamic;
  }

  lemma FillSays(s: string, pos: nat, state: nat, specs: Specs, next: int, t: ArgType)
    requires pos < |s| && ParseFill(s, pos, state, specs, next).More?
    ensures var r := ParseFill(s, pos, state, specs, next);
      r.state == 1 && Says(1, s[pos..r.pos], t, specs, next, r.specs, r.next)
  {
    var r := ParseFill(s, pos, state, specs, next);
    var fillEnd := pos + CodePointLength(s[pos]);
    AlignsAgree(s[fillEnd], r.specs.align);
    assert s[pos..fillEnd + 1] == s[pos..fillEnd] + [s[fillEnd]];
  }

  lemma MarkSays(s: string, pos: nat, t: ArgType, a: Specs, next: int)
    requires pos < |s|
    ensures var x, c := s[pos..pos + 1], s[pos];
      && (!ParseAlign(c).NoAlign? ==> Says(1, x, t, a, next, a.(align := ParseAlign(c)), next))
      && (c == '-' && TakesSign(t) ==> Says(2, x, t, a, next, a, next))
      && (c == '+' && TakesSign(t) ==> Says(2, x, t, a, next, a.(sign := Plus), next))
      && (c == ' ' && TakesSign(t) ==> Says(2, x, t, a, next, a.(sign := Space), next))
      && (c == '#' && TakesZero(t) ==> Says(3, x, t, a, next, a.(alt := true), next))
      && (c == '0' && TakesZero(t) ==> Says(4, x, t, a, next, if a.align == NoAlign then a.(align := Numeric, fill := "0") else a, next))
      && (c == 'L' && TakesZero(t) ==> Says(7, x, t, a, next, a.(localized := true), next))
  {
    assert s[pos..pos + 1] == [s[pos]];
    AlignsAgree(s[pos], ParseAlign(s[pos]));
  }

  lemma LetterSays(s: string, pos: nat, t: ArgType, a: Specs, next: int)
    requires pos < |s| && Presentation(s[pos], t).Some? && !a.upper
    ensures var p := Presentation(s[pos], t).value;
      Says(8, s[pos..pos + 1], t, a, next, a.(presentation := p.0, upper := a.upper || p.1), next)
  {
    var p := Presentation(s[pos], t).value;
    LettersAgree(s[pos], t, p.0, p.1);
    assert s[pos..pos + 1] == [s[pos]];
    hide Presentation, Admits, TypeChar;
  }

  /** The character the parser switches on at a place: the one that is there, or none if it
      begins with a fill. */
  predicate Looks(s: string, pos: nat, c: char, state: nat)
    requires pos < |s|
  {
    c == ToAscii(s[pos]) || (c == 0 as char && state == 0)
  }

  lemma TurnSays(s: string, pos: nat, c: char, state: nat, specs: Specs, next: int, t: ArgType)
    requires pos < |s| && !specs.upper && Looks(s, pos, c, state)
    ensures var r := TakeTurn(s, pos, c, state, specs, next, t);
      && (r.More? ==> state < r.state <= 7 && !r.specs.upper && Says(r.state, s[pos..r.pos], t, specs, next, r.specs, r.next))
      && (r.Return? ==> (r.end == pos && r.specs == specs)
                        || (r.end == pos + 1 && Says(8, s[pos..r.end], t, specs, next, r.specs, next)))
  {
    hide Says, TakeTurn, Looks;
    MoreSays(s, pos, c, state, specs, next, t);
    ReturnSays(s, pos, c, state, specs, next, t);
  }

  lemma ReturnSays(s: string, pos: nat, c: char, state: nat, specs: Specs, next: int, t: ArgType)
    requires pos < |s| && !specs.upper && Looks(s, pos, c, state)
    ensures var r := TakeTurn(s, pos, c, state, specs, next, t);
      r.Return? ==> (r.end == pos && r.specs == specs)
                    || (r.end == pos + 1 && Says(8, s[pos..r.end], t, specs, next, r.specs, next))
  {
    assert !IsTypeChar(0 as char);
    hide Says, ParseWidth, ParsePrecision, ParseFill, Presentation, IsTypeChar, IsSigned, IsFloat, IsText, IsArithmetic;
    if Presentation(s[pos], t).Some? {
      LetterSays(s, pos, t, specs, next);
    }
  }

  lemma MoreSays(s: string, pos: nat, c: char, state: nat, specs: Specs, next: int, t: ArgType)
    requires pos < |s| && !specs.upper && Looks(s, pos, c, state)
    ensures var r := TakeTurn(s, pos, c, state, specs, next, t);
      r.More? ==> state < r.state <= 7 && !r.specs.upper && Says(r.state, s[pos..r.pos], t, specs, next, r.specs, r.next)
  {
    TypesAgree(t);
    MarkSays(s, pos, t, specs, next);
    hide Says, ParseWidth, ParsePrecision, ParseFill, Presentation, IsTypeChar, IsSigned, IsFloat, IsText, IsArithmetic,
         TakesSign, TakesZero, TakesPrecision;
    var r := TakeTurn(s, pos, c, state, specs, next, t);
    if r.More? {
      if '1' <= c <= '9' || c == '{' {
        WidthSays(s, pos, specs, next, t);
        WidthKeepsCase(s, pos, specs, next);
      } else if c == '.' {
        PrecisionSays(s, pos, specs, next, t);
        WidthKeepsCase(s, pos, specs, next);
      } else if r == ParseFill(s, pos, state, specs, next) {
        FillSays(s, pos, state, specs, next, t);
        FillKeepsCase(s, pos, state, specs, next);
      }
    }
  }

  lemma WidthKeepsCase(s: string, pos: nat, specs: Specs, next: int)
    requires pos < |s|
    ensures var r := ParseWidth(s, pos, specs, next); r.More? ==> r.state == 5 && r.specs.upper == specs.upper
    ensures var r := ParsePrecision(s, pos, specs, next); r.More? ==> r.state == 6 && r.specs.upper == specs.upper
  {
    hide ParseDynamic;
  }

  lemma FillKeepsCase(s: string, pos: nat, state: nat, specs: Specs, next: int)
    requires pos < |s|
    ensures var r := ParseFill(s, pos, state, specs, next); r.More? ==> r.specs.upper == specs.upper
  {
  }

  lemma ReadsFirst(k: int, m: int, s: string, i: nat, j: nat, end: nat, t: ArgType,
                   a: Specs, next: int, c: Specs, next1: int, b: Specs, next2: int)
    requires k < m <= 8 && i < j <= end <= |s| && Says(m, s[i..j], t, a, next, c, next1)
    requires Reads(m, s[j..end], t, c, next1, b, next2)
    ensures Reads(k, s[i..end], t, a, next, b, next2)
  {
    hide Says;
    assert s[i..end][..j - i] == s[i..j] && s[i..end][j - i..] == s[j..end];
  }

  lemma NothingSaid(k: int, s: string, i: nat, t: ArgType, a: Specs, next: int)
    requires i <= |s|
    ensures Reads(k, s[i..i], t, a, next, a, next)
  {
    assert s[i..i] == "";
  }

  /** Every accepted text denotes the specs the parser returns. */
  lemma {:induction false} ParsedFromSays(
      s: string, pos: nat, c: char, state: nat, specs: Specs, next: int, t: ArgType, result: Parse)
    requires pos < |s| && state <= 7 && !specs.upper && Looks(s, pos, c, state)
    requires result == ParseFrom(s, pos, c, state, specs, next, t) && result.Parsed?
    ensures Reads(state, s[pos..result.end], t, specs, next, result.specs, result.next)
    decreases |s| - pos
  {
    TurnSays(s, pos, c, state, specs, next, t);
    var turn := TakeTurn(s, pos, c, state, specs, next, t);
    hide TakeTurn, Says, Reads, ToAscii;
    if turn.Return? {
      if result.end == pos {
        NothingSaid(state, s, pos, t, specs, next);
      } else {
        NothingSaid(8, s, result.end, t, result.specs, next);
        ReadsFirst(state, 8, s, pos, result.end, result.end, t, specs, next, result.specs, next, result.specs, next);
      }
    } else {
      if turn.pos < |s| {
        ParsedFromSays(s, turn.pos, ToAscii(s[turn.pos]), turn.state, turn.specs, turn.next, t, result);
      } else {
        NothingSaid(turn.state, s, result.end, t, turn.specs, turn.next);
      }
      ReadsFirst(state, turn.state, s, pos, turn.pos, result.end, t, specs, next, turn.specs, turn.next,
                 result.specs, result.next);
    }
  }

  lemma ParsedSays(s: string, pos: nat, next: int, t: ArgType)
    requires pos <= |s| && ParseSpecs(s, pos, next, t).Parsed?
    ensures var r := ParseSpecs(s, pos, next, t); Denotes(s[pos..r.end], t, next, r.specs, r.next)
  {
    if pos < |s| {
      hide ParseFrom, Reads;
      ParsedFromSays(s, pos, FirstChar(s, pos), 0, DEFAULT, next, t, ParseSpecs(s, pos, next, t));
    } else {
      NothingSaid(0, s, pos, t, DEFAULT, next);
    }
  }

  // ----- The parser reads what the parts say ---------------------------------------------------------

  /** No character could be taken for an alignment by the parser's lookahead. */
  predicate Plain(x: string) {
    forall i :: 0 <= i < |x| ==> ParseAlign(ToAscii(x[i])).NoAlign?
  }

  lemma PlainId(x: string, next: int, ref: Ref, next': int)
    requires ReadsId(x, next, ref, next')
    ensures Plain(x)
  {
    hide Value;
  }

  lemma PlainRef(x: string, next: int, ref: Ref, next': int)
    requires ReadsRef(x, next, ref, next')
    ensures Plain(x)
  {
    PlainId(x[1..|x| - 1], next, ref, next');
    assert forall i :: 1 <= i < |x| - 1 ==> x[i] == x[1..|x| - 1][i - 1];
    hide ReadsId;
  }

  lemma PlainWidth(x: string, a: Specs, next: int, b: Specs, next': int)
    ensures ReadsWidth(x, a, next, b, next') ==> Plain(x)
    ensures ReadsPrecision(x, a, next, b, next') ==> Plain(x)
  {
    hide ReadsRef, Value;
    if ReadsRef(x, next, b.widthRef, next') {
      PlainRef(x, next, b.widthRef, next');
    }
    if ReadsRef(x, next, b.precisionRef, next') {
      PlainRef(x, next, b.precisionRef, next');
    }
  }

  lemma PlainMark(k: int, x: string, t: ArgType, a: Specs, b: Specs)
    requires k >= 2 && SaysMark(k, x, t, a, b)
    ensures |x| == 1 && Plain(x)
  {
    if k == 8 {
      LettersAgree(x[0], t, b.presentation, b.upper);
    }
    hide Admits, TypeChar;
  }

  /** Behind the alignment nothing looks like one. */
  lemma PlainPart(k: int, x: string, t: ArgType, a: Specs, next: int, b: Specs, next': int)
    requires k >= 2 && Says(k, x, t, a, next, b, next')
    ensures x != "" && Plain(x)
  {
    hide ReadsWidth, ReadsPrecision, SaysMark;
    if k == 5 {
      PlainWidth(x, a, next, b, next');
    } else if k == 6 {
      PlainWidth(x[1..], a, next, b, next');
      assert forall i :: 1 <= i < |x| ==> x[i] == x[1..][i - 1];
    } else {
      PlainMark(k, x, t, a, b);
    }
  }

  /** Behind a number comes no digit. */
  lemma NoDigitLater(k: int, x: string, t: ArgType, a: Specs, next: int, b: Specs, next': int)
    requires k >= 6 && Says(k, x, t, a, next, b, next')
    ensures x != "" && !IsDigit(x[0])
  {
    hide ReadsPrecision;
  }

  lemma {:induction false} PlainReads(k: int, x: string, t: ArgType, a: Specs, next: int, b: Specs, next': int)
    requires k >= 1 && Reads(k, x, t, a, next, b, next')
    ensures Plain(x) && (k >= 5 && x != "" ==> !IsDigit(x[0]))
    decreases |x|
  {
    hide Says;
    if x != "" {
      var m: int, n: int, c: Specs, next1: int :| k < m <= 8 && 0 < n <= |x| && Says(m, x[..n], t, a, next, c, next1)
                                                && Reads(m, x[n..], t, c, next1, b, next');
      PlainPart(m, x[..n], t, a, next, c, next1);
      PlainReads(m, x[n..], t, c, next1, b, next');
      if k >= 5 {
        NoDigitLater(m, x[..n], t, a, next, c, next1);
      }
      assert forall i :: 0 <= i < |x| ==> x[i] == if i < n then x[..n][i] else x[n..][i - n];
    }
  }

  lemma WidthIsRead(s: string, pos: nat, x: string, a: Specs, next: int, b: Specs, next': int)
    requires x != "" && Holds(s, pos, x) && pos + |x| < |s| && !IsDigit(s[pos + |x|])
    ensures ReadsWidth(x, a, next, b, next') ==>
      ParseWidth(s, pos, a, next) == More(pos + |x|, 5, b, next') && (x[0] != '0' ==> s[pos] == '{' || '1' <= s[pos] <= '9')
  {
    hide ReadsNumber, ReadsRef, ParseDynamic;
    if ReadsNumber(x, b.width) {
      NumberIsRead(s, pos, x, b.width, next);
    }
    if ReadsRef(x, next, b.widthRef, next') {
      RefIsRead(s, pos, x, next, b.widthRef, next');
    }
  }

  lemma PrecisionIsRead(s: string, pos: nat, x: string, a: Specs, next: int, b: Specs, next': int)
    requires x != "" && x[0] == '.' && Holds(s, pos, x) && pos + |x| < |s| && !IsDigit(s[pos + |x|])
    ensures s[pos] == '.'
    ensures ReadsPrecision(x[1..], a, next, b, next') ==> ParsePrecision(s, pos, a, next) == More(pos + |x|, 6, b, next')
  {
    HoldsAt(s, pos, x, 0);
    var y := x[1..];
    assert x == "." + y;
    if ReadsPrecision(y, a, next, b, next') {
      NotEmpty(y, a, next, b, next');
      HoldsSplits(s, pos, ".", y);
      hide ReadsNumber, ReadsRef, ParseDynamic, Holds;
      if ReadsNumber(y, b.precision) {
        NumberIsRead(s, pos + 1, y, b.precision, next);
      }
      if ReadsRef(y, next, b.precisionRef, next') {
        RefIsRead(s, pos + 1, y, next, b.precisionRef, next');
      }
    }
  }

  lemma NotEmpty(x: string, a: Specs, next: int, b: Specs, next': int)
    requires ReadsPrecision(x, a, next, b, next')
    ensures x != ""
  {
  }

  /** A fill and its alignment, or an alignment alone, are read as such. */
  lemma AlignIsRead(s: string, pos: nat, x: string, t: ArgType, a: Specs, next: int, b: Specs)
    requires SaysMark(1, x, t, a, b) && Holds(s, pos, x) && pos + |x| < |s|
    requires |x| == 1 ==> ParseAlign(ToAscii(s[pos + 1])).NoAlign?
    ensures TakeTurn(s, pos, FirstChar(s, pos), 0, a, next, t) == More(pos + |x|, 1, b, next)
  {
    HoldsAt(s, pos, x, 0);
    HoldsAt(s, pos, x, |x| - 1);
    AlignsAgree(s[pos + |x| - 1], b.align);
    UnitsAgree(s[pos]);
    hide ParseWidth, ParsePrecision, Presentation, CodePointLength;
    if |x| > 1 {
      FillIsRead(s, pos, x, a, next, b);
      hide ParseFill;
    }
  }

  lemma FillIsRead(s: string, pos: nat, x: string, a: Specs, next: int, b: Specs)
    requires |x| > 1 && IsFill(b.fill) && x == b.fill + [AlignChar(b.align)] && Holds(s, pos, x)
    requires (b.align.Left? || b.align.Right? || b.align.Center?) && b == a.(align := b.align, fill := b.fill)
    ensures ParseFill(s, pos, 0, a, next) == More(pos + |x|, 1, b, next)
    ensures FirstChar(s, pos) == 0 as char || FirstChar(s, pos) as int >= 0xc0
  {
    var n := |b.fill|;
    HoldsAt(s, pos, x, 0);
    HoldsAt(s, pos, x, n);
    AlignsAgree(s[pos + n], b.align);
    UnitsAgree(s[pos]);
    assert s[pos..pos + n] == s[pos..pos + |x|][..n] == b.fill;
  }

  lemma MarkIsRead(k: int, s: string, pos: nat, x: string, t: ArgType, a: Specs, next: int, b: Specs, state: nat)
    requires (2 <= k <= 4 || k == 7) && state < k && SaysMark(k, x, t, a, b) && Holds(s, pos, x)
    ensures TakeTurn(s, pos, ToAscii(s[pos]), state, a, next, t) == More(pos + |x|, k, b, next)
  {
    HoldsAt(s, pos, x, 0);
    TypesAgree(t);
    hide ParseWidth, ParsePrecision, Presentation, ParseFill;
  }

  lemma LetterIsRead(s: string, pos: nat, x: string, t: ArgType, a: Specs, next: int, b: Specs, state: nat)
    requires SaysMark(8, x, t, a, b) && Holds(s, pos, x) && !a.upper
    ensures TakeTurn(s, pos, ToAscii(s[pos]), state, a, next, t) == Return(pos + 1, b)
  {
    HoldsAt(s, pos, x, 0);
    LettersAgree(s[pos], t, b.presentation, b.upper);
    hide Admits, TypeChar;
    LetterTurn(s, pos, state, a, next, t);
    hide TakeTurn;
  }

  /** The parser switches on a type letter only to take it as the type. */
  lemma LetterTurn(s: string, pos: nat, state: nat, specs: Specs, next: int, t: ArgType)
    requires pos < |s| && Presentation(s[pos], t).Some?
    ensures var p := Presentation(s[pos], t).value;
      TakeTurn(s, pos, ToAscii(s[pos]), state, specs, next, t)
      == Return(pos + 1, specs.(presentation := p.0, upper := specs.upper || p.1))
  {
    hide ParseWidth, ParsePrecision, ParseFill;
  }

  /** One part, where it stands, is one turn of the parser. */
  lemma TurnReads(k: int, s: string, pos: nat, x: string, t: ArgType, a: Specs, next: int, b: Specs, next': int,
                  state: nat, c: char)
    requires state < k <= 8 && Says(k, x, t, a, next, b, next') && Holds(s, pos, x) && pos + |x| < |s| && !a.upper
    requires k == 1 && |x| == 1 ==> ParseAlign(ToAscii(s[pos + 1])).NoAlign?
    requires k == 5 || k == 6 ==> !IsDigit(s[pos + |x|])
    requires c == if k == 1 then FirstChar(s, pos) else ToAscii(s[pos])
    requires state == 0 || k != 1
    ensures TakeTurn(s, pos, c, state, a, next, t)
         == if k == 8 then Return(pos + 1, b) else More(pos + |x|, k, b, next')
    ensures k == 8 ==> |x| == 1 && next' == next
    ensures k < 8 ==> !b.upper
  {
    if k == 1 {
      AlignIsRead(s, pos, x, t, a, next, b);
    } else if k == 5 {
      WidthIsRead(s, pos, x, a, next, b, next');
      TurnReadsNumber(s, pos, state, a, next, t);
    } else if k == 6 {
      PrecisionIsRead(s, pos, x, a, next, b, next');
      TurnReadsNumber(s, pos, state, a, next, t);
    } else if k == 8 {
      LetterIsRead(s, pos, x, t, a, next, b, state);
    } else {
      MarkIsRead(k, s, pos, x, t, a, next, b, state);
    }
    hide TakeTurn, Holds, ReadsNumber, ReadsRef, IsFill, Admits, ParseWidth, ParsePrecision, FirstChar, ToAscii;
  }

  lemma TurnReadsNumber(s: string, pos: nat, state: nat, a: Specs, next: int, t: ArgType)
    requires pos < |s|
    ensures state < 5 && (s[pos] == '{' || '1' <= s[pos] <= '9') ==>
      TakeTurn(s, pos, ToAscii(s[pos]), state, a, next, t) == ParseWidth(s, pos, a, next)
    ensures state < 6 && s[pos] == '.' && TakesPrecision(t) ==>
      TakeTurn(s, pos, ToAscii(s[pos]), state, a, next, t) == ParsePrecision(s, pos, a, next)
  {
    TypesAgree(t);
    hide ParseWidth, ParsePrecision, Presentation, ParseFill;
  }

  /** The parser stands at x with the brace behind it, having read parts up to k. */
  ghost predicate At(k: nat, s: string, pos: nat, c: char, x: string) {
    pos < |s| && Holds(s, pos, x + "}") && c == if k == 0 then FirstChar(s, pos) else ToAscii(s[pos])
  }

  /** Only a fill makes the parser look at the second character first. */
  lemma FirstSeen(k: int, s: string, pos: nat, x: string, y: string, t: ArgType, a: Specs, next: int, b: Specs, next': int)
    requires Holds(s, pos, x + y + "}") && pos < |s| && Says(k, x, t, a, next, b, next') && k >= 2 && Plain(y)
    ensures FirstChar(s, pos) == ToAscii(s[pos])
  {
    PlainPart(k, x, t, a, next, b, next');
    hide Says;
    assert (x + y + "}")[1] == if 1 < |x| then x[1] else if 1 < |x + y| then y[1 - |x|] else '}';
    HoldsAt(s, pos, x + y + "}", 1);
  }

  lemma SecondSeen(s: string, pos: nat, x: string, y: string)
    requires Holds(s, pos, x + y + "}") && |x| == 1 && Plain(y)
    ensures ParseAlign(ToAscii(s[pos + 1])).NoAlign?
  {
    HoldsAt(s, pos, x + y + "}", 1);
    assert (x + y + "}")[1] == if y == "" then '}' else y[0];
  }

  lemma BraceEnds(s: string, pos: nat, c: char, k: nat, t: ArgType, a: Specs, next: int)
    requires At(k, s, pos, c, "")
    ensures ParseFrom(s, pos, c, k, a, next, t) == Parsed(pos, a, next)
  {
    HoldsAt(s, pos, "" + "}", 0);
    hide ParseWidth, ParsePrecision, Presentation;
  }

  /** The part x, then y, then the brace: one turn reads x and leaves the parser at y. */
  lemma PartIsRead(k: nat, m: int, s: string, pos: nat, c: char, x: string, y: string, t: ArgType,
                   a: Specs, next: int, b: Specs, next1: int)
    requires k < m <= 8 && At(k, s, pos, c, x + y) && Says(m, x, t, a, next, b, next1) && x != "" && !a.upper
    requires Plain(y) && (m >= 5 && y != "" ==> !IsDigit(y[0]))
    ensures TakeTurn(s, pos, c, k, a, next, t)
         == if m == 8 then Return(pos + 1, b) else More(pos + |x|, m, b, next1)
    ensures pos + |x| < |s|
    ensures At(m, s, pos + |x|, ToAscii(s[pos + |x|]), y) && (m < 8 ==> !b.upper) && (m == 8 ==> |x| == 1 && next1 == next)
  {
    assert x + (y + "}") == x + y + "}";
    HoldsSplits(s, pos, x, y + "}");
    hide Says, Holds, ToAscii, FirstChar, TakeTurn;
    if k == 0 && m >= 2 {
      FirstSeen(m, s, pos, x, y, t, a, next, b, next1);
    }
    if m == 1 && |x| == 1 {
      SecondSeen(s, pos, x, y);
    }
    TurnReads(m, s, pos, x, t, a, next, b, next1, k, c);
  }

  /** Every text of the grammar in front of a brace is accepted, as what it says. */
  lemma {:induction false} ReadsIsParsed(k: nat, s: string, pos: nat, c: char, x: string, t: ArgType,
                                         a: Specs, next: int, b: Specs, next': int)
    requires k <= 8 && At(k, s, pos, c, x) && Reads(k, x, t, a, next, b, next') && (k < 8 ==> !a.upper) && (k == 8 ==> x == "")
    ensures ParseFrom(s, pos, c, k, a, next, t) == Parsed(pos + |x|, b, next')
    decreases |x|
  {
    hide At, Says, TakeTurn;
    if x == "" {
      BraceEnds(s, pos, c, k, t, a, next);
    } else {
      var m: int, n: int, d: Specs, next1: int :| k < m <= 8 && 0 < n <= |x| && Says(m, x[..n], t, a, next, d, next1)
                                                && Reads(m, x[n..], t, d, next1, b, next');
      assert x == x[..n] + x[n..];
      PlainReads(m, x[n..], t, d, next1, b, next');
      PartIsRead(k, m, s, pos, c, x[..n], x[n..], t, a, next, d, next1);
      if m == 8 {
        assert x[n..] == "" && d == b && next' == next1;
      } else {
        ReadsIsParsed(m, s, pos + n, ToAscii(s[pos + n]), x[n..], t, d, next1, b, next');
      }
    }
  }

  /** In front of a closing brace the parser accepts exactly the texts of the grammar, and reads
      exactly what they say. */
  lemma SpecsExactly(s: string, pos: nat, end: nat, t: ArgType, next: int, specs: Specs, next': int)
    requires pos <= end < |s| && s[end] == '}'
    ensures ParseSpecs(s, pos, next, t) == Parsed(end, specs, next') <==> Denotes(s[pos..end], t, next, specs, next')
  {
    hide ParseFrom, Reads, At, FirstChar;
    if ParseSpecs(s, pos, next, t).Parsed? {
      ParsedSays(s, pos, next, t);
    }
    if Denotes(s[pos..end], t, next, specs, next') {
      AtFirst(s, pos, end);
      ReadsIsParsed(0, s, pos, FirstChar(s, pos), s[pos..end], t, DEFAULT, next, specs, next');
    }
  }

  lemma AtFirst(s: string, pos: nat, end: nat)
    requires pos <= end < |s| && s[end] == '}'
    ensures At(0, s, pos, FirstChar(s, pos), s[pos..end])
  {
    assert s[pos..end + 1] == s[pos..end] + "}";
  }
}
