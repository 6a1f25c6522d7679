/**
  The standard format specifiers: argument ids, dynamic width and precision, the
  specification parser.

  Format strings are strings of code units.  An error report ends the parse.
 */
module FormatSpecs {
  import opened Decimals
  import opened Wrappers

  const INT_MAX: int := 0x7fff_ffff

  datatype ArgType =
    | Int | UInt | LongLong | ULongLong | Int128 | UInt128 | Bool | Char
    | Float | Double | LongDouble | CString | String | Pointer

  predicate IsSigned(t: ArgType) { t.Int? || t.LongLong? || t.Int128? }
  predicate IsIntegral(t: ArgType) { IsSigned(t) || t.UInt? || t.ULongLong? || t.UInt128? || t.Bool? || t.Char? }
  predicate IsFloat(t: ArgType) { t.Float? || t.Double? || t.LongDouble? }
  predicate IsArithmetic(t: ArgType) { IsIntegral(t) || IsFloat(t) }
  predicate IsText(t: ArgType) { t.String? || t.CString? }

  /** presentation_type by number: several enumerators share one. */
  const NONE: nat := 0
  const DEBUG: nat := 1
  const STRING: nat := 2
  const DEC: nat := 3
  const HEX: nat := 4
  const OCT: nat := 5
  const BIN: nat := 6
  const CHR: nat := 7
  const ADDRESS: nat := 3
  const EXP: nat := 1
  const FIXED: nat := 2
  const GENERAL: nat := 3
  const HEXFLOAT: nat := 4

  datatype Align = NoAlign | Left | Right | Center | Numeric
  datatype Sign = NoSign | Minus | Plus | Space
  /** arg_id_kind together with arg_ref. */
  datatype Ref = NoRef | Index(index: int) | Name(name: string)

  datatype Specs = Specs(
    presentation: nat, align: Align, sign: Sign, upper: bool, alt: bool, localized: bool, fill: string,
    width: int, widthRef: Ref, precision: int, precisionRef: Ref)

  const DEFAULT: Specs := Specs(NONE, NoAlign, NoSign, false, false, false, " ", 0, NoRef, -1, NoRef)

  // ----- The parse context ------------------------------------------------------------------------

  /** next_arg_id(): the id and the next state, or an error in manual mode. */
  function NextId(next: int): Option<(int, int)> {
    if next < 0 then None else Some((next, next + 1))
  }

  /** check_arg_id(id): an error in automatic mode, else manual from now on. */
  function CheckId(next: int): Option<int> {
    if next > 0 then None else Some(-1)
  }

  class ParseContext {
    var nextArgId: int

    constructor (next: int)
      ensures nextArgId == next
    {
      nextArgId := next;
    }

    method NextArgId() returns (id: Option<int>)
      modifies this
      ensures match NextId(old(nextArgId))
        case None => id == None && nextArgId == old(nextArgId)
        case Some(r) => id == Some(r.0) && nextArgId == r.1
    {
      if nextArgId < 0 {
        return None;
      }
      id := Some(nextArgId);
      nextArgId := nextArgId + 1;
    }

    method CheckArgId() returns (ok: bool)
      modifies this
      ensures match CheckId(old(nextArgId))
        case None => !ok && nextArgId == old(nextArgId)
        case Some(r) => ok && nextArgId == r
    {
      if nextArgId > 0 {
        return false;
      }
      nextArgId := -1;
      ok := true;
    }
  }

  // ----- Numbers ---------------------------------------------------------------------------------------

  function DigitsEnd(s: string, pos: nat): (e: nat)
    requires pos <= |s|
    ensures pos <= e <= |s|
    ensures IsDigits(s[pos..e])
    ensures e < |s| ==> !IsDigit(s[e])
    decreases |s| - pos
  {
    if pos < |s| && IsDigit(s[pos]) then
      var e := DigitsEnd(s, pos + 1);
      assert s[pos..e] == [s[pos]] + s[pos + 1..e];
      e
    else pos
  }

  /** What the digits mean: at most ten of them, and no more than INT_MAX. */
  function NumberOf(digits: string, errorValue: int): int
    requires IsDigits(digits)
  {
    if |digits| <= 10 && Value(digits) <= INT_MAX then Value(digits) else errorValue
  }

  lemma {:induction false} ValueBound(digits: string)
    requires IsDigits(digits)
    ensures Value(digits) < Pow10(|digits|)
  {
    if digits != [] {
      ValueBound(digits[..|digits| - 1]);
    }
  }

  lemma TenDigits()
    ensures Pow10(9) == 1_000_000_000 && Pow10(10) == 10_000_000_000
  {
    assert Pow10(3) == 10 * Pow10(2) && Pow10(2) == 10 * Pow10(1) && Pow10(1) == 10;
    assert Pow10(6) == 10 * Pow10(5) && Pow10(5) == 10 * Pow10(4) && Pow10(4) == 10 * Pow10(3);
    assert Pow10(9) == 10 * Pow10(8) && Pow10(8) == 10 * Pow10(7) && Pow10(7) == 10 * Pow10(6);
  }

  lemma NineDigits(digits: string)
    requires IsDigits(digits) && |digits| <= 9
    ensures Value(digits) < 1_000_000_000
  {
    ValueBound(digits);
    Pow10Ascending(|digits|, 9);
    TenDigits();
  }

  /** What the loop of parse_nonnegative_int holds after some digits. */
  ghost predicate Accumulated(digits: string, acc: int, prev: int) {
    IsDigits(digits) && acc == Value(digits) % TWO_32 && (digits != [] ==> Previous(digits, prev))
  }

  /** The loop of parse_nonnegative_int: 32-bit unsigned accumulation, wrapping silently. */
  method ReadDigits(s: string, begin: nat) returns (acc: int, prev: int, end: nat)
    requires begin < |s| && IsDigit(s[begin])
    ensures end == DigitsEnd(s, begin) > begin
    ensures Accumulated(s[begin..end], acc, prev)
  {
    acc, prev, end := 0, 0, begin;
    assert s[begin..begin] == "" && Accumulated("", 0, 0);
    hide Accumulated;
    while end < |s| && IsDigit(s[end])
      invariant begin <= end <= |s| && DigitsEnd(s, begin) == DigitsEnd(s, end)
      invariant Accumulated(s[begin..end], acc, prev)
    {
      OneMoreDigit(s, begin, end, acc, prev);
      prev := acc;
      acc := (acc * 10 + (s[end] as int - '0' as int)) % TWO_32;
      end := end + 1;
    }
  }

  /** parse_nonnegative_int: overflow is decided after the loop. */
  method ParseNonnegativeInt(s: string, begin: nat, errorValue: int) returns (value: int, end: nat)
    requires begin < |s| && IsDigit(s[begin])
    ensures end == DigitsEnd(s, begin)
    ensures value == NumberOf(s[begin..end], errorValue)
  {
    var acc, prev;
    acc, prev, end := ReadDigits(s, begin);
    var last := s[end - 1];
    OverflowTest(s[begin..end], acc, prev, last);
    if end - begin <= 9 {
      return acc, end;
    }
    if end - begin == 10 && prev * 10 + (last as int - '0' as int) <= INT_MAX {
      return acc, end;
    }
    value := errorValue;
  }

  const TWO_32: int := 0x1_0000_0000

  /** The accumulator before the last digit. */
  predicate Previous(digits: string, prev: int) {
    digits != [] && IsDigits(digits[..|digits| - 1]) && prev == Value(digits[..|digits| - 1]) % TWO_32
  }

  lemma OneMoreDigit(s: string, begin: nat, end: nat, acc: int, prev: int)
    requires begin <= end < |s| && IsDigit(s[end]) && Accumulated(s[begin..end], acc, prev)
    ensures Accumulated(s[begin..end + 1], (acc * 10 + (s[end] as int - '0' as int)) % TWO_32, acc)
  {
    assert s[begin..end + 1][..end - begin] == s[begin..end];
    ModTen(Value(s[begin..end]), s[end] as int - '0' as int);
  }

  lemma ModTen(a: int, d: int)
    ensures (a * 10 + d) % TWO_32 == (a % TWO_32 * 10 + d) % TWO_32
  {
    var q := a / TWO_32;
    assert a * 10 + d == (a % TWO_32 * 10 + d) + TWO_32 * (10 * q);
  }

  /** The test on the last two accumulator values decides exactly whether the number fits. */
  lemma OverflowTest(digits: string, acc: int, prev: int, last: char)
    requires digits != [] && IsDigits(digits) && last == digits[|digits| - 1]
    requires acc == Value(digits) % TWO_32 && Previous(digits, prev)
    ensures |digits| <= 9 ==> acc == Value(digits) <= INT_MAX
    ensures |digits| == 10 ==> (prev * 10 + (last as int - '0' as int) <= INT_MAX <==> Value(digits) <= INT_MAX)
    ensures |digits| == 10 && Value(digits) <= INT_MAX ==> acc == Value(digits)
  {
    if |digits| <= 9 {
      NineDigits(digits);
    } else if |digits| == 10 {
      NineDigits(digits[..9]);
    }
  }

  // ----- Argument ids -------------------------------------------------------------------------------------

  predicate IsNameStart(c: char) { 'a' <= c <= 'z' || 'A' <= c <= 'Z' || c == '_' }

  function NameEnd(s: string, pos: nat): (e: nat)
    requires pos <= |s|
    ensures pos <= e <= |s|
    ensures forall i :: pos <= i < e ==> IsNameStart(s[i]) || IsDigit(s[i])
    ensures e < |s| ==> !IsNameStart(s[e]) && !IsDigit(s[e])
    decreases |s| - pos
  {
    if pos < |s| && (IsNameStart(s[pos]) || IsDigit(s[pos])) then NameEnd(s, pos + 1) else pos
  }

  /** An explicit id and where it ends. */
  datatype ArgId = BadId | Id(ref: Ref, end: nat)

  /** parse_arg_id on a non-empty rest: a number without leading zeros, or a name. */
  function ParseArgId(s: string, pos: nat): (r: ArgId)
    requires pos < |s|
    ensures r.Id? ==> pos < r.end <= |s| && !r.ref.NoRef?
  {
    if IsDigit(s[pos]) then
      var end := if s[pos] != '0' then DigitsEnd(s, pos) else pos + 1;
      if end == |s| || (s[end] != '}' && s[end] != ':') then BadId
      else Id(Index(if s[pos] != '0' then NumberOf(s[pos..end], INT_MAX) else 0), end)
    else if !IsNameStart(s[pos]) then BadId
    else Id(Name(s[pos..NameEnd(s, pos)]), NameEnd(s, pos))
  }

  method RunParseArgId(s: string, begin: nat) returns (r: ArgId)
    requires begin < |s|
    ensures r == ParseArgId(s, begin)
  {
    var c := s[begin];
    var p := begin;
    if IsDigit(c) {
      var index := 0;
      if c != '0' {
        index, p := ParseNonnegativeInt(s, begin, INT_MAX);
      } else {
        p := p + 1;
      }
      if p == |s| || (s[p] != '}' && s[p] != ':') {
        return BadId;
      }
      return Id(Index(index), p);
    }
    if !IsNameStart(c) {
      return BadId;
    }
    p := p + 1;
    while p < |s| && (IsNameStart(s[p]) || IsDigit(s[p]))
      invariant begin < p <= |s| && NameEnd(s, begin) == NameEnd(s, p)
    {
      p := p + 1;
    }
    r := Id(Name(s[begin..p]), p);
  }

  // ----- Dynamic width and precision ---------------------------------------------------------------------

  datatype Dynamic = BadDynamic | Literal(value: int, end: nat) | Argument(ref: Ref, end: nat, next: int)

  /** integer | "{" [arg_id] "}" */
  function ParseDynamic(s: string, pos: nat, next: int): (r: Dynamic)
    requires pos < |s|
    ensures !r.BadDynamic? ==> pos < r.end <= |s|
    ensures r.Argument? ==> !r.ref.NoRef?
  {
    if IsDigit(s[pos]) then
      var end := DigitsEnd(s, pos);
      var value := NumberOf(s[pos..end], -1);
      if value == -1 then BadDynamic else Literal(value, end)
    else if s[pos] != '{' || pos + 1 == |s| then BadDynamic
    else if s[pos + 1] == '}' || s[pos + 1] == ':' then
      match NextId(next)
      case None => BadDynamic
      case Some(r) => if s[pos + 1] == '}' then Argument(Index(r.0), pos + 2, r.1) else BadDynamic
    else match ParseArgId(s, pos + 1)
      case BadId => BadDynamic
      case Id(ref, end) =>
        var next' := if ref.Index? then CheckId(next) else Some(-1);
        if next'.None? || end == |s| || s[end] != '}' then BadDynamic
        else Argument(ref, end + 1, next'.value)
  }

  method RunParseDynamic(s: string, begin: nat, ctx: ParseContext) returns (r: Dynamic)
    requires begin < |s|
    modifies ctx
    ensures r == ParseDynamic(s, begin, old(ctx.nextArgId))
    ensures r.Argument? ==> ctx.nextArgId == r.next
    ensures r.Literal? ==> ctx.nextArgId == old(ctx.nextArgId)
  {
    if IsDigit(s[begin]) {
      var val, end := ParseNonnegativeInt(s, begin, -1);
      if val == -1 {
        return BadDynamic;
      }
      return Literal(val, end);
    }
    if s[begin] != '{' || begin + 1 == |s| {
      return BadDynamic;
    }
    var p := begin + 1;
    var ref;
    if s[p] == '}' || s[p] == ':' {
      var id := ctx.NextArgId();
      if id.None? {
        return BadDynamic;
      }
      ref := Index(id.value);
    } else {
      var id := RunParseArgId(s, p);
      if id.BadId? {
        return BadDynamic;
      }
      ref, p := id.ref, id.end;
      if ref.Index? {
        var ok := ctx.CheckArgId();
        if !ok {
          return BadDynamic;
        }
      } else {
        ctx.nextArgId := -1;
      }
    }
    if p < |s| && s[p] == '}' {
      return Argument(ref, p + 1, ctx.nextArgId);
    }
    r := BadDynamic;
  }

  // ----- The specification parser ------------------------------------------------------------------------------

  function ParseAlign(c: char): Align {
    if c == '<' then Left else if c == '>' then Right else if c == '^' then Center else NoAlign
  }

  /** Characters above 0xff read as NUL. */
  function ToAscii(c: char): char { if c as int <= 0xff then c else 0 as char }

  /** Length of the UTF-8 sequence a code unit starts, or 1. */
  function CodePointLength(c: char): nat {
    if 0xc0 <= c as int < 0xe0 then 2 else if 0xe0 <= c as int < 0xf0 then 3
    else if 0xf0 <= c as int < 0xf8 then 4 else 1
  }

  /** The character the parser switches on first: fill and alignment are seen by looking ahead. */
  function FirstChar(s: string, pos: nat): char
    requires pos < |s|
  {
    if |s| - pos > 1 && !ParseAlign(ToAscii(s[pos + 1])).NoAlign? then 0 as char else ToAscii(s[pos])
  }

  /** Parts come in this order, each at most once: align 1, sign 2, hash 3, zero 4, width 5,
      precision 6, locale 7. */
  datatype Parse = Bad | Parsed(end: nat, specs: Specs, next: int)

  /** One turn of the parser's loop: it fails, returns, or goes on behind a part. */
  datatype Turn = Fail | Return(end: nat, specs: Specs) | More(pos: nat, state: nat, specs: Specs, next: int)

  /** Presentation types: the number, whether it is upper case, and which types allow it. */
  function Presentation(c: char, t: ArgType): Option<(nat, bool)> {
    if c == 'd' && IsIntegral(t) then Some((DEC, false))
    else if c == 'x' && IsIntegral(t) then Some((HEX, false))
    else if c == 'X' && IsIntegral(t) then Some((HEX, true))
    else if c == 'o' && IsIntegral(t) then Some((OCT, false))
    else if c == 'b' && IsIntegral(t) then Some((BIN, false))
    else if c == 'B' && IsIntegral(t) then Some((BIN, true))
    else if c == 'e' && IsFloat(t) then Some((EXP, false))
    else if c == 'E' && IsFloat(t) then Some((EXP, true))
    else if c == 'f' && IsFloat(t) then Some((FIXED, false))
    else if c == 'F' && IsFloat(t) then Some((FIXED, true))
    else if c == 'g' && IsFloat(t) then Some((GENERAL, false))
    else if c == 'G' && IsFloat(t) then Some((GENERAL, true))
    else if c == 'a' && IsFloat(t) then Some((HEXFLOAT, false))
    else if c == 'A' && IsFloat(t) then Some((HEXFLOAT, true))
    else if c == 'c' && IsIntegral(t) && !t.Bool? then Some((CHR, false))
    else if c == 's' && (t.Bool? || IsText(t)) then Some((STRING, false))
    else if c == 'p' && (t.Pointer? || t.CString?) then Some((ADDRESS, false))
    else if c == '?' && (t.Char? || IsText(t)) then Some((DEBUG, false))
    else None
  }

  predicate IsTypeChar(c: char) {
    c == 'd' || c == 'x' || c == 'X' || c == 'o' || c == 'b' || c == 'B' || c == 'e' || c == 'E' || c == 'f' || c == 'F'
    || c == 'g' || c == 'G' || c == 'a' || c == 'A' || c == 'c' || c == 's' || c == 'p' || c == '?'
  }

  function ParseWidth(s: string, pos: nat, specs: Specs, next: int): (r: Turn)
    requires pos < |s|
    ensures !r.Return? && (r.More? ==> pos < r.pos <= |s| && r.state == 5)
  {
    match ParseDynamic(s, pos, next)
    case BadDynamic => Fail
    case Literal(v, end) => More(end, 5, specs.(width := v, widthRef := NoRef), next)
    case Argument(ref, end, next') => More(end, 5, specs.(widthRef := ref), next')
  }

  function ParsePrecision(s: string, pos: nat, specs: Specs, next: int): (r: Turn)
    requires pos < |s|
    ensures !r.Return? && (r.More? ==> pos < r.pos <= |s| && r.state == 6)
  {
    if pos + 1 == |s| then Fail
    else match ParseDynamic(s, pos + 1, next)
      case BadDynamic => Fail
      case Literal(v, end) => More(end, 6, specs.(precision := v, precisionRef := NoRef), next)
      case Argument(ref, end, next') => More(end, 6, specs.(precisionRef := ref), next')
  }

  function ParseFill(s: string, pos: nat, state: nat, specs: Specs, next: int): (r: Turn)
    requires pos < |s|
    ensures r.More? ==> pos < r.pos <= |s| && state == 0 && r.state == 1
    ensures r.Return? ==> r == Return(pos, specs)
  {
    if s[pos] == '}' then Return(pos, specs)
    else
      var fillEnd := pos + CodePointLength(s[pos]);
      if fillEnd >= |s| || s[pos] == '{' then Fail
      else
        var align := ParseAlign(ToAscii(s[fillEnd]));
        if state >= 1 || align.NoAlign? then Fail
        else More(fillEnd + 1, 1, specs.(fill := s[pos..fillEnd], align := align), next)
  }

  function TakeTurn(s: string, pos: nat, c: char, state: nat, specs: Specs, next: int, t: ArgType): (r: Turn)
    requires pos < |s|
    ensures r.More? ==> pos < r.pos <= |s| && state < r.state
    ensures r.Return? ==> pos <= r.end <= |s|
  {
    if !ParseAlign(c).NoAlign? then
      if state >= 1 then Fail else More(pos + 1, 1, specs.(align := ParseAlign(c)), next)
    else if c == '+' || c == ' ' || c == '-' then
      if state >= 2 || !(IsSigned(t) || IsFloat(t)) then Fail
      else More(pos + 1, 2, if c == '-' then specs else specs.(sign := if c == ' ' then Space else Plus), next)
    else if c == '#' then
      if state >= 3 || !IsArithmetic(t) then Fail else More(pos + 1, 3, specs.(alt := true), next)
    else if c == '0' then
      if state >= 4 || !IsArithmetic(t) then Fail
      else More(pos + 1, 4, if specs.align.NoAlign? then specs.(align := Numeric, fill := "0") else specs, next)
    else if '1' <= c <= '9' || c == '{' then
      if state >= 5 then Fail else ParseWidth(s, pos, specs, next)
    else if c == '.' then
      if state >= 6 || !(IsFloat(t) || IsText(t)) then Fail else ParsePrecision(s, pos, specs, next)
    else if c == 'L' then
      if state >= 7 || !IsArithmetic(t) then Fail else More(pos + 1, 7, specs.(localized := true), next)
    else if IsTypeChar(c) then
      match Presentation(c, t)
      case None => Fail
      case Some(p) => Return(pos + 1, specs.(presentation := p.0, upper := specs.upper || p.1))
    else if c == '}' then Return(pos, specs)
    else ParseFill(s, pos, state, specs, next)
  }

  /** The loop from a state on, with the character to switch on given. */
  function ParseFrom(s: string, pos: nat, c: char, state: nat, specs: Specs, next: int, t: ArgType): (r: Parse)
    requires pos < |s|
    ensures r.Parsed? ==> pos <= r.end <= |s|
    decreases |s| - pos
  {
    match TakeTurn(s, pos, c, state, specs, next, t)
    case Fail => Bad
    case Return(end, specs') => Parsed(end, specs', next)
    case More(pos', state', specs', next') =>
      if pos' == |s| then Parsed(pos', specs', next')
      else ParseFrom(s, pos', ToAscii(s[pos']), state', specs', next', t)
  }

  /** parse_format_specs on s from pos on. */
  function ParseSpecs(s: string, pos: nat, next: int, t: ArgType): (r: Parse)
    requires pos <= |s|
    ensures r.Parsed? ==> pos <= r.end <= |s|
  {
    if pos == |s| then Parsed(pos, DEFAULT, next)
    else ParseFrom(s, pos, FirstChar(s, pos), 0, DEFAULT, next, t)
  }

  /** parse_width and parse_precision: the dynamic spec, stored into the specs. */
  method RunDynamicPart(s: string, begin: nat, precision: bool, specs: Specs, ctx: ParseContext) returns (turn: Turn)
    requires begin < |s|
    modifies ctx
    ensures turn == if precision then ParsePrecision(s, begin, specs, old(ctx.nextArgId))
                    else ParseWidth(s, begin, specs, old(ctx.nextArgId))
    ensures turn.More? ==> ctx.nextArgId == turn.next
  {
    var p := begin;
    if precision {
      p := p + 1;
      if p == |s| {
        return Fail;
      }
    }
    var d := RunParseDynamic(s, p, ctx);
    match d {
      case BadDynamic => turn := Fail;
      case Literal(v, end) =>
        turn := if precision then More(end, 6, specs.(precision := v, precisionRef := NoRef), ctx.nextArgId)
                else More(end, 5, specs.(width := v, widthRef := NoRef), ctx.nextArgId);
      case Argument(ref, end, next) =>
        turn := if precision then More(end, 6, specs.(precisionRef := ref), next)
                else More(end, 5, specs.(widthRef := ref), next);
    }
  }

  /** One turn of the loop: the switch on c, which advances the position and updates the specs. */
  method RunTurn(s: string, begin: nat, c: char, state: nat, specs: Specs, ctx: ParseContext, t: ArgType)
    returns (turn: Turn)
    requires begin < |s|
    modifies ctx
    ensures turn == TakeTurn(s, begin, c, state, specs, old(ctx.nextArgId), t)
    ensures turn.More? ==> ctx.nextArgId == turn.next
    ensures turn.Return? ==> ctx.nextArgId == old(ctx.nextArgId)
  {
    hide ParseWidth, ParsePrecision, Presentation;
    var newState, valid, newSpecs := 0, true, specs;
    if c == '<' || c == '>' || c == '^' {
      newState, newSpecs := 1, specs.(align := ParseAlign(c));
    } else if c == '+' || c == ' ' || c == '-' {
      if c != '-' {
        newSpecs := specs.(sign := if c == ' ' then Space else Plus);
      }
      newState, valid := 2, IsSigned(t) || IsFloat(t);
    } else if c == '#' {
      newState, valid, newSpecs := 3, IsArithmetic(t), specs.(alt := true);
    } else if c == '0' {
      newState, valid := 4, IsArithmetic(t);
      if specs.align == NoAlign {
        newSpecs := specs.(align := Numeric, fill := "0");
      }
    } else if '1' <= c <= '9' || c == '{' {
      newState := 5;
    } else if c == '.' {
      newState, valid := 6, IsFloat(t) || IsText(t);
    } else if c == 'L' {
      newState, valid, newSpecs := 7, IsArithmetic(t), specs.(localized := true);
    } else if IsTypeChar(c) {
      var p := Presentation(c, t);
      if p.None? {
        return Fail;
      }
      return Return(begin + 1, specs.(presentation := p.value.0, upper := specs.upper || p.value.1));
    } else if c == '}' || s[begin] == '}' {
      return Return(begin, specs);
    } else {
      var fillEnd := begin + CodePointLength(s[begin]);
      if fillEnd >= |s| || s[begin] == '{' {
        return Fail;
      }
      var align := ParseAlign(ToAscii(s[fillEnd]));
      if state >= 1 || align == NoAlign {
        return Fail;
      }
      return More(fillEnd + 1, 1, specs.(fill := s[begin..fillEnd], align := align), ctx.nextArgId);
    }
    if state >= newState || !valid {
      return Fail;
    }
    if newState == 5 || newState == 6 {
      turn := RunDynamicPart(s, begin, newState == 6, specs, ctx);
    } else {
      turn := More(begin + 1, newState, newSpecs, ctx.nextArgId);
    }
  }

  /** parse_format_specs. */
  method RunParseSpecs(s: string, begin: nat, ctx: ParseContext, t: ArgType) returns (r: Parse)
    requires begin <= |s|
    modifies ctx
    ensures r == ParseSpecs(s, begin, old(ctx.nextArgId), t)
    ensures r.Parsed? ==> ctx.nextArgId == r.next
  {
    if begin == |s| {
      return Parsed(begin, DEFAULT, ctx.nextArgId);
    }
    hide TakeTurn;
    var c := FirstChar(s, begin);
    var p, state, specs := begin, 0, DEFAULT;
    while true
      invariant begin <= p < |s|
      invariant ParseSpecs(s, begin, old(ctx.nextArgId), t) == ParseFrom(s, p, c, state, specs, ctx.nextArgId, t)
      decreases |s| - p
    {
      var turn := RunTurn(s, p, c, state, specs, ctx, t);
      match turn {
        case Fail => return Bad;
        case Return(end, specs') => return Parsed(end, specs', ctx.nextArgId);
        case More(pos, state', specs', _) =>
          p, state, specs := pos, state', specs';
          if p == |s| {
            return Parsed(p, specs, ctx.nextArgId);
          }
          c := ToAscii(s[p]);
      }
    }
  }
}
