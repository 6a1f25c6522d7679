/**
  A canonical printer for format specifications, which the parser undoes: parsing the printed
  text gives the same specs, and every parse yields specs that can be printed.  Both follow from
  the grammar, which the parser is known to read exactly.
 */
module FormatPrinter {
  import opened Decimals
  import opened FormatSpecs
  import opened FormatGrammar
  import opened Wrappers

  // ----- The specs a type admits --------------------------------------------------------------------------

  predicate RefFits(ref: Ref) {
    match ref
    case NoRef => true
    case Index(i) => 0 <= i <= INT_MAX
    case Name(x) => IsArgName(x)
  }

  predicate AlignFits(align: Align, fill: string, t: ArgType) {
    match align
    case NoAlign => fill == " "
    case Numeric => fill == "0" && TakesZero(t)
    case _ => IsFill(fill)
  }

  predicate SignFits(sign: Sign, t: ArgType) {
    !sign.Minus? && (sign.NoSign? || TakesSign(t))
  }

  /** A number or a reference, not both; absent is the default for the number. */
  predicate NumberFits(value: int, absent: int, ref: Ref) {
    RefFits(ref) && absent <= value <= INT_MAX && (ref.NoRef? || value == absent)
  }

  predicate TypeFits(presentation: nat, upper: bool, t: ArgType) {
    (presentation == NONE && !upper) || Admits(presentation, upper, t)
  }

  predicate WellFormed(specs: Specs, t: ArgType) {
    && AlignFits(specs.align, specs.fill, t)
    && SignFits(specs.sign, t)
    && (specs.alt || specs.localized ==> TakesZero(t))
    && NumberFits(specs.width, 0, specs.widthRef)
    && NumberFits(specs.precision, -1, specs.precisionRef)
    && (specs.precision != -1 || !specs.precisionRef.NoRef? ==> TakesPrecision(t))
    && TypeFits(specs.presentation, specs.upper, t)
  }

  // ----- The printer -----------------------------------------------------------------------------------------

  function IdText(ref: Ref): string {
    match ref
    case NoRef => ""
    case Index(i) => IntText(i)
    case Name(x) => x
  }

  function RefText(ref: Ref): string { "{" + IdText(ref) + "}" }

  function NumberText(value: int, absent: int, ref: Ref): string {
    if !ref.NoRef? then RefText(ref) else if value == absent then "" else IntText(value)
  }

  /** The text of the k-th part: align, sign, hash, zero, width, precision, locale, type. */
  function PartText(k: nat, specs: Specs, t: ArgType): string
  {
    match k
    case 1 => if specs.align.NoAlign? || specs.align.Numeric? then "" else specs.fill + [AlignChar(specs.align)]
    case 2 => if specs.sign.NoSign? then "" else if specs.sign.Plus? then "+" else " "
    case 3 => if specs.alt then "#" else ""
    case 4 => if specs.align.Numeric? then "0" else ""
    case 5 => NumberText(specs.width, 0, specs.widthRef)
    case 6 =>
      var x := NumberText(specs.precision, -1, specs.precisionRef);
      if x == "" then "" else "." + x
    case 7 => if specs.localized then "L" else ""
    case 8 => if specs.presentation == NONE then "" else [TypeChar(specs.presentation, specs.upper, t)]
    case _ => ""
  }

  /** The parts from k on. */
  function Tail(k: nat, specs: Specs, t: ArgType): string
    decreases 9 - k
  {
    if k > 8 then "" else PartText(k, specs, t) + Tail(k + 1, specs, t)
  }

  function Print(specs: Specs, t: ArgType): string
  {
    Tail(1, specs, t)
  }

  predicate HasRefs(specs: Specs) { !specs.widthRef.NoRef? || !specs.precisionRef.NoRef? }

  predicate HasIndex(specs: Specs) { specs.widthRef.Index? || specs.precisionRef.Index? }

  // ----- What is printed says the specs ----------------------------------------------------------------------

  /** What the parts before k say. */
  function Before(k: nat, specs: Specs): Specs {
    Specs(
      if k > 8 then specs.presentation else NONE,
      if (k > 1 && !specs.align.Numeric?) || k > 4 then specs.align else NoAlign,
      if k > 2 then specs.sign else NoSign,
      k > 8 && specs.upper,
      k > 3 && specs.alt,
      k > 7 && specs.localized,
      if (k > 1 && !specs.align.Numeric?) || k > 4 then specs.fill else " ",
      if k > 5 then specs.width else 0,
      if k > 5 then specs.widthRef else NoRef,
      if k > 6 then specs.precision else -1,
      if k > 6 then specs.precisionRef else NoRef)
  }

  /** The indexing mode the parts before k leave. */
  function ModeBefore(k: nat, specs: Specs, next: int): int {
    if (k > 5 && !specs.widthRef.NoRef?) || (k > 6 && !specs.precisionRef.NoRef?) then -1 else next
  }

  lemma DecimalIsNumeral(n: nat)
    ensures IsNumeral(Decimal(n)) && Value(Decimal(n)) == n
  {
    ValueOfDecimal(n);
    if n > 0 {
      LeadingDigit(n);
    }
  }

  /** The text of an index or a name is an id. */
  lemma IdTextSays(ref: Ref)
    requires RefFits(ref) && !ref.NoRef?
    ensures IdOf(IdText(ref), ref)
  {
    if ref.Index? {
      DecimalIsNumeral(ref.index);
      hide Decimal, Value;
    }
  }

  lemma RefTextSays(ref: Ref, next: int)
    requires RefFits(ref) && !ref.NoRef? && (ref.Index? ==> next <= 0)
    ensures ReadsRef(RefText(ref), next, ref, -1)
  {
    IdTextSays(ref);
    var id := IdText(ref);
    hide IdText, IdOf;
    assert RefText(ref)[1..|RefText(ref)| - 1] == id;
  }

  lemma NumberSays(n: nat)
    requires n <= INT_MAX
    ensures ReadsNumber(Decimal(n), n)
  {
    DecimalIsNumeral(n);
    if n > 0 {
      DecimalLength(n);
      TenDigits();
      var k: nat := CountDigits(n) - 1;
      Pow10Ascending(if k < 10 then k else 10, k);
    }
  }

  /** What the k-th part does to the indexing mode. */
  function ModeAfter(k: nat, specs: Specs, next: int): int {
    if (k == 5 && !specs.widthRef.NoRef?) || (k == 6 && !specs.precisionRef.NoRef?) then -1 else next
  }

  /** A printed part says what the specs have there. */
  lemma PartSays(k: nat, specs: Specs, t: ArgType, next: int)
    requires 1 <= k <= 8 && WellFormed(specs, t) && PartText(k, specs, t) != ""
    requires (k == 5 && specs.widthRef.Index?) || (k == 6 && specs.precisionRef.Index?) ==> next <= 0
    ensures Says(k, PartText(k, specs, t), t, Before(k, specs), next, Before(k + 1, specs), ModeAfter(k, specs, next))
  {
    hide Says, WellFormed, PartText, Before;
    if k == 5 {
      WidthTextSays(specs, t, next);
    } else if k == 6 {
      PrecisionTextSays(specs, t, next);
    } else {
      MarkTextSays(k, specs, t, next);
    }
  }

  lemma MarkTextSays(k: nat, specs: Specs, t: ArgType, next: int)
    requires 1 <= k <= 8 && k != 5 && k != 6 && WellFormed(specs, t) && PartText(k, specs, t) != ""
    ensures Says(k, PartText(k, specs, t), t, Before(k, specs), next, Before(k + 1, specs), next)
  {
    hide NumberFits, ReadsWidth, ReadsPrecision, NumberText, Admits, TypeChar;
  }

  /** A part that is left out says nothing. */
  lemma NoPart(k: nat, specs: Specs, t: ArgType, next: int)
    requires 1 <= k <= 8 && WellFormed(specs, t) && PartText(k, specs, t) == ""
    ensures Before(k + 1, specs) == Before(k, specs) && ModeAfter(k, specs, next) == next
  {
    hide TakesSign, TakesZero, TakesPrecision;
  }

  lemma WidthTextSays(specs: Specs, t: ArgType, next: int)
    requires WellFormed(specs, t) && (specs.widthRef.Index? ==> next <= 0) && PartText(5, specs, t) != ""
    ensures Says(5, PartText(5, specs, t), t, Before(5, specs), next, Before(6, specs),
                 if specs.widthRef.NoRef? then next else -1)
  {
    hide AlignFits, SignFits, TypeFits;
    if specs.widthRef.NoRef? {
      NumberSays(specs.width);
      LeadingDigit(specs.width);
      hide ReadsNumber, Decimal, ReadsRef;
    } else {
      RefTextSays(specs.widthRef, next);
      hide ReadsNumber, Decimal, ReadsRef, IdText;
    }
  }

  lemma PrecisionTextSays(specs: Specs, t: ArgType, next: int)
    requires WellFormed(specs, t) && (specs.precisionRef.Index? ==> next <= 0) && PartText(6, specs, t) != ""
    ensures Says(6, PartText(6, specs, t), t, Before(6, specs), next, Before(7, specs),
                 if specs.precisionRef.NoRef? then next else -1)
  {
    hide AlignFits, SignFits, TypeFits;
    var x := NumberText(specs.precision, -1, specs.precisionRef);
    assert ("." + x)[1..] == x;
    if specs.precisionRef.NoRef? {
      NumberSays(specs.precision);
      hide ReadsNumber, Decimal, ReadsRef;
    } else {
      RefTextSays(specs.precisionRef, next);
      hide ReadsNumber, Decimal, ReadsRef, IdText;
    }
  }

  lemma {:induction false} TailReads(j: nat, k: nat, specs: Specs, t: ArgType, next: int)
    requires j < k <= 9 && WellFormed(specs, t) && (HasIndex(specs) ==> next <= 0)
    ensures Reads(j, Tail(k, specs, t), t, Before(k, specs), ModeBefore(k, specs, next), specs, ModeBefore(9, specs, next))
    decreases 9 - k
  {
    if k == 9 {
      assert Before(9, specs) == specs;
    } else {
      hide Says, WellFormed, Before, PartText;
      var x, rest, mode := PartText(k, specs, t), Tail(k + 1, specs, t), ModeBefore(k, specs, next);
      if x == "" {
        NoPart(k, specs, t, mode);
        TailReads(j, k + 1, specs, t, next);
        assert x + rest == rest;
      } else {
        PartSays(k, specs, t, mode);
        TailReads(k, k + 1, specs, t, next);
        assert (x + rest)[..|x|] == x && (x + rest)[|x|..] == rest;
      }
    }
  }

  /** The printed text denotes the specs. */
  lemma PrintDenotes(specs: Specs, t: ArgType, next: int)
    requires WellFormed(specs, t) && (HasIndex(specs) ==> next <= 0)
    ensures Denotes(Print(specs, t), t, next, specs, if HasRefs(specs) then -1 else next)
  {
    TailReads(0, 1, specs, t, next);
    assert Before(1, specs) == DEFAULT;
    hide Reads, Tail;
  }

  // ----- The round trip -----------------------------------------------------------------------------------------------

  /** Parsing what was printed stops at the brace with the same specs. */
  lemma ParseUndoesPrint(specs: Specs, t: ArgType, next: int, before: string, rest: string)
    requires WellFormed(specs, t) && (HasIndex(specs) ==> next <= 0)
    ensures ParseSpecs(before + Print(specs, t) + "}" + rest, |before|, next, t)
            == Parsed(|before| + |Print(specs, t)|, specs, if HasRefs(specs) then -1 else next)
  {
    hide Print, WellFormed, ParseSpecs, Denotes;
    PrintDenotes(specs, t, next);
    InTheMiddle(before, Print(specs, t), rest, next, t, specs, if HasRefs(specs) then -1 else next);
  }

  lemma InTheMiddle(before: string, text: string, rest: string, next: int, t: ArgType, specs: Specs, next': int)
    requires Denotes(text, t, next, specs, next')
    ensures ParseSpecs(before + text + "}" + rest, |before|, next, t) == Parsed(|before| + |text|, specs, next')
  {
    hide ParseSpecs, Denotes;
    var s := before + text + "}" + rest;
    assert s[|before|..|before| + |text|] == text;
    SpecsExactly(s, |before|, |before| + |text|, t, next, specs, next');
  }

  // ----- Every parse can be printed ---------------------------------------------------------------------------------

  /** Specs in the middle of a reading: parts later than k are still absent. */
  predicate Partial(k: int, specs: Specs, t: ArgType) {
    && WellFormed(specs, t)
    && (k < 8 ==> specs.presentation == NONE && !specs.upper)
    && (k < 1 ==> specs.align.NoAlign?)
    && (k < 5 ==> specs.width == 0 && specs.widthRef.NoRef?)
    && (k < 6 ==> specs.precision == -1 && specs.precisionRef.NoRef?)
  }

  /** Room for the ids the remaining parts may take automatically. */
  predicate Room(k: int, next: int) {
    -1 <= next && (k < 5 ==> next < INT_MAX) && (k < 6 ==> next <= INT_MAX)
  }

  lemma {:induction false} NumberPositive(digits: string)
    requires IsDigits(digits)
    ensures digits != "" && digits[0] != '0' ==> Value(digits) > 0
  {
    if |digits| > 1 {
      NumberPositive(digits[..|digits| - 1]);
    }
  }

  lemma RefSaysFits(x: string, next: int, ref: Ref, next': int)
    requires ReadsRef(x, next, ref, next') && -1 <= next <= INT_MAX
    ensures RefFits(ref) && !ref.NoRef? && -1 <= next' <= next + 1
  {
    hide Value;
  }

  lemma WidthFits(x: string, t: ArgType, a: Specs, next: int, b: Specs, next': int, k: int)
    requires k < 5 && Partial(k, a, t) && Room(k, next) && Says(5, x, t, a, next, b, next')
    ensures Partial(5, b, t) && Room(5, next')
  {
    hide AlignFits, SignFits, TypeFits, ReadsRef, RefFits;
    if ReadsRef(x, next, b.widthRef, next') {
      RefSaysFits(x, next, b.widthRef, next');
    } else {
      NumberPositive(x);
      hide Value;
    }
    assert RefFits(NoRef);
  }

  lemma PrecisionFits(x: string, t: ArgType, a: Specs, next: int, b: Specs, next': int, k: int)
    requires k < 6 && Partial(k, a, t) && Room(k, next) && Says(6, x, t, a, next, b, next')
    ensures Partial(6, b, t) && Room(6, next')
  {
    hide AlignFits, SignFits, TypeFits, ReadsRef, RefFits, Value;
    if ReadsRef(x[1..], next, b.precisionRef, next') {
      RefSaysFits(x[1..], next, b.precisionRef, next');
    }
    assert RefFits(NoRef);
  }

  lemma MarkFits(m: int, x: string, t: ArgType, a: Specs, b: Specs, k: int)
    requires k < m <= 8 && m != 5 && m != 6 && Partial(k, a, t) && SaysMark(m, x, t, a, b)
    ensures Partial(m, b, t)
  {
    hide NumberFits, TakesSign, TakesZero, TakesPrecision, Admits, TypeChar;
  }

  lemma {:induction false} ReadsFits(k: int, x: string, t: ArgType, a: Specs, next: int, b: Specs, next': int)
    requires 0 <= k <= 8 && Partial(k, a, t) && Room(k, next) && Reads(k, x, t, a, next, b, next')
    ensures WellFormed(b, t)
    decreases |x|
  {
    hide WellFormed, SaysMark, ReadsWidth, ReadsPrecision;
    if x != "" {
      var m: int, n: int, c: Specs, next1: int :| k < m <= 8 && 0 < n <= |x| && Says(m, x[..n], t, a, next, c, next1)
                                                && Reads(m, x[n..], t, c, next1, b, next');
      if m == 5 {
        WidthFits(x[..n], t, a, next, c, next1, k);
      } else if m == 6 {
        PrecisionFits(x[..n], t, a, next, c, next1, k);
      } else {
        MarkFits(m, x[..n], t, a, c, k);
      }
      hide Says, Partial, Reads;
      ReadsFits(m, x[n..], t, c, next1, b, next');
    }
  }

  /** Well-formed specs are exactly what parses yield; printing and parsing them again changes nothing. */
  lemma ParsedCanBePrinted(s: string, pos: nat, next: int, t: ArgType)
    requires pos <= |s| && -1 <= next < INT_MAX && ParseSpecs(s, pos, next, t).Parsed?
    ensures var specs := ParseSpecs(s, pos, next, t).specs;
      WellFormed(specs, t)
      && ParseSpecs(Print(specs, t) + "}", 0, 0, t)
         == Parsed(|Print(specs, t)|, specs, if HasRefs(specs) then -1 else 0)
  {
    hide WellFormed, Print, ParseSpecs, Denotes;
    ParsedSays(s, pos, next, t);
    var r := ParseSpecs(s, pos, next, t);
    DenotedFits(s[pos..r.end], t, next, r.specs, r.next);
    var text := Print(r.specs, t);
    assert "" + text + "}" + "" == text + "}";
    ParseUndoesPrint(r.specs, t, 0, "", "");
  }

  lemma DenotedFits(x: string, t: ArgType, next: int, specs: Specs, next': int)
    requires -1 <= next < INT_MAX && Denotes(x, t, next, specs, next')
    ensures WellFormed(specs, t)
  {
    assert Partial(0, DEFAULT, t);
    hide WellFormed, Partial, Reads;
    ReadsFits(0, x, t, DEFAULT, next, specs, next');
  }
}
