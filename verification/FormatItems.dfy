/**
  What format strings mean, stated without the parser: a format string is spelled by the items it
  asks for, one piece of text for each.  The run-time parser accepts exactly the strings that
  spell some items, and reports those.
 */
module FormatItems {
  import opened Decimals
  import opened FormatSpecs
  import opened FormatGrammar
  import opened FormatPrinter
  import opened FormatStrings
  import opened Wrappers

  // ----- Pieces of a format string -------------------------------------------------------------------

  predicate TakesInteger(t: ArgType) { t.Int? || t.UInt? || t.LongLong? || t.ULongLong? || t.Int128? || t.UInt128? }

  /** A width or precision taken from an argument needs an integer that is there. */
  predicate RefIsInteger(ref: Ref, types: seq<ArgType>) {
    !ref.Name? && (ref.Index? ==> 0 <= ref.index < |types| && TakesInteger(types[ref.index]))
  }

  /** A character shown as a character takes no sign, no "#" and no "0". */
  predicate CharacterFits(specs: Specs, t: ArgType) {
    t != Char || specs.presentation !in {NONE, CHR, DEBUG} || !(specs.align == Numeric || specs.sign != NoSign || specs.alt)
  }

  ghost predicate FieldWithSpecs(x: string, c: int, next: int, id: int, next1: int, specs: Specs, next': int, types: seq<ArgType>)
    requires 0 <= id < |types|
  {
    && 1 <= c < |x| - 1 && x[c] == ':'
    && ReadsId(x[1..c], next, Index(id), next1)
    && Denotes(x[c + 1..|x| - 1], types[id], next1, specs, next')
    && RefIsInteger(specs.widthRef, types) && RefIsInteger(specs.precisionRef, types) && CharacterFits(specs, types[id])
  }

  /** "{" [id] "}" or "{" [id] ":" specs "}", for an argument that is there. */
  ghost predicate IsField(x: string, next: int, id: int, specs: Option<Specs>, next': int, types: seq<ArgType>) {
    && 0 <= id < |types| && |x| >= 2 && x[0] == '{' && x[|x| - 1] == '}'
    && match specs
       case None => ReadsId(x[1..|x| - 1], next, Index(id), next')
       case Some(sp) => exists c, next1 :: FieldWithSpecs(x, c, next, id, next1, sp, next', types)
  }

  /** The text of one item: a character, a doubled brace or a replacement field. */
  ghost predicate IsPiece(x: string, next: int, item: Item, next': int, types: seq<ArgType>) {
    match item
    case Lit(c) => next' == next && x == if c == '{' || c == '}' then [c, c] else [c]
    case Field(id, specs) => IsField(x, next, id, specs, next', types)
    case NamedField(_) => false
  }

  /** The text is made of the pieces of these items. */
  ghost predicate Spells(x: string, next: int, items: seq<Item>, types: seq<ArgType>)
    decreases |items|
  {
    if items == [] then x == ""
    else exists n: int, next1: int ::
      0 < n <= |x| && IsPiece(x[..n], next, items[0], next1, types) && Spells(x[n..], next1, items[1..], types)
  }

  // ----- The parser and the pieces -------------------------------------------------------------------

  lemma ChecksAgree(specs: Specs, t: ArgType, types: seq<ArgType>)
    ensures CharSpecsFit(specs, t) == CharacterFits(specs, t)
    ensures Resolves(specs.widthRef, types) == RefIsInteger(specs.widthRef, types)
    ensures Resolves(specs.precisionRef, types) == RefIsInteger(specs.precisionRef, types)
  {
    assert forall u: ArgType :: IsInteger(u) == TakesInteger(u);
  }

  lemma FieldIdSays(fmt: string, pos: nat, next: int)
    requires pos < |fmt|
    ensures var r := FieldIdAt(fmt, pos, next);
      r.FieldId? && r.end < |fmt| && (fmt[r.end] == '}' || fmt[r.end] == ':') ==>
        ReadsId(fmt[pos..r.end], next, Index(r.id), r.next)
  {
    if fmt[pos] == '}' || fmt[pos] == ':' {
      assert fmt[pos..pos] == "";
    } else if ParseArgId(fmt, pos).Id? {
      IdSays(fmt, pos);
    }
    hide ParseArgId, IdOf;
  }

  lemma FieldIdIsRead(fmt: string, pos: nat, x: string, next: int, id: int, next': int)
    requires ReadsId(x, next, Index(id), next') && Holds(fmt, pos, x)
    requires pos + |x| < |fmt| && (fmt[pos + |x|] == '}' || fmt[pos + |x|] == ':')
    ensures FieldIdAt(fmt, pos, next) == FieldId(id, pos + |x|, next') && fmt[pos] != '{'
  {
    if x != "" {
      IdIsRead(fmt, pos, x, Index(id));
    }
    hide ParseArgId, IdOf, Holds;
  }

  /** Where a string is cut twice. */
  lemma Cut(s: string, a: nat, b: nat, i: nat, j: nat)
    requires a <= b <= |s| && i <= j <= b - a
    ensures s[a..b][i..j] == s[a + i..a + j]
  {
    assert forall k :: 0 <= k < j - i ==> s[a..b][i..j][k] == s[a + i..a + j][k];
  }

  lemma FieldSays(fmt: string, pos: nat, next: int, types: seq<ArgType>)
    requires 1 <= pos < |fmt| && fmt[pos - 1] == '{'
    ensures var r := RuntimeField(fmt, pos, next, types);
      r.Taken? ==> IsPiece(fmt[pos - 1..r.end], next, r.item, r.next, types)
  {
    hide FieldIdAt, ReadsId, SpecsFor, FieldWithSpecs;
    var r := RuntimeField(fmt, pos, next, types);
    if r.Taken? {
      FieldIdSays(fmt, pos, next);
      var id := FieldIdAt(fmt, pos, next);
      assert fmt[r.end - 1] == '}';
      if fmt[id.end] == '}' {
        Cut(fmt, pos - 1, r.end, 1, r.end - pos);
      } else {
        SpecsSay(fmt, pos, id.end, r.end, next, id.id, id.next, r.item.specs.value, r.next, types);
      }
    }
  }

  lemma SpecsSay(fmt: string, pos: nat, colon: nat, end: nat, next: int, id: int, next1: int, specs: Specs, next': int,
                 types: seq<ArgType>)
    requires 1 <= pos <= colon < end - 1 && end <= |fmt| && fmt[colon] == ':' && fmt[end - 1] == '}' && 0 <= id < |types|
    requires ReadsId(fmt[pos..colon], next, Index(id), next1)
    requires SpecsFor(fmt, colon + 1, next1, id, types) == Parsed(end - 1, specs, next')
    ensures FieldWithSpecs(fmt[pos - 1..end], colon - pos + 1, next, id, next1, specs, next', types)
  {
    hide ReadsId, SpecsFor, Denotes, RefIsInteger, CharacterFits;
    var x, c := fmt[pos - 1..end], colon - pos + 1;
    Cut(fmt, pos - 1, end, 1, c);
    Cut(fmt, pos - 1, end, c + 1, |x| - 1);
    assert x[c] == fmt[colon];
    SpecsForSays(fmt, colon + 1, end - 1, next1, id, specs, next', types);
  }

  lemma SpecsForSays(fmt: string, pos: nat, end: nat, next: int, id: int, specs: Specs, next': int, types: seq<ArgType>)
    requires pos <= end < |fmt| && fmt[end] == '}' && 0 <= id < |types|
    ensures SpecsFor(fmt, pos, next, id, types) == Parsed(end, specs, next') <==>
      Denotes(fmt[pos..end], types[id], next, specs, next')
      && RefIsInteger(specs.widthRef, types) && RefIsInteger(specs.precisionRef, types) && CharacterFits(specs, types[id])
  {
    SpecsExactly(fmt, pos, end, types[id], next, specs, next');
    ChecksAgree(specs, types[id], types);
    hide ParseSpecs, Denotes, Resolves, CharSpecsFit, RefIsInteger, CharacterFits;
  }

  lemma FieldIsRead(fmt: string, pos: nat, x: string, next: int, item: Item, next': int, types: seq<ArgType>)
    requires item.Field? && IsPiece(x, next, item, next', types) && Holds(fmt, pos, x)
    ensures |x| >= 2 && fmt[pos] == '{' && fmt[pos + 1] != '{'
    ensures RuntimeField(fmt, pos + 1, next, types) == Taken(item, pos + |x|, next')
  {
    hide FieldIdAt, ReadsId, SpecsFor, FieldWithSpecs, Holds;
    HoldsAt(fmt, pos, x, 0);
    HoldsAt(fmt, pos, x, |x| - 1);
    if item.specs.None? {
      PartHeld(fmt, pos, x, 1, |x| - 1);
      FieldIdIsRead(fmt, pos + 1, x[1..|x| - 1], next, item.id, next');
    } else {
      var c, next1 :| FieldWithSpecs(x, c, next, item.id, next1, item.specs.value, next', types);
      SpecsAreRead(fmt, pos, x, c, next, item.id, next1, item.specs.value, next', types);
    }
  }

  lemma SpecsAreRead(fmt: string, pos: nat, x: string, c: int, next: int, id: int, next1: int, specs: Specs, next': int,
                     types: seq<ArgType>)
    requires 0 <= id < |types| && FieldWithSpecs(x, c, next, id, next1, specs, next', types) && Holds(fmt, pos, x)
    requires x[|x| - 1] == '}'
    ensures 1 <= c < |x| - 1 && pos + |x| <= |fmt| && fmt[pos + c] == ':' && fmt[pos + 1] != '{'
    ensures FieldIdAt(fmt, pos + 1, next) == FieldId(id, pos + c, next1)
    ensures SpecsFor(fmt, pos + c + 1, next1, id, types) == Parsed(pos + |x| - 1, specs, next')
  {
    hide FieldIdAt, ReadsId, SpecsFor, Denotes, RefIsInteger, CharacterFits, Holds;
    HoldsAt(fmt, pos, x, c);
    HoldsAt(fmt, pos, x, |x| - 1);
    PartHeld(fmt, pos, x, 1, c);
    PartHeld(fmt, pos, x, c + 1, |x| - 1);
    FieldIdIsRead(fmt, pos + 1, x[1..c], next, id, next1);
    SpecsForSays(fmt, pos + c + 1, pos + |x| - 1, next1, id, specs, next', types);
  }

  lemma PartHeld(fmt: string, pos: nat, x: string, i: nat, j: nat)
    requires Holds(fmt, pos, x) && i <= j <= |x|
    ensures Holds(fmt, pos + i, x[i..j]) && pos + |x| <= |fmt| && fmt[pos + i..pos + j] == x[i..j]
  {
    Cut(fmt, pos, pos + |x|, i, j);
  }

  // ----- The whole string ----------------------------------------------------------------------------

  lemma SpellsFirst(fmt: string, pos: nat, mid: nat, next: int, next1: int, item: Item, items: seq<Item>, types: seq<ArgType>)
    requires pos < mid <= |fmt| && IsPiece(fmt[pos..mid], next, item, next1, types) && Spells(fmt[mid..], next1, items, types)
    ensures Spells(fmt[pos..], next, [item] + items, types)
  {
    hide IsPiece;
    var x := fmt[pos..];
    assert x[..mid - pos] == fmt[pos..mid] && x[mid - pos..] == fmt[mid..];
    assert ([item] + items)[1..] == items;
  }

  /** The items reported are spelled by the string. */
  lemma {:induction false} ItemsSay(fmt: string, pos: nat, next: int, types: seq<ArgType>)
    requires pos <= |fmt| && Items(fmt, pos, next, types).Some?
    ensures Spells(fmt[pos..], next, Items(fmt, pos, next, types).value, types)
    decreases |fmt| - pos
  {
    hide IsPiece, RuntimeField;
    if pos == |fmt| {
      hide Spells;
      NothingSpells(fmt, pos, next, types);
    } else {
      var item, mid, next1 := Lit(fmt[pos]), pos + 1, next;
      if fmt[pos] == '{' && fmt[pos + 1] != '{' {
        var r := RuntimeField(fmt, pos + 1, next, types);
        item, mid, next1 := r.item, r.end, r.next;
        FieldSays(fmt, pos + 1, next, types);
      } else {
        if fmt[pos] == '{' || fmt[pos] == '}' {
          mid := pos + 2;
        }
        LitSays(fmt, pos, mid, next, types);
      }
      ItemsSay(fmt, mid, next1, types);
      hide Spells;
      SpellsFirst(fmt, pos, mid, next, next1, item, Items(fmt, mid, next1, types).value, types);
    }
  }

  lemma NothingSpells(fmt: string, pos: nat, next: int, types: seq<ArgType>)
    requires pos == |fmt|
    ensures Spells(fmt[pos..], next, [], types)
  {
  }

  lemma LitSays(fmt: string, pos: nat, mid: nat, next: int, types: seq<ArgType>)
    requires pos < mid <= |fmt|
    requires if fmt[pos] == '{' || fmt[pos] == '}' then mid == pos + 2 && fmt[pos + 1] == fmt[pos] else mid == pos + 1
    ensures IsPiece(fmt[pos..mid], next, Lit(fmt[pos]), next, types)
  {
  }

  /** A string that spells items is accepted as those items. */
  lemma {:induction false} SpelledIsRead(fmt: string, pos: nat, next: int, items: seq<Item>, types: seq<ArgType>)
    requires pos <= |fmt| && Spells(fmt[pos..], next, items, types)
    ensures Items(fmt, pos, next, types) == Some(items)
    decreases |items|
  {
    hide IsPiece, RuntimeField;
    if items != [] {
      var x := fmt[pos..];
      var n: int, next1: int :| 0 < n <= |x| && IsPiece(x[..n], next, items[0], next1, types)
                                && Spells(x[n..], next1, items[1..], types);
      assert x[n..] == fmt[pos + n..];
      SpelledIsRead(fmt, pos + n, next1, items[1..], types);
      hide Spells;
      assert items == [items[0]] + items[1..];
      PieceIsRead(fmt, pos, n, next, items[0], next1, types);
    }
  }

  /** One piece at the front is one step of the parser. */
  lemma PieceIsRead(fmt: string, pos: nat, n: nat, next: int, item: Item, next': int, types: seq<ArgType>)
    requires 0 < n && pos + n <= |fmt| && IsPiece(fmt[pos..][..n], next, item, next', types)
    ensures Items(fmt, pos, next, types) == Prepend([item], Items(fmt, pos + n, next', types))
  {
    var x := fmt[pos..][..n];
    assert fmt[pos..pos + n] == x;
    if item.Field? {
      FieldIsRead(fmt, pos, x, next, item, next', types);
      hide IsPiece, RuntimeField;
    } else {
      HoldsAt(fmt, pos, x, 0);
      if n > 1 {
        HoldsAt(fmt, pos, x, 1);
      }
      hide RuntimeField;
    }
  }

  /** The run-time parser accepts exactly the strings that spell some items, and reports these. */
  lemma ItemsExactly(fmt: string, types: seq<ArgType>, items: seq<Item>)
    ensures Items(fmt, 0, 0, types) == Some(items) <==> Spells(fmt, 0, items, types)
  {
    assert fmt[0..] == fmt;
    if Items(fmt, 0, 0, types).Some? {
      ItemsSay(fmt, 0, 0, types);
    }
    if Spells(fmt, 0, items, types) {
      SpelledIsRead(fmt, 0, 0, items, types);
    }
    hide Items, Spells;
  }

  // ----- Printed fields ------------------------------------------------------------------------------

  function FieldText(n: nat, specs: Option<Specs>, t: ArgType): string {
    match specs
    case None => "{" + Decimal(n) + "}"
    case Some(sp) => "{" + Decimal(n) + ":" + Print(sp, t) + "}"
  }

  /** A field with an explicit number, with or without printed specs, is read as that field
      wherever it stands, and the mode is manual behind it. */
  lemma PrintedFieldIsRead(n: nat, specs: Option<Specs>, before: string, rest: string, next: int, types: seq<ArgType>)
    requires n < |types| && n <= INT_MAX && next <= 0
    requires specs.Some? ==>
      && WellFormed(specs.value, types[n]) && CharacterFits(specs.value, types[n])
      && RefIsInteger(specs.value.widthRef, types) && RefIsInteger(specs.value.precisionRef, types)
    ensures var field := FieldText(n, specs, types[n]); var fmt := before + field + rest;
      Items(fmt, |before|, next, types) == Prepend([Field(n, specs)], Items(fmt, |before| + |field|, -1, types))
  {
    hide FieldText, Items, WellFormed, CharacterFits, RefIsInteger, IsPiece;
    var field := FieldText(n, specs, types[n]);
    if specs.None? {
      PlainFieldSays(n, next, types);
    } else {
      SpecsFieldSays(n, specs.value, next, types);
    }
    FieldIsNotEmpty(n, specs, types[n]);
    Middle(before, field, rest);
    PieceIsRead(before + field + rest, |before|, |field|, next, Field(n, specs), -1, types);
  }

  lemma Middle(before: string, x: string, rest: string)
    ensures (before + x + rest)[|before|..][..|x|] == x
  {
  }

  lemma FieldIsNotEmpty(n: nat, specs: Option<Specs>, t: ArgType)
    ensures FieldText(n, specs, t) != ""
  {
  }

  lemma PlainFieldSays(n: nat, next: int, types: seq<ArgType>)
    requires n < |types| && n <= INT_MAX && next <= 0
    ensures IsPiece(FieldText(n, None, types[n]), next, Field(n, None), -1, types)
  {
    var x := FieldText(n, None, types[n]);
    DecimalIsNumeral(n);
    assert x[1..|x| - 1] == Decimal(n);
    hide Decimal, Value, IsNumeral;
  }

  lemma SpecsFieldSays(n: nat, specs: Specs, next: int, types: seq<ArgType>)
    requires n < |types| && n <= INT_MAX && next <= 0
    requires WellFormed(specs, types[n]) && CharacterFits(specs, types[n])
    requires RefIsInteger(specs.widthRef, types) && RefIsInteger(specs.precisionRef, types)
    ensures IsPiece(FieldText(n, Some(specs), types[n]), next, Field(n, Some(specs)), -1, types)
  {
    hide Decimal, Value, IsNumeral, Print, WellFormed, Denotes, RefIsInteger, CharacterFits, FieldWithSpecs;
    DecimalIsNumeral(n);
    PrintDenotes(specs, types[n], -1);
    JoinedField(Decimal(n), Print(specs, types[n]), next, n, specs, types);
  }

  lemma JoinedField(digits: string, text: string, next: int, id: int, specs: Specs, types: seq<ArgType>)
    requires 0 <= id < |types| && ReadsId(digits, next, Index(id), -1) && Denotes(text, types[id], -1, specs, -1)
    requires RefIsInteger(specs.widthRef, types) && RefIsInteger(specs.precisionRef, types) && CharacterFits(specs, types[id])
    ensures var x := "{" + digits + ":" + text + "}";
      FieldWithSpecs(x, |digits| + 1, next, id, -1, specs, -1, types) && x[0] == '{' && x[|x| - 1] == '}'
  {
    hide ReadsId, Denotes, RefIsInteger, CharacterFits;
    var x, c := "{" + digits + ":" + text + "}", |digits| + 1;
    assert x[c] == ':' && x[1..c] == digits && x[c + 1..|x| - 1] == text;
  }
}
