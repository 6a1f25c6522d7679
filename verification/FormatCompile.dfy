/**
  The format string compiler: mutually recursive functions that build a tree of text and
  replacement fields.  What the tree emits is what the run-time parser reports, on every
  string the parser accepts; the compiler accepts more, and exactly where is said here.
 */
module FormatCompile {
  import opened FormatSpecs
  import opened FormatStrings
  import opened Wrappers

  const MANUAL: int := -1

  datatype Tree =
    | Text(text: string)
    | CodeUnit(unit: char)
    | FieldNode(index: int)
    | SpecField(index: int, specs: Specs)
    | RuntimeNamedField(name: string)
    | Concat(lhs: Tree, rhs: Tree)

  /** What formatting the tree writes, from left to right. */
  function Emit(tree: Tree): seq<Item> {
    match tree
    case Text(text) => Lits(text)
    case CodeUnit(unit) => [Lit(unit)]
    case FieldNode(index) => [Field(index, None)]
    case SpecField(index, specs) => [Field(index, Some(specs))]
    case RuntimeNamedField(name) => [NamedField(name)]
    case Concat(lhs, rhs) => Emit(lhs) + Emit(rhs)
  }

  /** A failed check or a thrown error, unknown_format, or a tree. */
  datatype Compiled = Error | Unknown | Compiled(tree: Tree)

  // ----- The compiler's readers ----------------------------------------------------------------------------------

  /** parse_text: the end of the text without braces from pos on. */
  function TextEnd(fmt: string, pos: nat): (e: nat)
    requires pos <= |fmt|
    ensures pos <= e <= |fmt| && forall i :: pos <= i < e ==> fmt[i] != '{' && fmt[i] != '}'
    ensures e < |fmt| ==> fmt[e] == '{' || fmt[e] == '}'
    decreases |fmt| - pos
  {
    if pos == |fmt| || fmt[pos] == '{' || fmt[pos] == '}' then pos else TextEnd(fmt, pos + 1)
  }

  method ParseText(fmt: string, begin: nat) returns (pos: nat)
    requires begin <= |fmt|
    ensures pos == TextEnd(fmt, begin)
  {
    pos := begin;
    while pos != |fmt|
      invariant begin <= pos <= |fmt| && TextEnd(fmt, begin) == TextEnd(fmt, pos)
      decreases |fmt| - pos
    {
      if fmt[pos] == '{' || fmt[pos] == '}' {
        break;
      }
      pos := pos + 1;
    }
  }

  datatype Head = BadHead | Indexed(index: nat, end: nat, nextId: int) | Named(name: string, end: nat)

  /** Behind a "{": an automatic or an explicit id, and the indexing mode after it. */
  function HeadAt(fmt: string, pos: nat, id: int, types: seq<ArgType>): (r: Head)
    requires pos < |fmt|
    ensures !r.BadHead? ==> pos <= r.end < |fmt|
    ensures r.Indexed? ==> r.index < |types| && (fmt[r.end] == '}' || fmt[r.end] == ':')
  {
    if fmt[pos] == '}' || fmt[pos] == ':' then
      if id == MANUAL || !(0 <= id < |types|) then BadHead else Indexed(id, pos, id + 1)
    else
      match ParseArgId(fmt, pos)
      case BadId => BadHead
      case Id(ref, end) =>
        if end == |fmt| || (fmt[end] != '}' && fmt[end] != ':') then BadHead
        else if ref.Name? then Named(ref.name, end)
        else if (id != MANUAL && id != 0) || !ref.Index? || !(0 <= ref.index < |types|) then BadHead
        else Indexed(ref.index, end, MANUAL)
  }

  predicate IdBelowMax(ref: Ref) { ref.Index? ==> ref.index < INT_MAX }

  /** parse_specs: the formatter's parse in a context of its own. */
  function CompileSpecs(fmt: string, pos: nat, next: int, t: ArgType): (r: Parse)
    requires pos <= |fmt|
    ensures r.Parsed? ==> pos <= r.end <= |fmt|
  {
    match (if pos == |fmt| || fmt[pos] == '}' then Parsed(pos, DEFAULT, next) else ParseSpecs(fmt, pos, next, t))
    case Bad => Bad
    case Parsed(end, specs, next') =>
      if !CharSpecsFit(specs, t) || !IdBelowMax(specs.widthRef) || !IdBelowMax(specs.precisionRef) then Bad
      else if next == 0 then Parsed(end, specs, MANUAL)
      else if 0 <= next' < INT_MAX then Parsed(end, specs, next')
      else Bad
  }

  method RunCompileSpecs(fmt: string, pos: nat, nextArgId: int, t: ArgType) returns (r: Parse)
    requires pos <= |fmt|
    ensures r == CompileSpecs(fmt, pos, nextArgId, t)
  {
    var ctx := new ParseContext(nextArgId);
    var end, specs := pos, DEFAULT;
    if pos < |fmt| && fmt[pos] != '}' {
      var parsed := RunParseSpecs(fmt, pos, ctx, t);
      if parsed.Bad? {
        return Bad;
      }
      end, specs := parsed.end, parsed.specs;
    }
    if !CharSpecsFit(specs, t) || !IdBelowMax(specs.widthRef) || !IdBelowMax(specs.precisionRef) {
      return Bad;
    }
    if nextArgId == 0 {
      return Parsed(end, specs, MANUAL);
    }
    var id := ctx.NextArgId();
    if id.None? || id.value >= INT_MAX {
      return Bad;
    }
    r := Parsed(end, specs, id.value);
  }

  // ----- The compiler ------------------------------------------------------------------------------------------------

  /** compile_format_string at a position inside the string. */
  function Compile(fmt: string, pos: nat, id: int, types: seq<ArgType>): Compiled
    requires pos < |fmt|
    decreases |fmt| - pos, 0
  {
    if fmt[pos] == '{' then
      if pos + 1 == |fmt| then Error
      else if fmt[pos + 1] == '{' then ParseTail(Text(fmt[pos..pos + 1]), fmt, pos + 2, id, types)
      else
        match HeadAt(fmt, pos + 1, id, types)
        case BadHead => Error
        case Indexed(index, end, nextId) => ParseReplacementFieldThenTail(fmt, end, index, nextId, types)
        case Named(name, end) =>
          if fmt[end] == '}' then ParseTail(RuntimeNamedField(name), fmt, end + 1, id, types) else Unknown
    else if fmt[pos] == '}' then
      if pos + 1 == |fmt| then Error
      else ParseTail(Text(fmt[pos..pos + 1]), fmt, pos + 2, id, types)
    else
      var end := TextEnd(fmt, pos + 1);
      ParseTail(if end - pos > 1 then Text(fmt[pos..end]) else CodeUnit(fmt[pos]), fmt, end, id, types)
  }

  function ParseTail(head: Tree, fmt: string, pos: nat, id: int, types: seq<ArgType>): Compiled
    requires pos <= |fmt|
    decreases |fmt| - pos, 1
  {
    if pos == |fmt| then Compiled(head)
    else match Compile(fmt, pos, id, types)
      case Error => Error
      case Unknown => Unknown
      case Compiled(tail) => Compiled(Concat(head, tail))
  }

  function ParseReplacementFieldThenTail(
      fmt: string, end: nat, index: nat, nextId: int, types: seq<ArgType>): Compiled
    requires end < |fmt| && index < |types|
    decreases |fmt| - end, 2
  {
    if fmt[end] == '}' then ParseTail(FieldNode(index), fmt, end + 1, nextId, types)
    else if fmt[end] != ':' then Error
    else match CompileSpecs(fmt, end + 1, if nextId == MANUAL then 0 else nextId, types[index])
      case Bad => Error
      case Parsed(end', specs, next) =>
        if end' >= |fmt| || fmt[end'] != '}' then Error
        else ParseTail(SpecField(index, specs), fmt, end' + 1, next, types)
  }

  /** compile: the empty string is an empty text. */
  function CompileFormat(fmt: string, types: seq<ArgType>): Compiled {
    if fmt == "" then Compiled(Text("")) else Compile(fmt, 0, 0, types)
  }

  // ----- Specs read in the two indexing modes ---------------------------------------------------------------------

  /** How dynamic specs move the context in each mode. */
  lemma DynamicModes(s: string, pos: nat, next: int)
    requires pos < |s|
    ensures var r := ParseDynamic(s, pos, next);
      r.Argument? ==>
        && (next >= 1 ==> r.ref.Name? || (r.ref == Index(next) && r.next == next + 1))
        && (next == MANUAL ==> r.next == MANUAL)
    ensures var m, z := ParseDynamic(s, pos, MANUAL), ParseDynamic(s, pos, 0);
      m == z || (m.BadDynamic? && z.Argument? && z.ref == Index(0) && z.next == 1)
  {
    hide DigitsEnd, NumberOf, NameEnd;
  }

  /** Once a part is behind, later turns do not change it. */
  lemma {:induction false} LaterKeeps(s: string, pos: nat, c: char, state: nat, specs: Specs, next: int, t: ArgType, r: Parse)
    requires pos < |s| && state >= 5 && r == ParseFrom(s, pos, c, state, specs, next, t) && r.Parsed?
    ensures r.specs.widthRef == specs.widthRef
    ensures state >= 6 ==> r.specs.precisionRef == specs.precisionRef && r.next == next
    decreases |s| - pos
  {
    hide ParseDynamic, Presentation, IsTypeChar, ToAscii;
    var turn := TakeTurn(s, pos, c, state, specs, next, t);
    if turn.More? {
      assert turn.specs.widthRef == specs.widthRef;
      assert state >= 6 ==> turn.specs.precisionRef == specs.precisionRef && turn.next == next;
      if turn.pos < |s| {
        hide TakeTurn;
        LaterKeeps(s, turn.pos, ToAscii(s[turn.pos]), turn.state, turn.specs, turn.next, t, r);
      }
    }
  }

  /** A turn that took the next id, or a name, and into which part. */
  predicate TookIndex(turn: Turn, next: int) {
    turn.More? && turn.next == next + 1
    && ((turn.state == 5 && turn.specs.widthRef == Index(next)) || (turn.state == 6 && turn.specs.precisionRef == Index(next)))
  }

  predicate TookName(turn: Turn) {
    turn.More? && ((turn.state == 5 && turn.specs.widthRef.Name?) || (turn.state == 6 && turn.specs.precisionRef.Name?))
  }

  lemma TurnNext(s: string, pos: nat, c: char, state: nat, specs: Specs, next: int, t: ArgType, turn: Turn)
    requires pos < |s| && turn == TakeTurn(s, pos, c, state, specs, next, t) && turn.More?
    ensures next == MANUAL ==> turn.next == MANUAL
    ensures next >= 1 ==> turn.next == next || TookIndex(turn, next) || TookName(turn)
  {
    DynamicModes(s, pos, next);
    if pos + 1 < |s| {
      DynamicModes(s, pos + 1, next);
    }
    hide ParseDynamic, Presentation, IsTypeChar, ToAscii;
  }

  predicate NoNames(specs: Specs) { !specs.widthRef.Name? && !specs.precisionRef.Name? }

  predicate RefsBelow(specs: Specs, n: int) {
    (specs.widthRef.Index? ==> specs.widthRef.index < n) && (specs.precisionRef.Index? ==> specs.precisionRef.index < n)
  }

  /** Without names, manual stays manual and the automatic counter passes the ids taken. */
  lemma {:induction false} FromNext(
      s: string, pos: nat, c: char, state: nat, specs: Specs, next: int, t: ArgType, r: Parse, n: int)
    requires pos < |s| && r == ParseFrom(s, pos, c, state, specs, next, t) && r.Parsed? && NoNames(r.specs)
    ensures next == MANUAL ==> r.next == MANUAL
    ensures next >= 1 ==> next <= r.next
    ensures 1 <= next <= n && RefsBelow(r.specs, n) ==> r.next <= n
    decreases |s| - pos
  {
    var turn := TakeTurn(s, pos, c, state, specs, next, t);
    if turn.More? {
      TurnNext(s, pos, c, state, specs, next, t, turn);
      hide TakeTurn, ToAscii;
      if turn.pos < |s| {
        FromNext(s, turn.pos, ToAscii(s[turn.pos]), turn.state, turn.specs, turn.next, t, r, n);
        if turn.state >= 5 {
          LaterKeeps(s, turn.pos, ToAscii(s[turn.pos]), turn.state, turn.specs, turn.next, t, r);
        }
      }
    }
  }

  /** Turns in manual mode and before any id is taken: the same, unless the latter takes one. */
  predicate TurnsAgree(m: Turn, z: Turn) {
    m == z || (m.More? && m.next == MANUAL && z == m.(next := 0)) || (m.Fail? && TookIndex(z, 0))
  }

  lemma NumberModes(s: string, pos: nat, specs: Specs)
    requires pos < |s|
    ensures TurnsAgree(ParseWidth(s, pos, specs, MANUAL), ParseWidth(s, pos, specs, 0))
    ensures TurnsAgree(ParsePrecision(s, pos, specs, MANUAL), ParsePrecision(s, pos, specs, 0))
  {
    DynamicModes(s, pos, MANUAL);
    if pos + 1 < |s| {
      DynamicModes(s, pos + 1, MANUAL);
    }
    hide ParseDynamic;
  }

  lemma FillModes(s: string, pos: nat, state: nat, specs: Specs)
    requires pos < |s|
    ensures TurnsAgree(ParseFill(s, pos, state, specs, MANUAL), ParseFill(s, pos, state, specs, 0))
  {
  }

  lemma TurnModes(s: string, pos: nat, c: char, state: nat, specs: Specs, t: ArgType)
    requires pos < |s|
    ensures TurnsAgree(TakeTurn(s, pos, c, state, specs, MANUAL, t), TakeTurn(s, pos, c, state, specs, 0, t))
  {
    hide ParseWidth, ParsePrecision, ParseFill, Presentation, IsTypeChar, ParseAlign, IsSigned, IsFloat, IsText, IsArithmetic, TookIndex;
    if '1' <= c <= '9' || c == '{' || c == '.' {
      NumberModes(s, pos, specs);
    } else {
      FillModes(s, pos, state, specs);
    }
  }

  /** Both modes give the same specs, unless an id is taken automatically. */
  lemma {:induction false} FromModes(
      s: string, pos: nat, c: char, state: nat, specs: Specs, t: ArgType, m: Parse, z: Parse)
    requires pos < |s| && m == ParseFrom(s, pos, c, state, specs, MANUAL, t) && z == ParseFrom(s, pos, c, state, specs, 0, t)
    ensures m.Parsed? ==> z == m || z == m.(next := 0)
    ensures z.Parsed? && NoNames(z.specs) && z.next <= 0 ==> m == z.(next := MANUAL)
    decreases |s| - pos
  {
    var tm, tz := TakeTurn(s, pos, c, state, specs, MANUAL, t), TakeTurn(s, pos, c, state, specs, 0, t);
    TurnModes(s, pos, c, state, specs, t);
    if tm.More? {
      TurnNext(s, pos, c, state, specs, MANUAL, t, tm);
    }
    hide TakeTurn, ToAscii;
    if tz.More? && tz.pos < |s| {
      var c' := ToAscii(s[tz.pos]);
      if tm.More? && tz.next == 0 {
        FromModes(s, tz.pos, c', tz.state, tz.specs, t, m, z);
      } else if z.Parsed? && NoNames(z.specs) {
        FromNext(s, tz.pos, c', tz.state, tz.specs, tz.next, t, z, 0);
      }
    }
  }

  // ----- Where the compiler accepts more ------------------------------------------------------------------------------

  /** Specs that only the compiler takes: a dynamic argument that is not there or no integer,
      or an automatic id inside a field with an explicit one. */
  predicate SpecsLax(fmt: string, pos: nat, nextId: int, t: ArgType, specs: Specs, types: seq<ArgType>)
    requires pos <= |fmt|
  {
    !Resolves(specs.widthRef, types) || !Resolves(specs.precisionRef, types)
    || (nextId == MANUAL && ParseSpecs(fmt, pos, 0, t).Parsed? && ParseSpecs(fmt, pos, 0, t).next > 0)
  }

  /** From pos on the compiler meets something only it takes: such specs, a named field, or
      a "}" that no second one follows. */
  predicate Lax(fmt: string, pos: nat, id: int, types: seq<ArgType>)
    requires pos <= |fmt|
    decreases |fmt| - pos
  {
    if pos == |fmt| then false
    else if fmt[pos] == '{' then
      if pos + 1 == |fmt| then false
      else if fmt[pos + 1] == '{' then Lax(fmt, pos + 2, id, types)
      else
        match HeadAt(fmt, pos + 1, id, types)
        case BadHead => false
        case Named(_, _) => true
        case Indexed(index, end, nextId) => FieldLax(fmt, end, index, nextId, types)
    else if fmt[pos] == '}' then
      pos + 1 < |fmt| && (fmt[pos + 1] != '}' || Lax(fmt, pos + 2, id, types))
    else Lax(fmt, TextEnd(fmt, pos + 1), id, types)
  }

  predicate FieldLax(fmt: string, end: nat, index: nat, nextId: int, types: seq<ArgType>)
    requires end < |fmt| && index < |types|
    decreases |fmt| - end
  {
    if fmt[end] == '}' then Lax(fmt, end + 1, nextId, types)
    else if fmt[end] != ':' then false
    else match CompileSpecs(fmt, end + 1, if nextId == MANUAL then 0 else nextId, types[index])
      case Bad => false
      case Parsed(end', specs, next) =>
        end' < |fmt| && fmt[end'] == '}'
        && (SpecsLax(fmt, end + 1, nextId, types[index], specs, types) || Lax(fmt, end' + 1, next, types))
  }

  // ----- The two readers of a field agree --------------------------------------------------------------------------------

  lemma EmptySpecs(fmt: string, pos: nat, next: int, t: ArgType)
    requires pos <= |fmt| && (pos == |fmt| || fmt[pos] == '}')
    ensures ParseSpecs(fmt, pos, next, t) == Parsed(pos, DEFAULT, next)
  {
    hide ParseWidth, ParsePrecision, Presentation;
  }

  /** The modes of ParseSpecs, from those of its loop. */
  lemma SpecsModes(fmt: string, pos: nat, next: int, t: ArgType, n: int)
    requires pos <= |fmt| && ParseSpecs(fmt, pos, next, t).Parsed? && NoNames(ParseSpecs(fmt, pos, next, t).specs)
    ensures var r := ParseSpecs(fmt, pos, next, t);
      && (next == MANUAL ==> r.next == MANUAL)
      && (1 <= next <= n && RefsBelow(r.specs, n) ==> next <= r.next <= n)
    ensures next == MANUAL ==>
      var r, z := ParseSpecs(fmt, pos, next, t), ParseSpecs(fmt, pos, 0, t);
      z == r || z == r.(next := 0)
    ensures next == 0 && ParseSpecs(fmt, pos, 0, t).next <= 0 ==>
      ParseSpecs(fmt, pos, MANUAL, t) == ParseSpecs(fmt, pos, 0, t).(next := MANUAL)
  {
    hide ParseFrom, FirstChar;
    if pos < |fmt| {
      var c := FirstChar(fmt, pos);
      FromNext(fmt, pos, c, 0, DEFAULT, next, t, ParseSpecs(fmt, pos, next, t), n);
      if next == MANUAL || next == 0 {
        ModesMeet(fmt, pos, c, t);
      }
    }
  }

  lemma ModesMeet(fmt: string, pos: nat, c: char, t: ArgType)
    requires pos < |fmt|
    ensures var m, z := ParseFrom(fmt, pos, c, 0, DEFAULT, MANUAL, t), ParseFrom(fmt, pos, c, 0, DEFAULT, 0, t);
      && (m.Parsed? ==> z == m || z == m.(next := 0))
      && (z.Parsed? && NoNames(z.specs) && z.next <= 0 ==> m == z.(next := MANUAL))
  {
    FromModes(fmt, pos, c, 0, DEFAULT, t, ParseFrom(fmt, pos, c, 0, DEFAULT, MANUAL, t), ParseFrom(fmt, pos, c, 0, DEFAULT, 0, t));
  }

  /** A field's specs are read alike, unless only the compiler takes them. */
  lemma SpecsAgree(fmt: string, pos: nat, next: int, index: nat, types: seq<ArgType>)
    requires pos <= |fmt| && index < |types| < INT_MAX && (next == MANUAL || 1 <= next <= |types|)
    ensures var r := SpecsFor(fmt, pos, next, index, types);
      var k := CompileSpecs(fmt, pos, if next == MANUAL then 0 else next, types[index]);
      && (r.Parsed? ==> k == r && (next == MANUAL ==> r.next == MANUAL) && (next > 0 ==> 1 <= r.next <= |types|))
      && (k.Parsed? ==> (r.Parsed? <==> !SpecsLax(fmt, pos, next, types[index], k.specs, types)))
  {
    var t := types[index];
    var n := if next == MANUAL then 0 else next;
    if pos == |fmt| || fmt[pos] == '}' {
      EmptySpecs(fmt, pos, n, t);
      EmptySpecs(fmt, pos, next, t);
    }
    var r := ParseSpecs(fmt, pos, next, t);
    if r.Parsed? && NoNames(r.specs) {
      SpecsModes(fmt, pos, next, t, |types|);
    }
    var z := ParseSpecs(fmt, pos, n, t);
    if z.Parsed? && NoNames(z.specs) {
      SpecsModes(fmt, pos, n, t, |types|);
    }
    hide ParseSpecs, CharSpecsFit;
  }

  /** The id of a field is read alike. */
  lemma HeadAgrees(fmt: string, pos: nat, next: int, types: seq<ArgType>)
    requires pos < |fmt| && next >= MANUAL
    ensures match HeadAt(fmt, pos, next, types)
      case Indexed(index, end, nextId) => FieldIdAt(fmt, pos, next) == FieldId(index, end, nextId)
      case _ => var f := FieldIdAt(fmt, pos, next); f.FieldId? ==> !(0 <= f.id < |types|)
    ensures var h := HeadAt(fmt, pos, next, types);
      h.Indexed? ==> h.nextId == MANUAL || (next >= 0 && h.nextId == next + 1 && next < |types|)
  {
    hide NumberOf, DigitsEnd, NameEnd;
  }

  // ----- The theorem -----------------------------------------------------------------------------------------------------

  /** The compiler emits what the parser reports, and lax steps are all that separates them. */
  ghost predicate Agree(compiled: Compiled, items: Option<seq<Item>>, lax: bool) {
    && (items.Some? ==> compiled.Compiled? && Emit(compiled.tree) == items.value && !lax)
    && (compiled.Compiled? && !lax ==> items.Some?)
  }

  /** The mode the two readers share. */
  predicate InMode(next: int, types: seq<ArgType>) { MANUAL <= next <= |types| < INT_MAX }

  lemma {:induction false} TextAgrees(fmt: string, pos: nat, next: int, types: seq<ArgType>)
    requires pos <= |fmt|
    ensures Items(fmt, pos, next, types)
            == Prepend(Lits(fmt[pos..TextEnd(fmt, pos)]), Items(fmt, TextEnd(fmt, pos), next, types))
    decreases |fmt| - pos
  {
    var end := TextEnd(fmt, pos);
    if end == pos {
      assert Lits(fmt[pos..end]) == [];
      PrependNothing(Items(fmt, pos, next, types));
    } else {
      TextAgrees(fmt, pos + 1, next, types);
      PrependTwice([Lit(fmt[pos])], Lits(fmt[pos + 1..end]), Items(fmt, end, next, types));
      assert Lits(fmt[pos..end]) == [Lit(fmt[pos])] + Lits(fmt[pos + 1..end]);
    }
  }

  lemma {:induction false} TailAgrees(head: Tree, fmt: string, pos: nat, next: int, types: seq<ArgType>)
    requires pos <= |fmt| && InMode(next, types)
    ensures Agree(ParseTail(head, fmt, pos, next, types), Prepend(Emit(head), Items(fmt, pos, next, types)),
                  Lax(fmt, pos, next, types))
    decreases |fmt| - pos, 2
  {
    hide Compile, Items, Lax;
    if pos == |fmt| {
      AtEnd(fmt, next, types);
      assert Emit(head) + [] == Emit(head);
    } else {
      CompileAgrees(fmt, pos, next, types);
    }
  }

  lemma AtEnd(fmt: string, next: int, types: seq<ArgType>)
    ensures Items(fmt, |fmt|, next, types) == Some([]) && !Lax(fmt, |fmt|, next, types)
  {
  }

  /** Reading on behind an id, in the words of the run-time parser. */
  function FieldRest(fmt: string, end: nat, index: nat, nextId: int, types: seq<ArgType>): Option<seq<Item>>
    requires end < |fmt| && index < |types|
  {
    if fmt[end] == '}' then Prepend([Field(index, None)], Items(fmt, end + 1, nextId, types))
    else if fmt[end] != ':' then None
    else match SpecsFor(fmt, end + 1, nextId, index, types)
      case Bad => None
      case Parsed(end', specs, next) =>
        if end' == |fmt| || fmt[end'] != '}' then None
        else Prepend([Field(index, Some(specs))], Items(fmt, end' + 1, next, types))
  }

  lemma ItemsOfField(fmt: string, pos: nat, next: int, types: seq<ArgType>)
    requires pos + 1 < |fmt| && fmt[pos] == '{' && fmt[pos + 1] != '{'
    ensures Items(fmt, pos, next, types) ==
      match FieldIdAt(fmt, pos + 1, next)
      case NoId => None
      case FieldId(id, end, next') =>
        if end == |fmt| || !(0 <= id < |types|) then None else FieldRest(fmt, end, id, next', types)
  {
    hide SpecsFor, FieldIdAt;
  }

  lemma {:induction false} SpecsAgreeOn(fmt: string, end: nat, index: nat, nextId: int, types: seq<ArgType>)
    requires end < |fmt| && fmt[end] == ':' && index < |types| && InMode(nextId, types) && nextId != 0
    ensures Agree(ParseReplacementFieldThenTail(fmt, end, index, nextId, types),
                  FieldRest(fmt, end, index, nextId, types), FieldLax(fmt, end, index, nextId, types))
    decreases |fmt| - end, 0
  {
    hide SpecsFor, CompileSpecs, SpecsLax, Items, Lax, ParseTail;
    SpecsAgree(fmt, end + 1, nextId, index, types);
    var k := CompileSpecs(fmt, end + 1, if nextId == MANUAL then 0 else nextId, types[index]);
    if k.Parsed? && k.end < |fmt| && fmt[k.end] == '}' && SpecsFor(fmt, end + 1, nextId, index, types).Parsed? {
      assert Emit(SpecField(index, k.specs)) == [Field(index, Some(k.specs))];
      hide Agree, Emit, Prepend;
      TailAgrees(SpecField(index, k.specs), fmt, k.end + 1, k.next, types);
    }
  }

  lemma {:induction false} FieldAgrees(fmt: string, pos: nat, next: int, types: seq<ArgType>)
    requires pos + 1 < |fmt| && fmt[pos] == '{' && fmt[pos + 1] != '{' && InMode(next, types)
    ensures Agree(Compile(fmt, pos, next, types), Items(fmt, pos, next, types), Lax(fmt, pos, next, types))
    decreases |fmt| - pos, 0
  {
    HeadAgrees(fmt, pos + 1, next, types);
    ItemsOfField(fmt, pos, next, types);
    hide FieldIdAt, HeadAt, Items;
    var head := HeadAt(fmt, pos + 1, next, types);
    if head.Indexed? {
      if fmt[head.end] == '}' {
        TailAgrees(FieldNode(head.index), fmt, head.end + 1, head.nextId, types);
      } else {
        SpecsAgreeOn(fmt, head.end, head.index, head.nextId, types);
      }
    }
  }

  lemma {:induction false} CompileAgrees(fmt: string, pos: nat, next: int, types: seq<ArgType>)
    requires pos < |fmt| && InMode(next, types)
    ensures Agree(Compile(fmt, pos, next, types), Items(fmt, pos, next, types), Lax(fmt, pos, next, types))
    decreases |fmt| - pos, 1
  {
    if fmt[pos] == '{' || fmt[pos] == '}' {
      if pos + 1 < |fmt| {
        assert Lits(fmt[pos..pos + 1]) == [Lit(fmt[pos])];
        if fmt[pos + 1] == fmt[pos] || fmt[pos] == '}' {
          TailAgrees(Text(fmt[pos..pos + 1]), fmt, pos + 2, next, types);
        } else {
          FieldAgrees(fmt, pos, next, types);
        }
      }
    } else {
      TextAgrees(fmt, pos, next, types);
      var end := TextEnd(fmt, pos + 1);
      assert end == TextEnd(fmt, pos);
      assert Lits(fmt[pos..end]) == if end - pos > 1 then Lits(fmt[pos..end]) else [Lit(fmt[pos])];
      TailAgrees(if end - pos > 1 then Text(fmt[pos..end]) else CodeUnit(fmt[pos]), fmt, end, next, types);
    }
  }

  /** Every string the run-time parser accepts compiles to a tree that emits the same items. */
  lemma CompilerKeepsMeaning(fmt: string, types: seq<ArgType>)
    requires |types| < INT_MAX && Items(fmt, 0, 0, types).Some?
    ensures CompileFormat(fmt, types).Compiled?
    ensures Emit(CompileFormat(fmt, types).tree) == Items(fmt, 0, 0, types).value
  {
    if fmt != "" {
      CompileAgrees(fmt, 0, 0, types);
    }
  }

  /** The parser accepts exactly the strings that compile without a lax step. */
  lemma AcceptedExactly(fmt: string, types: seq<ArgType>)
    requires |types| < INT_MAX
    ensures Items(fmt, 0, 0, types).Some? <==> CompileFormat(fmt, types).Compiled? && !Lax(fmt, 0, 0, types)
  {
    if fmt != "" {
      CompileAgrees(fmt, 0, 0, types);
    }
  }

  /** A lone "}" swallows the next character: "}x" compiles, and is rejected at run time. */
  lemma LoneBrace()
    ensures CompileFormat("}x", []) == Compiled(Text("}")) && Items("}x", 0, 0, []) == None
  {
    assert "}x"[0..1] == "}";
  }

  /** An automatic width inside a field with an explicit id: "{0:{}}" compiles only. */
  lemma AutomaticInManual()
    ensures CompileFormat("{0:{}}", [Int]) == Compiled(SpecField(0, DEFAULT.(widthRef := Index(0))))
    ensures Items("{0:{}}", 0, 0, [Int]) == None
  {
    var fmt := "{0:{}}";
    assert ParseArgId(fmt, 1) == Id(Index(0), 2);
    assert ParseSpecs(fmt, 3, 0, Int) == Parsed(5, DEFAULT.(widthRef := Index(0)), 1);
    assert ParseSpecs(fmt, 3, MANUAL, Int) == Bad;
  }

  /** A name: "{a}" compiles to a field that is looked up while formatting. */
  lemma NamedFieldCompiles()
    ensures CompileFormat("{a}", []) == Compiled(RuntimeNamedField("a")) && Items("{a}", 0, 0, []) == None
  {
    var fmt := "{a}";
    assert NameEnd(fmt, 2) == 2 && NameEnd(fmt, 1) == 2;
    assert fmt[1..2] == "a";
    assert ParseArgId(fmt, 1) == Id(Name("a"), 2);
  }

  /** A dynamic width without an argument: "{:{}}" compiles for one argument. */
  lemma MissingWidthCompiles()
    ensures CompileFormat("{:{}}", [Int]) == Compiled(SpecField(0, DEFAULT.(widthRef := Index(1))))
    ensures Items("{:{}}", 0, 0, [Int]) == None
  {
    var fmt := "{:{}}";
    assert ParseSpecs(fmt, 2, 1, Int) == Parsed(4, DEFAULT.(widthRef := Index(1)), 2);
  }

  /** A name with specs: nothing is compiled for "{a:}", which is left to the run time. */
  lemma NamedSpecsAreUnknown()
    ensures CompileFormat("{a:}", []) == Unknown
  {
    var fmt := "{a:}";
    assert NameEnd(fmt, 2) == 2 && NameEnd(fmt, 1) == 2;
    assert ParseArgId(fmt, 1) == Id(Name(fmt[1..2]), 2);
  }
}
