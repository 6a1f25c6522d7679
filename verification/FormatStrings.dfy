/**
  The run-time format string parser: literal text and replacement fields, reported to a
  handler that resolves argument ids and reads format specifications.

  Arguments are positional and of built-in types, given by the list of their types, so a
  name is never found.  An error report ends the reading.
 */
module FormatStrings {
  import opened FormatSpecs
  import opened Wrappers

  /** What a format string asks for, one output unit or replacement field at a time. */
  datatype Item = Lit(unit: char) | Field(id: int, specs: Option<Specs>) | NamedField(name: string)

  function Lits(text: string): (r: seq<Item>)
    ensures |r| == |text|
  {
    seq(|text|, i requires 0 <= i < |text| => Lit(text[i]))
  }

  // ----- Checks on the arguments ----------------------------------------------------------------------------

  predicate IsInteger(t: ArgType) { IsIntegral(t) && !t.Bool? && !t.Char? }

  /** handle_dynamic_spec: the argument exists and is an integer. */
  predicate Resolves(ref: Ref, types: seq<ArgType>) {
    match ref
    case NoRef => true
    case Index(i) => 0 <= i < |types| && IsInteger(types[i])
    case Name(_) => false
  }

  /** check_char_specs. */
  predicate CharSpecsFit(specs: Specs, t: ArgType) {
    t.Char? && (specs.presentation == NONE || specs.presentation == CHR || specs.presentation == DEBUG)
    ==> !specs.align.Numeric? && specs.sign.NoSign? && !specs.alt
  }

  // ----- The run-time parser --------------------------------------------------------------------------------------

  datatype FieldId = NoId | FieldId(id: int, end: nat, next: int)

  /** The id of a replacement field whose "{" ends at pos: taken automatically or given. */
  function FieldIdAt(fmt: string, pos: nat, next: int): (r: FieldId)
    requires pos < |fmt|
    ensures r.FieldId? ==> pos <= r.end <= |fmt|
  {
    if fmt[pos] == '}' || fmt[pos] == ':' then
      match NextId(next)
      case None => NoId
      case Some(r) => FieldId(r.0, pos, r.1)
    else
      match ParseArgId(fmt, pos)
      case BadId => NoId
      case Id(ref, end) =>
        if !ref.Index? || CheckId(next).None? then NoId else FieldId(ref.index, end, CheckId(next).value)
  }

  /** on_format_specs: the specs, once their arguments are known to be there. */
  function SpecsFor(fmt: string, pos: nat, next: int, id: int, types: seq<ArgType>): (r: Parse)
    requires pos <= |fmt|
    ensures r.Parsed? ==> pos <= r.end <= |fmt| && 0 <= id < |types|
  {
    if !(0 <= id < |types|) then Bad
    else match ParseSpecs(fmt, pos, next, types[id])
      case Bad => Bad
      case Parsed(end, specs, next') =>
        if Resolves(specs.widthRef, types) && Resolves(specs.precisionRef, types) && CharSpecsFit(specs, types[id])
        then Parsed(end, specs, next') else Bad
  }

  datatype Taken = Untaken | Taken(item: Item, end: nat, next: int)

  /** parse_replacement_field, behind the "{" and where no second "{" follows. */
  function RuntimeField(fmt: string, pos: nat, next: int, types: seq<ArgType>): (r: Taken)
    requires pos < |fmt|
    ensures r.Taken? ==> pos < r.end <= |fmt|
  {
    match FieldIdAt(fmt, pos, next)
    case NoId => Untaken
    case FieldId(id, end, next') =>
      if end == |fmt| || !(0 <= id < |types|) then Untaken
      else if fmt[end] == '}' then Taken(Field(id, None), end + 1, next')
      else if fmt[end] != ':' then Untaken
      else match SpecsFor(fmt, end + 1, next', id, types)
        case Bad => Untaken
        case Parsed(end', specs, next'') =>
          if end' == |fmt| || fmt[end'] != '}' then Untaken
          else Taken(Field(id, Some(specs)), end' + 1, next'')
  }

  function Prepend(xs: seq<Item>, r: Option<seq<Item>>): Option<seq<Item>> {
    match r
    case None => None
    case Some(ys) => Some(xs + ys)
  }

  /** What the format string asks for from pos on, or None if the run-time parser rejects it. */
  function Items(fmt: string, pos: nat, next: int, types: seq<ArgType>): Option<seq<Item>>
    requires pos <= |fmt|
    decreases |fmt| - pos
  {
    if pos == |fmt| then Some([])
    else if fmt[pos] == '{' then
      if pos + 1 == |fmt| then None
      else if fmt[pos + 1] == '{' then Prepend([Lit('{')], Items(fmt, pos + 2, next, types))
      else match RuntimeField(fmt, pos + 1, next, types)
        case Untaken => None
        case Taken(item, end, next') => Prepend([item], Items(fmt, end, next', types))
    else if fmt[pos] == '}' then
      if pos + 1 == |fmt| || fmt[pos + 1] != '}' then None
      else Prepend([Lit('}')], Items(fmt, pos + 2, next, types))
    else Prepend([Lit(fmt[pos])], Items(fmt, pos + 1, next, types))
  }

  /** format_handler: the events of the parser, collected in order. */
  class FormatHandler {
    const types: seq<ArgType>
    const ctx: ParseContext
    var items: seq<Item>

    constructor (types: seq<ArgType>)
      ensures this.types == types && items == [] && fresh(ctx) && ctx.nextArgId == 0
    {
      this.types := types;
      ctx := new ParseContext(0);
      items := [];
    }

    method OnText(fmt: string, begin: nat, end: nat)
      requires begin <= end <= |fmt|
      modifies this`items
      ensures items == old(items) + Lits(fmt[begin..end])
    {
      items := items + Lits(fmt[begin..end]);
    }

    method OnReplacementField(id: int) returns (ok: bool)
      modifies this`items
      ensures ok == (0 <= id < |types|)
      ensures items == if ok then old(items) + [Field(id, None)] else old(items)
    {
      ok := 0 <= id < |types|;
      if ok {
        items := items + [Field(id, None)];
      }
    }

    method OnFormatSpecs(id: int, fmt: string, begin: nat) returns (r: Option<nat>)
      requires begin <= |fmt|
      modifies this`items, ctx
      ensures match SpecsFor(fmt, begin, old(ctx.nextArgId), id, types)
        case Bad => r == None
        case Parsed(end, specs, next) =>
          r == Some(end) && ctx.nextArgId == next && items == old(items) + [Field(id, Some(specs))]
    {
      if !(0 <= id < |types|) {
        return None;
      }
      var p := RunParseSpecs(fmt, begin, ctx, types[id]);
      if p.Bad? || !Resolves(p.specs.widthRef, types) || !Resolves(p.specs.precisionRef, types)
         || !CharSpecsFit(p.specs, types[id]) {
        return None;
      }
      items := items + [Field(id, Some(p.specs))];
      r := Some(p.end);
    }

    /** on_arg_id, without an id or with the one that parse_arg_id finds. */
    method OnArgId(fmt: string, begin: nat) returns (r: FieldId)
      requires begin < |fmt|
      modifies ctx
      ensures r == FieldIdAt(fmt, begin, old(ctx.nextArgId))
      ensures r.FieldId? ==> ctx.nextArgId == r.next
    {
      if fmt[begin] == '}' || fmt[begin] == ':' {
        var id := ctx.NextArgId();
        return if id.None? then NoId else FieldId(id.value, begin, ctx.nextArgId);
      }
      var id := RunParseArgId(fmt, begin);
      if id.BadId? || !id.ref.Index? {
        return NoId;
      }
      var ok := ctx.CheckArgId();
      r := if ok then FieldId(id.ref.index, id.end, ctx.nextArgId) else NoId;
    }
  }

  /** parse_replacement_field, at the "{". */
  method ParseReplacementField(fmt: string, brace: nat, handler: FormatHandler) returns (r: Option<nat>)
    requires brace < |fmt| && fmt[brace] == '{'
    modifies handler`items, handler.ctx
    ensures brace + 1 == |fmt| ==> r == None
    ensures brace + 1 < |fmt| && fmt[brace + 1] == '{' ==>
      r == Some(brace + 2) && handler.items == old(handler.items) + Lits("{")
      && handler.ctx.nextArgId == old(handler.ctx.nextArgId)
    ensures brace + 1 < |fmt| && fmt[brace + 1] != '{' ==>
      match RuntimeField(fmt, brace + 1, old(handler.ctx.nextArgId), handler.types)
      case Untaken => r == None
      case Taken(item, end, next) =>
        r == Some(end) && handler.items == old(handler.items) + [item] && handler.ctx.nextArgId == next
  {
    hide SpecsFor, FieldIdAt;
    var begin := brace + 1;
    if begin == |fmt| {
      return None;
    }
    if fmt[begin] == '{' {
      assert fmt[begin..begin + 1] == "{";
      handler.OnText(fmt, begin, begin + 1);
      return Some(begin + 1);
    }
    var id := handler.OnArgId(fmt, begin);
    if id.NoId? || id.end == |fmt| {
      return None;
    }
    if fmt[id.end] == '}' {
      var ok := handler.OnReplacementField(id.id);
      return if ok then Some(id.end + 1) else None;
    }
    if fmt[id.end] != ':' {
      return None;
    }
    var end := handler.OnFormatSpecs(id.id, fmt, id.end + 1);
    if end.None? || end.value == |fmt| || fmt[end.value] != '}' {
      return None;
    }
    r := Some(end.value + 1);
  }

  // ----- Runs of literal text --------------------------------------------------------------------------------------

  lemma PrependTwice(xs: seq<Item>, ys: seq<Item>, r: Option<seq<Item>>)
    ensures Prepend(xs, Prepend(ys, r)) == Prepend(xs + ys, r)
  {
    if r.Some? {
      assert xs + (ys + r.value) == xs + ys + r.value;
    }
  }

  lemma OneMoreLit(fmt: string, begin: nat, p: nat)
    requires begin <= p < |fmt|
    ensures Lits(fmt[begin..p + 1]) == Lits(fmt[begin..p]) + [Lit(fmt[p])]
  {
  }

  /** Where the parser stands: what is reported and pending, before what is still to come. */
  ghost predicate StandsAt(fmt: string, begin: nat, p: nat, next: int, items: seq<Item>, types: seq<ArgType>) {
    begin <= p <= |fmt|
    && Items(fmt, 0, 0, types) == Prepend(items + Lits(fmt[begin..p]), Items(fmt, p, next, types))
  }

  lemma StandsAfter(fmt: string, begin: nat, p: nat, next: int, items: seq<Item>, types: seq<ArgType>,
                    more: seq<Item>, p': nat, next': int)
    requires StandsAt(fmt, begin, p, next, items, types) && p <= p' <= |fmt|
    requires Items(fmt, p, next, types) == Prepend(more, Items(fmt, p', next', types))
    ensures StandsAt(fmt, p', p', next', items + Lits(fmt[begin..p]) + more, types)
  {
    PrependTwice(items + Lits(fmt[begin..p]), more, Items(fmt, p', next', types));
    assert fmt[p'..p'] == "" && Lits("") == [];
    var all := items + Lits(fmt[begin..p]) + more;
    assert all + [] == all;
    hide Items;
  }

  /** parse_format_string: literal text is reported in pieces as long as they come. */
  method ParseFormatString(fmt: string, types: seq<ArgType>) returns (r: Option<seq<Item>>)
    ensures r == Items(fmt, 0, 0, types)
  {
    var handler := new FormatHandler(types);
    var begin: nat, p: nat := 0, 0;
    StandsAtStart(fmt, types);
    while p != |fmt|
      invariant p <= |fmt| && handler.types == types && fresh(handler) && fresh(handler.ctx)
      invariant StandsAt(fmt, begin, p, handler.ctx.nextArgId, handler.items, types)
      decreases |fmt| - p
    {
      ghost var items, next := handler.items, handler.ctx.nextArgId;
      hide StandsAt, RuntimeField;
      assert begin <= p by { BeginBefore(fmt, begin, p, next, items, types); }
      var c := fmt[p];
      if c == '{' {
        handler.OnText(fmt, begin, p);
        var end := ParseReplacementField(fmt, p, handler);
        if end.None? {
          Rejected(fmt, begin, p, next, items, types);
          return None;
        }
        assert Lits("{") == [Lit('{')];
        StandsAfter(fmt, begin, p, next, items, types,
          if fmt[p + 1] == '{' then Lits("{") else [RuntimeField(fmt, p + 1, next, types).item],
          end.value, handler.ctx.nextArgId);
        p := end.value;
        begin := p;
      } else if c == '}' {
        if p + 1 == |fmt| || fmt[p + 1] != '}' {
          Rejected(fmt, begin, p, next, items, types);
          return None;
        }
        handler.OnText(fmt, begin, p + 1);
        OneMoreLit(fmt, begin, p);
        StandsAfter(fmt, begin, p, next, items, types, [Lit('}')], p + 2, next);
        assert handler.items == items + Lits(fmt[begin..p]) + [Lit('}')];
        p := p + 2;
        begin := p;
      } else {
        PendingLit(fmt, begin, p, next, items, types);
        p := p + 1;
      }
    }
    StandsAtEnd(fmt, begin, handler.ctx.nextArgId, handler.items, types);
    handler.OnText(fmt, begin, |fmt|);
    r := Some(handler.items);
  }

  lemma StandsAtStart(fmt: string, types: seq<ArgType>)
    ensures StandsAt(fmt, 0, 0, 0, [], types)
  {
    assert fmt[0..0] == "" && Lits("") == [];
    PrependNothing(Items(fmt, 0, 0, types));
    assert [] + Lits(fmt[0..0]) == [];
    hide Items;
  }

  lemma PrependNothing(r: Option<seq<Item>>)
    ensures Prepend([], r) == r
  {
    if r.Some? {
      assert [] + r.value == r.value;
    }
  }

  lemma StandsAtEnd(fmt: string, begin: nat, next: int, items: seq<Item>, types: seq<ArgType>)
    requires StandsAt(fmt, begin, |fmt|, next, items, types)
    ensures begin <= |fmt| && Items(fmt, 0, 0, types) == Some(items + Lits(fmt[begin..|fmt|]))
  {
    var all := items + Lits(fmt[begin..|fmt|]);
    assert all + [] == all;
  }

  lemma BeginBefore(fmt: string, begin: nat, p: nat, next: int, items: seq<Item>, types: seq<ArgType>)
    requires StandsAt(fmt, begin, p, next, items, types)
    ensures begin <= p
  {
  }

  lemma Rejected(fmt: string, begin: nat, p: nat, next: int, items: seq<Item>, types: seq<ArgType>)
    requires StandsAt(fmt, begin, p, next, items, types) && Items(fmt, p, next, types) == None
    ensures Items(fmt, 0, 0, types) == None
  {
    hide Items;
  }

  lemma PendingLit(fmt: string, begin: nat, p: nat, next: int, items: seq<Item>, types: seq<ArgType>)
    requires StandsAt(fmt, begin, p, next, items, types) && p < |fmt| && fmt[p] != '{' && fmt[p] != '}'
    ensures StandsAt(fmt, begin, p + 1, next, items, types)
  {
    OneMoreLit(fmt, begin, p);
    var reported := items + Lits(fmt[begin..p]);
    PrependTwice(reported, [Lit(fmt[p])], Items(fmt, p + 1, next, types));
    assert reported + [Lit(fmt[p])] == items + Lits(fmt[begin..p + 1]);
    assert Items(fmt, p, next, types) == Prepend([Lit(fmt[p])], Items(fmt, p + 1, next, types));
    hide Items;
  }
}
