/**
  What the format string compiler accepts, stated without it: the pieces of a format string once
  more, with the freedom the compiler leaves.  It compiles exactly the strings made of these
  pieces, to trees that emit their items.
 */
module FormatCompiled {
  import opened FormatSpecs
  import opened FormatGrammar
  import opened FormatStrings
  import opened FormatItems
  import opened FormatCompile
  import opened Wrappers

  // ----- Loose pieces --------------------------------------------------------------------------------

  /** Specs in a field with an explicit id are read as if no id had been taken; dynamic arguments
      need not be there, if only their ids are below INT_MAX. */
  ghost predicate LooseSpecs(x: string, c: int, next: int, id: int, next1: int, m: int, specs: Specs, next': int,
                             types: seq<ArgType>)
    requires 0 <= id < |types|
  {
    && 1 <= c < |x| - 1 && x[c] == ':'
    && ReadsId(x[1..c], next, Index(id), next1)
    && Denotes(x[c + 1..|x| - 1], types[id], if next1 == MANUAL then 0 else next1, specs, m)
    && (specs.widthRef.Index? ==> specs.widthRef.index < INT_MAX)
    && (specs.precisionRef.Index? ==> specs.precisionRef.index < INT_MAX)
    && CharacterFits(specs, types[id])
    && if next1 == MANUAL then next' == MANUAL else 0 <= m < INT_MAX && next' == m
  }

  /** As the parser's pieces, but a "}" takes any character with it, and a field may have a name. */
  ghost predicate IsLoosePiece(x: string, next: int, item: Item, next': int, types: seq<ArgType>) {
    match item
    case Lit(c) =>
      next' == next && if c == '{' then x == "{{" else if c == '}' then |x| == 2 && x[0] == '}' else x == [c]
    case Field(id, None) => IsField(x, next, id, None, next', types)
    case Field(id, Some(specs)) =>
      && 0 <= id < |types| && |x| >= 2 && x[0] == '{' && x[|x| - 1] == '}'
      && exists c, next1, m :: LooseSpecs(x, c, next, id, next1, m, specs, next', types)
    case NamedField(name) => next' == next && IsArgName(name) && x == "{" + name + "}"
  }

  ghost predicate SpellsLoosely(x: string, next: int, items: seq<Item>, types: seq<ArgType>)
    decreases |items|
  {
    if items == [] then x == ""
    else exists n: int, next1: int ::
      0 < n <= |x| && IsLoosePiece(x[..n], next, items[0], next1, types) && SpellsLoosely(x[n..], next1, items[1..], types)
  }

  // ----- Heads of fields -----------------------------------------------------------------------------

  lemma HeadSays(fmt: string, pos: nat, next: int, types: seq<ArgType>)
    requires pos < |fmt| && next >= MANUAL
    ensures match HeadAt(fmt, pos, next, types)
      case BadHead => true
      case Indexed(index, end, next1) => ReadsId(fmt[pos..end], next, Index(index), next1) && next1 >= MANUAL
      case Named(name, end) => IsArgName(name) && name == fmt[pos..end]
  {
    if fmt[pos] == '}' || fmt[pos] == ':' {
      assert fmt[pos..pos] == "";
    } else if ParseArgId(fmt, pos).Id? {
      IdSays(fmt, pos);
    }
    hide ParseArgId, NumberOf;
  }

  lemma HeadIsRead(fmt: string, pos: nat, x: string, next: int, id: int, next': int, types: seq<ArgType>)
    requires next >= MANUAL && ReadsId(x, next, Index(id), next') && 0 <= id < |types| && Holds(fmt, pos, x)
    requires pos + |x| < |fmt| && (fmt[pos + |x|] == '}' || fmt[pos + |x|] == ':')
    ensures HeadAt(fmt, pos, next, types) == Indexed(id, pos + |x|, next') && fmt[pos] != '{' && next' >= MANUAL
  {
    if x != "" {
      IdIsRead(fmt, pos, x, Index(id));
    }
    hide ParseArgId, IdOf, Holds;
  }

  lemma NameIsRead(fmt: string, pos: nat, name: string, next: int, types: seq<ArgType>)
    requires next >= MANUAL && IsArgName(name) && Holds(fmt, pos, name)
    requires pos + |name| < |fmt| && fmt[pos + |name|] == '}'
    ensures HeadAt(fmt, pos, next, types) == Named(name, pos + |name|) && fmt[pos] != '{'
  {
    IdIsRead(fmt, pos, name, Name(name));
    hide ParseArgId, IsArgName, Holds;
  }

  // ----- Specs ---------------------------------------------------------------------------------------

  /** What CompileSpecs makes of the specs, by their grammar. */
  lemma CompileSpecsSays(fmt: string, pos: nat, end: nat, next: int, t: ArgType, specs: Specs, next': int)
    requires pos <= end < |fmt| && fmt[end] == '}' && next >= 0
    ensures CompileSpecs(fmt, pos, next, t) == Parsed(end, specs, next') <==>
      exists m :: Denotes(fmt[pos..end], t, next, specs, m) && IdBelowMax(specs.widthRef) && IdBelowMax(specs.precisionRef)
        && CharacterFits(specs, t) && if next == 0 then next' == MANUAL else 0 <= m < INT_MAX && next' == m
  {
    if fmt[pos] == '}' {
      EmptySpecs(fmt, pos, next, t);
    }
    hide ParseSpecs, Denotes;
    ChecksAgree(specs, t, []);
    hide CharSpecsFit, CharacterFits;
    forall m
      ensures ParseSpecs(fmt, pos, next, t) == Parsed(end, specs, m) <==> Denotes(fmt[pos..end], t, next, specs, m)
    {
      SpecsExactly(fmt, pos, end, t, next, specs, m);
    }
    var r := ParseSpecs(fmt, pos, next, t);
    assert r.Parsed? && r.end == end && r.specs == specs ==> Denotes(fmt[pos..end], t, next, specs, r.next);
  }

  // ----- What is compiled is spelled -----------------------------------------------------------------

  lemma LooseFirst(fmt: string, pos: nat, mid: nat, next: int, next1: int, item: Item, items: seq<Item>, types: seq<ArgType>)
    requires pos < mid <= |fmt| && IsLoosePiece(fmt[pos..mid], next, item, next1, types)
    requires SpellsLoosely(fmt[mid..], next1, items, types)
    ensures SpellsLoosely(fmt[pos..], next, [item] + items, types)
  {
    hide IsLoosePiece;
    var x := fmt[pos..];
    assert x[..mid - pos] == fmt[pos..mid] && x[mid - pos..] == fmt[mid..];
    assert ([item] + items)[1..] == items;
  }

  lemma {:induction false} LooseText(fmt: string, pos: nat, mid: nat, next: int, items: seq<Item>, types: seq<ArgType>)
    requires pos <= mid <= |fmt| && (forall i :: pos <= i < mid ==> fmt[i] != '{' && fmt[i] != '}')
    requires SpellsLoosely(fmt[mid..], next, items, types)
    ensures SpellsLoosely(fmt[pos..], next, Lits(fmt[pos..mid]) + items, types)
    decreases mid - pos
  {
    hide SpellsLoosely;
    if pos < mid {
      LooseText(fmt, pos + 1, mid, next, items, types);
      assert fmt[pos..pos + 1] == [fmt[pos]];
      LooseFirst(fmt, pos, pos + 1, next, next, Lit(fmt[pos]), Lits(fmt[pos + 1..mid]) + items, types);
      assert Lits(fmt[pos..mid]) + items == [Lit(fmt[pos])] + (Lits(fmt[pos + 1..mid]) + items);
    } else {
      assert Lits(fmt[pos..mid]) + items == items;
    }
  }

  lemma PlainFieldLoose(fmt: string, pos: nat, end: nat, next: int, index: int, next1: int, types: seq<ArgType>)
    requires 1 <= pos <= end < |fmt| && fmt[pos - 1] == '{' && fmt[end] == '}' && 0 <= index < |types|
    requires ReadsId(fmt[pos..end], next, Index(index), next1)
    ensures IsLoosePiece(fmt[pos - 1..end + 1], next, Field(index, None), next1, types)
  {
    hide ReadsId;
    Cut(fmt, pos - 1, end + 1, 1, end - pos + 1);
  }

  lemma SpecsFieldLoose(fmt: string, pos: nat, colon: nat, end: nat, next: int, index: int, next1: int, specs: Specs,
                        next2: int, types: seq<ArgType>)
    requires 1 <= pos <= colon < end < |fmt| && fmt[pos - 1] == '{' && fmt[colon] == ':' && fmt[end] == '}'
    requires 0 <= index < |types| && next1 >= MANUAL && next1 != 0 && ReadsId(fmt[pos..colon], next, Index(index), next1)
    requires CompileSpecs(fmt, colon + 1, if next1 == MANUAL then 0 else next1, types[index]) == Parsed(end, specs, next2)
    ensures IsLoosePiece(fmt[pos - 1..end + 1], next, Field(index, Some(specs)), next2, types) && next2 >= MANUAL
  {
    hide ReadsId, CompileSpecs, Denotes, CharacterFits;
    var x, c := fmt[pos - 1..end + 1], colon - pos + 1;
    Cut(fmt, pos - 1, end + 1, 1, c);
    Cut(fmt, pos - 1, end + 1, c + 1, |x| - 1);
    assert x[c] == fmt[colon];
    CompileSpecsSays(fmt, colon + 1, end, if next1 == MANUAL then 0 else next1, types[index], specs, next2);
    var m :| Denotes(fmt[colon + 1..end], types[index], if next1 == MANUAL then 0 else next1, specs, m)
             && IdBelowMax(specs.widthRef) && IdBelowMax(specs.precisionRef) && CharacterFits(specs, types[index])
             && if next1 == MANUAL then next2 == MANUAL else 0 <= m < INT_MAX && next2 == m;
    assert LooseSpecs(x, c, next, index, next1, m, specs, next2, types);
  }

  lemma {:induction false} TailSays(head: Tree, fmt: string, pos: nat, next: int, types: seq<ArgType>) returns (rest: seq<Item>)
    requires pos <= |fmt| && next >= MANUAL && ParseTail(head, fmt, pos, next, types).Compiled?
    ensures Emit(ParseTail(head, fmt, pos, next, types).tree) == Emit(head) + rest
    ensures SpellsLoosely(fmt[pos..], next, rest, types)
    decreases |fmt| - pos, 1
  {
    rest := [];
    if pos == |fmt| {
      assert Emit(head) + [] == Emit(head);
    } else {
      hide Compile, SpellsLoosely;
      rest := CompileSays(fmt, pos, next, types);
    }
  }

  lemma {:induction false} CompileSays(fmt: string, pos: nat, next: int, types: seq<ArgType>) returns (items: seq<Item>)
    requires pos < |fmt| && next >= MANUAL && Compile(fmt, pos, next, types).Compiled?
    ensures items == Emit(Compile(fmt, pos, next, types).tree) && SpellsLoosely(fmt[pos..], next, items, types)
    decreases |fmt| - pos, 0
  {
    hide SpellsLoosely, HeadAt, CompileSpecs, ParseTail;
    if fmt[pos] != '{' && fmt[pos] != '}' {
      var end := TextEnd(fmt, pos + 1);
      var head := if end - pos > 1 then Text(fmt[pos..end]) else CodeUnit(fmt[pos]);
      assert fmt[pos..pos + 1] == [fmt[pos]] && Emit(head) == Lits(fmt[pos..end]);
      var rest := TailSays(head, fmt, end, next, types);
      LooseText(fmt, pos, end, next, rest, types);
      items := Lits(fmt[pos..end]) + rest;
    } else if fmt[pos] == '}' || fmt[pos + 1] == '{' {
      var head := Text(fmt[pos..pos + 1]);
      assert fmt[pos..pos + 1] == [fmt[pos]] && Emit(head) == [Lit(fmt[pos])];
      var rest := TailSays(head, fmt, pos + 2, next, types);
      LooseFirst(fmt, pos, pos + 2, next, next, Lit(fmt[pos]), rest, types);
      items := [Lit(fmt[pos])] + rest;
    } else {
      items := FieldSaysLoosely(fmt, pos, next, types);
    }
  }

  lemma {:induction false} FieldSaysLoosely(fmt: string, pos: nat, next: int, types: seq<ArgType>) returns (items: seq<Item>)
    requires pos + 1 < |fmt| && fmt[pos] == '{' && fmt[pos + 1] != '{'
    requires next >= MANUAL && Compile(fmt, pos, next, types).Compiled?
    ensures items == Emit(Compile(fmt, pos, next, types).tree) && SpellsLoosely(fmt[pos..], next, items, types)
    decreases |fmt| - pos, 0, 0
  {
    hide SpellsLoosely, HeadAt, CompileSpecs, ParseTail, IsLoosePiece;
    HeadSays(fmt, pos + 1, next, types);
    match HeadAt(fmt, pos + 1, next, types)
    case Named(name, end) =>
      NamedLoose(fmt, pos, end, next, types);
      var rest := TailSays(RuntimeNamedField(name), fmt, end + 1, next, types);
      LooseFirst(fmt, pos, end + 1, next, next, NamedField(name), rest, types);
      items := [NamedField(name)] + rest;
    case Indexed(index, end, next1) =>
      if fmt[end] == '}' {
        PlainFieldLoose(fmt, pos + 1, end, next, index, next1, types);
        var rest := TailSays(FieldNode(index), fmt, end + 1, next1, types);
        LooseFirst(fmt, pos, end + 1, next, next1, Field(index, None), rest, types);
        items := [Field(index, None)] + rest;
      } else {
        var k := CompileSpecs(fmt, end + 1, if next1 == MANUAL then 0 else next1, types[index]);
        IdMovesOn(fmt[pos + 1..end], next, index, next1);
        SpecsFieldLoose(fmt, pos + 1, end, k.end, next, index, next1, k.specs, k.next, types);
        var rest := TailSays(SpecField(index, k.specs), fmt, k.end + 1, k.next, types);
        LooseFirst(fmt, pos, k.end + 1, next, k.next, Field(index, Some(k.specs)), rest, types);
        items := [Field(index, Some(k.specs))] + rest;
      }
  }

  lemma NamedLoose(fmt: string, pos: nat, end: nat, next: int, types: seq<ArgType>)
    requires pos + 1 <= end < |fmt| && fmt[pos] == '{' && fmt[end] == '}' && IsArgName(fmt[pos + 1..end])
    ensures IsLoosePiece(fmt[pos..end + 1], next, NamedField(fmt[pos + 1..end]), next, types)
  {
    assert fmt[pos..end + 1] == "{" + fmt[pos + 1..end] + "}";
  }

  /** Behind an id the counter is not at its start. */
  lemma IdMovesOn(x: string, next: int, id: int, next': int)
    requires ReadsId(x, next, Index(id), next')
    ensures next' == MANUAL || next' > 0
  {
    hide IdOf;
  }

  // ----- What is spelled is compiled -----------------------------------------------------------------

  /** A character that is no brace stands for itself, so a run of them is the front of the items. */
  lemma {:induction false} RunIsSpelled(fmt: string, pos: nat, mid: nat, next: int, items: seq<Item>, types: seq<ArgType>)
    returns (rest: seq<Item>)
    requires pos <= mid <= |fmt| && (forall i :: pos <= i < mid ==> fmt[i] != '{' && fmt[i] != '}')
    requires SpellsLoosely(fmt[pos..], next, items, types)
    ensures items == Lits(fmt[pos..mid]) + rest && SpellsLoosely(fmt[mid..], next, rest, types)
    decreases mid - pos
  {
    hide SpellsLoosely, IsLoosePiece;
    rest := items;
    if pos < mid {
      var n, next1 := FirstPiece(fmt, pos, next, items, types);
      OneCharacter(fmt, pos, n, next, items[0], next1, types);
      rest := RunIsSpelled(fmt, pos + 1, mid, next, items[1..], types);
      assert items == [items[0]] + items[1..];
      assert Lits(fmt[pos..mid]) == [Lit(fmt[pos])] + Lits(fmt[pos + 1..mid]);
    } else {
      assert Lits(fmt[pos..mid]) + rest == rest;
    }
  }

  lemma FirstPiece(fmt: string, pos: nat, next: int, items: seq<Item>, types: seq<ArgType>) returns (n: int, next': int)
    requires pos < |fmt| && SpellsLoosely(fmt[pos..], next, items, types)
    ensures items != [] && 0 < n && pos + n <= |fmt| && IsLoosePiece(fmt[pos..pos + n], next, items[0], next', types)
    ensures SpellsLoosely(fmt[pos + n..], next', items[1..], types)
  {
    hide IsLoosePiece;
    var x := fmt[pos..];
    n, next' :| 0 < n <= |x| && IsLoosePiece(x[..n], next, items[0], next', types)
                && SpellsLoosely(x[n..], next', items[1..], types);
    assert x[..n] == fmt[pos..pos + n] && x[n..] == fmt[pos + n..];
  }

  lemma OneCharacter(fmt: string, pos: nat, n: nat, next: int, item: Item, next': int, types: seq<ArgType>)
    requires 0 < n && pos + n <= |fmt| && IsLoosePiece(fmt[pos..pos + n], next, item, next', types)
    requires fmt[pos] != '{' && fmt[pos] != '}'
    ensures n == 1 && item == Lit(fmt[pos]) && next' == next
  {
    assert fmt[pos..pos + n][0] == fmt[pos];
    hide LooseSpecs, ReadsId;
  }

  /** A field, as the compiler takes it: the tree for it, and where it goes on. */
  lemma LooseFieldIsRead(fmt: string, pos: nat, n: nat, next: int, item: Item, next': int, types: seq<ArgType>)
    returns (tree: Tree)
    requires 0 < n && pos + n <= |fmt| && next >= MANUAL && !item.Lit?
    requires IsLoosePiece(fmt[pos..pos + n], next, item, next', types)
    ensures n >= 2 && fmt[pos] == '{' && fmt[pos + 1] != '{' && next' >= MANUAL && Emit(tree) == [item]
    ensures Compile(fmt, pos, next, types) == ParseTail(tree, fmt, pos + n, next', types)
  {
    hide Compile, ParseTail, LooseSpecs, ReadsId, IsArgName;
    var x := fmt[pos..pos + n];
    match item
    case NamedField(name) =>
      tree := RuntimeNamedField(name);
      NamedIsRead(fmt, pos, name, next, types);
    case Field(id, None) =>
      tree := FieldNode(id);
      PlainIsRead(fmt, pos, n, next, id, next', types);
    case Field(id, Some(specs)) =>
      tree := SpecField(id, specs);
      var c, next1, m :| LooseSpecs(x, c, next, id, next1, m, specs, next', types);
      SpecsIsRead(fmt, pos, n, c, next, id, next1, m, specs, next', types);
  }

  lemma NamedIsRead(fmt: string, pos: nat, name: string, next: int, types: seq<ArgType>)
    requires pos + |name| + 2 <= |fmt| && next >= MANUAL && IsArgName(name)
    requires fmt[pos..pos + |name| + 2] == "{" + name + "}"
    ensures fmt[pos] == '{' && fmt[pos + 1] != '{'
    ensures Compile(fmt, pos, next, types) == ParseTail(RuntimeNamedField(name), fmt, pos + |name| + 2, next, types)
  {
    hide HeadAt, ParseTail, CompileSpecs, IsArgName;
    var x := "{" + name + "}";
    Ends(fmt, pos, x);
    PartHeld(fmt, pos, x, 1, |x| - 1);
    assert x[1..|x| - 1] == name;
    NameIsRead(fmt, pos + 1, name, next, types);
  }

  lemma Ends(fmt: string, pos: nat, x: string)
    requires |x| >= 2 && pos + |x| <= |fmt| && fmt[pos..pos + |x|] == x
    ensures Holds(fmt, pos, x) && fmt[pos] == x[0] && fmt[pos + |x| - 1] == x[|x| - 1]
  {
    HoldsAt(fmt, pos, x, 0);
    HoldsAt(fmt, pos, x, |x| - 1);
  }

  lemma PlainIsRead(fmt: string, pos: nat, n: nat, next: int, id: int, next': int, types: seq<ArgType>)
    requires 0 < n && pos + n <= |fmt| && next >= MANUAL && IsField(fmt[pos..pos + n], next, id, None, next', types)
    ensures n >= 2 && fmt[pos] == '{' && fmt[pos + 1] != '{' && next' >= MANUAL
    ensures Compile(fmt, pos, next, types) == ParseTail(FieldNode(id), fmt, pos + n, next', types)
  {
    hide HeadAt, ParseTail, CompileSpecs, ReadsId;
    var x := fmt[pos..pos + n];
    Ends(fmt, pos, x);
    PartHeld(fmt, pos, x, 1, n - 1);
    HeadIsRead(fmt, pos + 1, x[1..n - 1], next, id, next', types);
  }

  lemma SpecsIsRead(fmt: string, pos: nat, n: nat, c: int, next: int, id: int, next1: int, m: int, specs: Specs, next': int,
                    types: seq<ArgType>)
    requires 2 <= n && pos + n <= |fmt| && next >= MANUAL && 0 <= id < |types|
    requires var x := fmt[pos..pos + n]; x[0] == '{' && x[n - 1] == '}' && LooseSpecs(x, c, next, id, next1, m, specs, next', types)
    ensures fmt[pos] == '{' && fmt[pos + 1] != '{' && next' >= MANUAL
    ensures Compile(fmt, pos, next, types) == ParseTail(SpecField(id, specs), fmt, pos + n, next', types)
  {
    hide HeadAt, ParseTail, CompileSpecs, LooseSpecs;
    var x := fmt[pos..pos + n];
    Ends(fmt, pos, x);
    LooseSpecsAreRead(fmt, pos, x, c, next, id, next1, m, specs, next', types);
  }

  lemma LooseSpecsAreRead(fmt: string, pos: nat, x: string, c: int, next: int, id: int, next1: int, m: int, specs: Specs,
                          next': int, types: seq<ArgType>)
    requires 0 <= id < |types| && LooseSpecs(x, c, next, id, next1, m, specs, next', types) && Holds(fmt, pos, x)
    requires x[|x| - 1] == '}' && next >= MANUAL
    ensures 1 <= c < |x| - 1 && pos + |x| <= |fmt| && fmt[pos + c] == ':' && fmt[pos + 1] != '{' && next' >= MANUAL
    ensures HeadAt(fmt, pos + 1, next, types) == Indexed(id, pos + c, next1)
    ensures CompileSpecs(fmt, pos + c + 1, if next1 == MANUAL then 0 else next1, types[id])
         == Parsed(pos + |x| - 1, specs, next')
  {
    hide HeadAt, ReadsId, CompileSpecs, Denotes, CharacterFits, Holds;
    HoldsAt(fmt, pos, x, c);
    HoldsAt(fmt, pos, x, |x| - 1);
    PartHeld(fmt, pos, x, 1, c);
    PartHeld(fmt, pos, x, c + 1, |x| - 1);
    HeadIsRead(fmt, pos + 1, x[1..c], next, id, next1, types);
    IdMovesOn(x[1..c], next, id, next1);
    CompileSpecsSays(fmt, pos + c + 1, pos + |x| - 1, if next1 == MANUAL then 0 else next1, types[id], specs, next');
  }

  lemma NothingLeft(x: string, next: int, items: seq<Item>, types: seq<ArgType>)
    requires x == "" && SpellsLoosely(x, next, items, types)
    ensures items == []
  {
    hide IsLoosePiece;
  }

  lemma {:induction false} SpelledTail(head: Tree, fmt: string, pos: nat, next: int, items: seq<Item>, types: seq<ArgType>)
    requires pos <= |fmt| && next >= MANUAL && SpellsLoosely(fmt[pos..], next, items, types)
    ensures var c := ParseTail(head, fmt, pos, next, types); c.Compiled? && Emit(c.tree) == Emit(head) + items
    decreases |fmt| - pos, 1
  {
    hide SpellsLoosely, Compile;
    if pos == |fmt| {
      NothingLeft(fmt[pos..], next, items, types);
      assert Emit(head) + [] == Emit(head);
    } else {
      SpelledCompiles(fmt, pos, next, items, types);
    }
  }

  lemma {:induction false} SpelledCompiles(fmt: string, pos: nat, next: int, items: seq<Item>, types: seq<ArgType>)
    requires pos < |fmt| && next >= MANUAL && SpellsLoosely(fmt[pos..], next, items, types)
    ensures var c := Compile(fmt, pos, next, types); c.Compiled? && Emit(c.tree) == items
    decreases |fmt| - pos, 0
  {
    hide SpellsLoosely, ParseTail, HeadAt, IsLoosePiece;
    if fmt[pos] != '{' && fmt[pos] != '}' {
      var end := TextEnd(fmt, pos + 1);
      var rest := RunIsSpelled(fmt, pos, end, next, items, types);
      var head := if end - pos > 1 then Text(fmt[pos..end]) else CodeUnit(fmt[pos]);
      assert fmt[pos..pos + 1] == [fmt[pos]] && Emit(head) == Lits(fmt[pos..end]);
      SpelledTail(head, fmt, end, next, rest, types);
    } else {
      var n, next1 := FirstPiece(fmt, pos, next, items, types);
      assert items == [items[0]] + items[1..];
      if items[0].Lit? {
        Doubled(fmt, pos, n, next, items[0], next1, types);
        assert fmt[pos..pos + 1] == [fmt[pos]] && Emit(Text(fmt[pos..pos + 1])) == [Lit(fmt[pos])];
        SpelledTail(Text(fmt[pos..pos + 1]), fmt, pos + 2, next, items[1..], types);
      } else {
        var tree := LooseFieldIsRead(fmt, pos, n, next, items[0], next1, types);
        SpelledTail(tree, fmt, pos + n, next1, items[1..], types);
      }
    }
  }

  lemma Doubled(fmt: string, pos: nat, n: nat, next: int, item: Item, next': int, types: seq<ArgType>)
    requires 0 < n && pos + n <= |fmt| && item.Lit? && IsLoosePiece(fmt[pos..pos + n], next, item, next', types)
    requires fmt[pos] == '{' || fmt[pos] == '}'
    ensures n == 2 && item == Lit(fmt[pos]) && next' == next && (fmt[pos] == '{' ==> fmt[pos + 1] == '{')
  {
    var x := fmt[pos..pos + n];
    assert x[0] == fmt[pos] && (n > 1 ==> x[1] == fmt[pos + 1]);
  }

  /** The compiler accepts exactly the strings made of loose pieces, and its tree emits their items. */
  lemma CompiledExactly(fmt: string, types: seq<ArgType>, items: seq<Item>)
    ensures CompileFormat(fmt, types).Compiled? && Emit(CompileFormat(fmt, types).tree) == items
       <==> SpellsLoosely(fmt, 0, items, types)
  {
    assert fmt[0..] == fmt;
    if fmt == "" {
      assert Lits("") == [];
      hide IsLoosePiece;
    } else {
      hide Compile, SpellsLoosely;
      if Compile(fmt, 0, 0, types).Compiled? {
        var said := CompileSays(fmt, 0, 0, types);
      }
      if SpellsLoosely(fmt, 0, items, types) {
        SpelledCompiles(fmt, 0, 0, items, types);
      }
    }
  }
}
