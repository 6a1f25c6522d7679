/**
  Flags as text: the line reader of flag files and the printer that makes such text.

  Flag files named by --flagfile, --fromenv and --tryfromenv are not read here; a run that
  would have to read one is marked `external`.  Program names are matched by a parameter.
 */
module GflagsText {
  import opened Decimals
  import opened GflagsValues
  import opened GflagsRegistry
  import opened Wrappers

  const NUL: char := 0 as char

  // ----- Strings as C sees them -----------------------------------------------------------------

  /** strchr: the first position of c, or the length. */
  function FirstIndex(s: string, c: char): (k: nat)
    ensures k <= |s|
    ensures k < |s| ==> s[k] == c
    ensures forall i :: 0 <= i < k ==> s[i] != c
  {
    if s == [] || s[0] == c then 0 else 1 + FirstIndex(s[1..], c)
  }

  lemma FirstIndexIs(s: string, c: char, k: nat)
    requires k <= |s| && (k < |s| ==> s[k] == c)
    requires forall i :: 0 <= i < k ==> s[i] != c
    ensures FirstIndex(s, c) == k
  {
  }

  /** std::string::c_str seen as a C string. */
  function CStr(s: string): (r: string)
    ensures NUL !in r
  {
    s[..FirstIndex(s, NUL)]
  }

  // ----- Finding a flag and splitting an argument ----------------------------------------------------

  function Underscored(name: string): string {
    seq(|name|, i requires 0 <= i < |name| => if name[i] == '-' then '_' else name[i])
  }

  /** FindFlagLocked: by name, else by the name with underscores for dashes. */
  function FindName(types: Types, name: string): (r: Option<string>)
    ensures r.Some? ==> r.value in types
  {
    if name in types then Some(name)
    else if '-' in name && Underscored(name) in types then Some(Underscored(name))
    else None
  }

  /** The name with some of its underscores written as dashes. */
  predicate Spells(name: string, flag: string) {
    |name| == |flag| && forall i :: 0 <= i < |name| ==> name[i] == flag[i] || (name[i] == '-' && flag[i] == '_')
  }

  /** Flags have no dash in their names, so each is found under all its spellings, and no other. */
  lemma FindsSpellings(types: Types, name: string, flag: string)
    requires forall n :: n in types ==> '-' !in n
    ensures FindName(types, name) == Some(flag) <==> flag in types && Spells(name, flag)
  {
    if flag in types && Spells(name, flag) {
      assert forall i :: 0 <= i < |flag| ==> flag[i] in flag;
      assert forall i :: 0 <= i < |flag| && name[i] != '-' ==> name[i] == flag[i];
      assert '-' in name ==> Underscored(name) == flag;
      assert '-' !in name ==> name == flag;
    }
    if name in types {
      assert forall i :: 0 <= i < |name| ==> name[i] in name;
    }
  }

  datatype Problem = UnknownFlag | NotBoolean

  /** SplitArgumentLocked: the flag an argument names and the value that goes with it. */
  datatype Split = NoFlag(key: string, problem: Problem) | Found(flag: string, key: string, value: Option<string>)

  function SplitArgument(types: Types, arg: string): (r: Split)
    ensures r.Found? ==> r.flag in types && (types[r.flag].FvBool? ==> r.value.Some?)
  {
    var eq := FirstIndex(arg, '=');
    var key := arg[..eq];
    var value := if eq < |arg| then Some(arg[eq + 1..]) else None;
    var flag := FindName(types, key);
    if flag.Some? then
      Found(flag.value, key, if value.None? && types[flag.value].FvBool? then Some("1") else value)
    else if !(|key| >= 2 && key[0] == 'n' && key[1] == 'o') then NoFlag(key, UnknownFlag)
    else
      var negated := FindName(types, key[2..]);
      if negated.None? then NoFlag(key, UnknownFlag)
      else if !types[negated.value].FvBool? then NoFlag(key, NotBoolean)
      else Found(negated.value, key[2..], Some("0"))
  }

  /** The flag that "no" in front of a name refers to, when the name itself is no flag. */
  function Negated(types: Types, key: string): Option<string> {
    if |key| >= 2 && key[..2] == "no" then FindName(types, key[2..]) else None
  }

  /** What becomes of an argument with a given key, alone or with a value: a flag of that name
      comes first and takes the value, a boolean one alone is true; else a negated boolean is
      false whatever value it was given; else the argument names no flag. */
  lemma SplitExactly(types: Types, key: string, value: Option<string>)
    requires '=' !in key
    ensures var split := SplitArgument(types, if value.Some? then key + "=" + value.value else key);
      match (FindName(types, key), Negated(types, key))
      case (Some(f), _) => split == Found(f, key, if value.None? && types[f].FvBool? then Some("1") else value)
      case (None, Some(f)) => split == if types[f].FvBool? then Found(f, key[2..], Some("0")) else NoFlag(key, NotBoolean)
      case (None, None) => split == NoFlag(key, UnknownFlag)
  {
    var arg := if value.Some? then key + "=" + value.value else key;
    FirstIndexIs(arg, '=', |key|);
    assert arg[..|key|] == key;
    assert value.Some? ==> arg[|key| + 1..] == value.value;
    hide FindName;
  }

  /** Every argument is of this kind. */
  lemma EveryArgumentHasAKey(arg: string) returns (key: string, value: Option<string>)
    ensures '=' !in key && arg == if value.Some? then key + "=" + value.value else key
  {
    var eq := FirstIndex(arg, '=');
    key, value := arg[..eq], if eq < |arg| then Some(arg[eq + 1..]) else None;
  }

  // ----- What a line does ------------------------------------------------------------------------------

  /** The flags, the names with an error, and whether a recursive flag asked for more. */
  datatype Progress = Progress(states: States, failed: set<string>, external: bool)

  predicate IsRecursive(name: string) {
    name == "flagfile" || name == "fromenv" || name == "tryfromenv"
  }

  predicate Typed(types: Types, states: States) {
    types.Keys == states.Keys
  }

  /** ProcessSingleOptionLocked. */
  function ProcessOne(types: Types, p: Progress, name: string, value: string, mode: Mode): (r: Progress)
    requires Typed(types, p.states) && name in types
    ensures Typed(types, r.states)
  {
    var set' := SetFlag(p.states[name], types[name], value, mode);
    var states := p.states[name := set'.state];
    if !set'.ok then Progress(states, p.failed + {name}, p.external)
    else Progress(states, p.failed, p.external || (IsRecursive(name) && set'.state.current != Str("")))
  }

  datatype Reading = Reading(progress: Progress, relevant: bool, inSection: bool)

  /** The glob words of a filename line. */
  function Words(line: string): seq<string>
    decreases |line|
  {
    var k := FirstIndex(line, ' ');
    if k == |line| then [line] else [line[..k]] + Words(line[k + 1..])
  }

  predicate SomeMatches(words: seq<string>, matches: string -> bool) {
    words != [] && (matches(words[0]) || SomeMatches(words[1..], matches))
  }

  function StripDashes(line: string): string
    requires line != []
  {
    if |line| >= 2 && line[1] == '-' then line[2..] else line[1..]
  }

  function ProcessLine(types: Types, r: Reading, line: string, mode: Mode, matches: string -> bool): (r': Reading)
    requires Typed(types, r.progress.states)
    ensures Typed(types, r'.progress.states)
  {
    if line == [] || line[0] == '#' then r
    else if line[0] == '-' then
      if !r.relevant then r.(inSection := false)
      else
        var split := SplitArgument(types, StripDashes(line));
        if split.NoFlag? || split.value.None? then r.(inSection := false)
        else Reading(ProcessOne(types, r.progress, split.flag, split.value.value, mode), r.relevant, false)
    else
      var relevant := if r.inSection then r.relevant else false;
      Reading(r.progress, relevant || SomeMatches(Words(line), matches), true)
  }

  /** Where the line at the front ends: at a carriage return if there is one anywhere ahead,
      else at a newline, else nowhere. */
  function LineEnd(rest: string): (k: nat)
    ensures k <= |rest|
  {
    var cr := FirstIndex(rest, '\r');
    if cr < |rest| then cr else FirstIndex(rest, '\n')
  }

  function ProcessText(types: Types, r: Reading, text: string, mode: Mode, matches: string -> bool): (r': Reading)
    requires Typed(types, r.progress.states)
    ensures Typed(types, r'.progress.states)
    decreases |text|
  {
    var rest := text[SpaceRun(text)..];
    var k := LineEnd(rest);
    var after := ProcessLine(types, r, rest[..k], mode, matches);
    if k == |rest| then after else ProcessText(types, after, rest[k + 1..], mode, matches)
  }

  function ReadAll(types: Types, states: States, content: string, mode: Mode, matches: string -> bool): Progress
    requires Typed(types, states)
  {
    ProcessText(types, Reading(Progress(states, {}, false), true, false), CStr(content), mode, matches).progress
  }

  // ----- The printer --------------------------------------------------------------------------------------

  function FlagLine(name: string, v: FlagValue): string {
    "--" + name + "=" + ToString(v)
  }

  function FlagsText(order: seq<string>, states: States): string
    requires forall n :: n in order ==> n in states
  {
    if order == [] then "" else FlagLine(order[0], states[order[0]].current) + "\n" + FlagsText(order[1..], states)
  }

  /** One line for each flag, two dashes in front. */
  lemma TextOfFirst(order: seq<string>, states: States)
    requires order != [] && forall n :: n in order ==> n in states
    ensures FlagsText(order, states)
         == "--" + order[0] + "=" + ToString(states[order[0]].current) + "\n" + FlagsText(order[1..], states)
  {
    hide ToString;
  }

  datatype FlagInfo = FlagInfo(name: string, currentValue: string)

  /** TheseCommandlineFlagsIntoString. */
  method FlagsIntoString(flags: seq<FlagInfo>, ghost order: seq<string>, ghost states: States) returns (text: string)
    requires |flags| == |order| && forall n :: n in order ==> n in states
    requires forall i :: 0 <= i < |flags| ==>
      flags[i] == FlagInfo(order[i], ToString(states[order[i]].current))
    ensures text == FlagsText(order, states)
  {
    text := "";
    var i := 0;
    assert order[0..] == order;
    while i < |flags|
      invariant i <= |flags| && FlagsText(order, states) == text + FlagsText(order[i..], states)
    {
      TextStep(text, order, i, states);
      text := text + "--";
      text := text + flags[i].name;
      text := text + "=";
      text := text + flags[i].currentValue;
      text := text + "\n";
      i := i + 1;
    }
  }

  lemma TextStep(text: string, order: seq<string>, i: nat, states: States)
    requires i < |order| && forall n :: n in order ==> n in states
    ensures text + FlagsText(order[i..], states)
         == text + "--" + order[i] + "=" + ToString(states[order[i]].current) + "\n" + FlagsText(order[i + 1..], states)
  {
    assert order[i..][1..] == order[i + 1..];
    assert forall n :: n in order[i + 1..] ==> n in order;
    assert FlagsText(order[i..], states)
      == FlagLine(order[i], states[order[i]].current) + "\n" + FlagsText(order[i + 1..], states);
  }

  // ----- Reading back what was printed ---------------------------------------------------------------------

  /** Names come from C identifiers. */
  predicate IsFlagName(n: string) {
    n != [] && forall i :: 0 <= i < |n| ==> IsDigit(n[i]) || 'a' <= n[i] <= 'z' || 'A' <= n[i] <= 'Z' || n[i] == '_'
  }

  /** No character that ends a line or a C string. */
  predicate Clean(s: string) {
    '\n' !in s && '\r' !in s && NUL !in s
  }

  /** A registry: types of the values are right, recursive flags are empty strings. */
  ghost predicate Proper(types: Types, states: States) {
    && Typed(types, states)
    && (forall n :: n in types ==> IsFlagName(n))
    && (forall n :: n in types ==> states[n].current.Type() == types[n] && states[n].current.InRange())
    && (forall n :: n in types && IsRecursive(n) ==> states[n].current == Str(""))
  }

  /** Another state of the same flags. */
  ghost predicate SameFlags(types: Types, a: States, b: States) {
    && Typed(types, a) && Typed(types, b)
    && forall n :: n in types ==> a[n].validator == b[n].validator
  }

  /** What can be printed and read back: clean text the validator still accepts. */
  predicate Restorable(s: FlagState) {
    Clean(ToString(s.current)) && Accepts(s.validator, s.current)
  }

  /** Each flag once. */
  ghost predicate Lists(order: seq<string>, types: Types) {
    && (forall n :: n in order <==> n in types)
    && (forall i, j :: 0 <= i < j < |order| ==> order[i] != order[j])
  }

  lemma FlagLineSplits(types: Types, n: string, v: FlagValue)
    requires n in types && IsFlagName(n)
    ensures FlagLine(n, v) != [] && FlagLine(n, v)[0] == '-'
    ensures SplitArgument(types, StripDashes(FlagLine(n, v))) == Found(n, n, Some(ToString(v)))
  {
    var line, text := FlagLine(n, v), ToString(v);
    hide ToString;
    assert line == "--" + (n + "=" + text);
    var arg := n + "=" + text;
    assert StripDashes(line) == arg;
    FirstIndexIs(arg, '=', |n|);
    assert arg[..|n|] == n && arg[|n| + 1..] == text;
  }

  /** A printed line at the front of a text is read as that line. */
  lemma LineIsRead(types: Types, r: Reading, line: string, rest: string, mode: Mode, matches: string -> bool)
    requires Typed(types, r.progress.states)
    requires line != [] && line[0] == '-' && Clean(line) && '\r' !in rest
    ensures ProcessText(types, r, line + "\n" + rest, mode, matches)
         == ProcessText(types, ProcessLine(types, r, line, mode, matches), rest, mode, matches)
  {
    var text := line + "\n" + rest;
    assert text[0] == '-' && SpaceRun(text) == 0 && text[0..] == text;
    assert text[|line|] == '\n' && (forall i :: 0 <= i < |line| ==> text[i] == line[i] && text[i] in line);
    assert '\r' !in text;
    FirstIndexIs(text, '\r', |text|);
    FirstIndexIs(text, '\n', |line|);
    assert LineEnd(text) == |line|;
    assert text[..|line|] == line && text[|line| + 1..] == rest;
  }

  lemma {:induction false} NoReturnInText(order: seq<string>, states: States)
    requires forall n :: n in order ==> n in states && IsFlagName(n) && Clean(ToString(states[n].current))
    ensures '\r' !in FlagsText(order, states) && NUL !in FlagsText(order, states)
  {
    if order != [] {
      assert forall n :: n in order[1..] ==> n in order;
      NoReturnInText(order[1..], states);
      CleanLine(order[0], states[order[0]].current);
    }
  }

  lemma CleanLine(n: string, v: FlagValue)
    requires IsFlagName(n) && Clean(ToString(v))
    ensures Clean(FlagLine(n, v))
  {
  }

  /** From p to p' the flags listed got their saved values and the others kept theirs. */
  ghost predicate Restored(types: Types, saved: States, p: Progress, p': Progress, order: seq<string>) {
    && SameFlags(types, saved, p.states) && SameFlags(types, saved, p'.states)
    && p'.external == p.external && p'.failed == p.failed
    && forall n :: n in types ==>
         p'.states[n].current == if n in order then saved[n].current else p.states[n].current
  }

  lemma RestoredThen(types: Types, saved: States, p: Progress, p1: Progress, p2: Progress, order: seq<string>)
    requires order != [] && order[0] !in order[1..]
    requires Restored(types, saved, p, p1, order[..1]) && Restored(types, saved, p1, p2, order[1..])
    ensures Restored(types, saved, p, p2, order)
  {
    assert order == order[..1] + order[1..];
    assert order[..1] == [order[0]];
  }

  /** Reading the printed lines of some flags gives each of them its printed value and
      leaves the others alone. */
  lemma {:induction false} LinesRestore(types: Types, saved: States, p: Progress, order: seq<string>, matches: string -> bool)
    requires Proper(types, saved) && SameFlags(types, saved, p.states)
    requires forall n :: n in order ==> n in types && Restorable(saved[n])
    requires forall i, j :: 0 <= i < j < |order| ==> order[i] != order[j]
    ensures Restored(types, saved, p, ProcessText(types, Reading(p, true, false), FlagsText(order, saved), SetValue, matches).progress, order)
    decreases |order|
  {
    if order == [] {
      EmptyText(types, Reading(p, true, false), matches);
    } else {
      HeadAndTail(order);
      FirstLine(types, saved, p, order, matches);
      PrintedValueIsSet(types, saved, p, order[0]);
      hide ProcessText, FlagsText, ProcessOne, Restorable, Proper;
      var p1 := ProcessOne(types, p, order[0], ToString(saved[order[0]].current), SetValue);
      assert order[..1] == [order[0]];
      LinesRestore(types, saved, p1, order[1..], matches);
      RestoredThen(types, saved, p, p1,
        ProcessText(types, Reading(p1, true, false), FlagsText(order[1..], saved), SetValue, matches).progress, order);
    }
  }

  lemma HeadAndTail(order: seq<string>)
    requires order != []
    requires forall i, j :: 0 <= i < j < |order| ==> order[i] != order[j]
    ensures forall n :: n in order <==> n == order[0] || n in order[1..]
    ensures order[0] !in order[1..]
  {
  }

  lemma EmptyText(types: Types, r: Reading, matches: string -> bool)
    requires Typed(types, r.progress.states)
    ensures ProcessText(types, r, "", SetValue, matches) == r
  {
  }

  lemma FirstLine(types: Types, saved: States, p: Progress, order: seq<string>, matches: string -> bool)
    requires Proper(types, saved) && Typed(types, p.states) && order != []
    requires forall n :: n in order ==> n in types && Restorable(saved[n])
    ensures var n := order[0];
      ProcessText(types, Reading(p, true, false), FlagsText(order, saved), SetValue, matches)
      == ProcessText(types, Reading(ProcessOne(types, p, n, ToString(saved[n].current), SetValue), true, false),
                     FlagsText(order[1..], saved), SetValue, matches)
  {
    var n, rest := order[0], order[1..];
    assert forall m :: m in rest ==> m in order;
    assert IsFlagName(n) && Clean(ToString(saved[n].current));
    LineSets(types, p, n, saved[n].current, matches);
    CleanLine(n, saved[n].current);
    FlagLineSplits(types, n, saved[n].current);
    NoReturnInText(rest, saved);
    hide ToString, FlagLine, StripDashes, SplitArgument, ProcessOne, ProcessLine, ProcessText, Clean, Restorable;
    LineIsRead(types, Reading(p, true, false), FlagLine(n, saved[n].current), FlagsText(rest, saved), SetValue, matches);
  }

  lemma LineSets(types: Types, p: Progress, n: string, v: FlagValue, matches: string -> bool)
    requires Typed(types, p.states) && n in types && IsFlagName(n)
    ensures ProcessLine(types, Reading(p, true, false), FlagLine(n, v), SetValue, matches)
         == Reading(ProcessOne(types, p, n, ToString(v), SetValue), true, false)
  {
    FlagLineSplits(types, n, v);
    hide ToString, FlagLine, StripDashes, SplitArgument, ProcessOne;
  }

  lemma PrintedValueIsSet(types: Types, saved: States, p: Progress, n: string)
    requires Proper(types, saved) && SameFlags(types, saved, p.states) && n in types && Restorable(saved[n])
    ensures Restored(types, saved, p, ProcessOne(types, p, n, ToString(saved[n].current), SetValue), [n])
  {
    ParseUndoesToString(saved[n].current);
    hide ToString, ParseFrom;
  }

  // ----- What reading can never produce ---------------------------------------------------------------------

  predicate IsBreak(c: char) { c == '\r' || c == '\n' || c == NUL }

  /** No line of the text can contain c: a newline only survives inside a line when a
      carriage return follows somewhere. */
  predicate Avoids(c: char, text: string) {
    IsBreak(c) && (c == '\r' || c !in text || (c == '\n' && '\r' !in text))
  }

  lemma LineAvoids(c: char, rest: string)
    requires Avoids(c, rest)
    ensures c !in rest[..LineEnd(rest)]
    ensures LineEnd(rest) < |rest| ==> Avoids(c, rest[LineEnd(rest) + 1..])
  {
    forall i | 0 <= i < LineEnd(rest)
      ensures rest[i] != c
    {
    }
  }

  lemma BreakAvoided(c: char, text: string)
    requires Avoids(c, text)
    ensures IsBreak(c)
  {
  }

  lemma RestAvoids(c: char, text: string, k: nat)
    requires Avoids(c, text) && k <= |text|
    ensures Avoids(c, text[k..])
  {
    assert forall x :: x in text[k..] ==> x in text;
  }

  /** Each flag still has its starting value, or one its validator accepts and without c. */
  ghost predicate Untouched(c: char, types: Types, start: States, states: States) {
    && SameFlags(types, start, states)
    && forall n :: n in types ==>
         || states[n].current == start[n].current
         || (Accepts(start[n].validator, states[n].current) && (states[n].current.Str? ==> c !in states[n].current.s))
  }

  lemma SplitAvoids(types: Types, arg: string, c: char)
    requires IsBreak(c) && c !in arg
    ensures var split := SplitArgument(types, arg);
      split.Found? && split.value.Some? ==> c !in split.value.value
  {
  }

  lemma OneAvoids(c: char, types: Types, start: States, p: Progress, name: string, value: string)
    requires Untouched(c, types, start, p.states) && name in types && c !in value
    ensures Untouched(c, types, start, ProcessOne(types, p, name, value, SetValue).states)
  {
    SetStoresParsed(p.states[name], types[name], value, SetValue);
    SetMakesConsistent(p.states[name], types[name], value, SetValue);
    var v := TryParse(types[name], p.states[name].validator, value);
    StringIsText(types[name], p.states[name].validator, value);
    hide SetFlag, TryParse, Accepts;
  }

  lemma StringIsText(t: FlagType, validator: Validator, text: string)
    ensures match TryParse(t, validator, text)
      case None => true
      case Some(v) => Accepts(validator, v) && (v.Str? ==> v.s == text)
  {
    hide ParseBool, ParseSigned, ParseUnsigned, Accepts;
  }

  lemma LineKeeps(c: char, types: Types, start: States, r: Reading, line: string, matches: string -> bool)
    requires Untouched(c, types, start, r.progress.states) && IsBreak(c) && c !in line
    ensures Untouched(c, types, start, ProcessLine(types, r, line, SetValue, matches).progress.states)
  {
    if line != [] && line[0] == '-' {
      var arg := StripDashes(line);
      assert forall x :: x in arg ==> x in line;
      SplitAvoids(types, arg, c);
      var split := SplitArgument(types, arg);
      if split.Found? && split.value.Some? {
        OneAvoids(c, types, start, r.progress, split.flag, split.value.value);
      }
    }
  }

  lemma {:induction false} TextKeeps(c: char, types: Types, start: States, r: Reading, text: string, matches: string -> bool)
    requires Untouched(c, types, start, r.progress.states) && Avoids(c, text)
    ensures Untouched(c, types, start, ProcessText(types, r, text, SetValue, matches).progress.states)
    decreases |text|
  {
    assert Typed(types, r.progress.states);
    hide Untouched, ProcessLine, SpaceRun, LineEnd, Avoids;
    var rest := text[SpaceRun(text)..];
    RestAvoids(c, text, SpaceRun(text));
    LineAvoids(c, rest);
    var k := LineEnd(rest);
    assert IsBreak(c) by { BreakAvoided(c, text); }
    LineKeeps(c, types, start, r, rest[..k], matches);
    if k < |rest| {
      TextKeeps(c, types, start, ProcessLine(types, r, rest[..k], SetValue, matches), rest[k + 1..], matches);
    }
  }

  // ----- The round trip, exactly ---------------------------------------------------------------------------------

  /** Reading the printed flags into `start` gives every flag its saved value. */
  ghost predicate ReadsBack(types: Types, saved: States, start: States, order: seq<string>, matches: string -> bool)
    requires Typed(types, saved) && Typed(types, start) && forall n :: n in order ==> n in types
  {
    var p := ReadAll(types, start, FlagsText(order, saved), SetValue, matches);
    !p.external && forall n :: n in types ==> p.states[n].current == saved[n].current
  }

  lemma CleanReadsBack(types: Types, saved: States, start: States, order: seq<string>, matches: string -> bool)
    requires Proper(types, saved) && SameFlags(types, saved, start) && Lists(order, types)
    requires forall n :: n in types ==> Restorable(saved[n])
    ensures ReadsBack(types, saved, start, order, matches)
  {
    NoReturnInText(order, saved);
    var text := FlagsText(order, saved);
    FirstIndexIs(text, NUL, |text|);
    assert CStr(text) == text;
    LinesRestore(types, saved, Progress(start, {}, false), order, matches);
  }

  function Other(v: FlagValue): (w: FlagValue)
    ensures w != v && w.Type() == v.Type()
  {
    match v
    case Bool(b) => Bool(!b)
    case Int32(n) => Int32(if n == 0 then 1 else 0)
    case Uint32(n) => Uint32(if n == 0 then 1 else 0)
    case Int64(n) => Int64(if n == 0 then 1 else 0)
    case Uint64(n) => Uint64(if n == 0 then 1 else 0)
    case Str(s) => Str(if s == "" then "x" else "")
  }

  /** A flag whose value cannot come from any line of the text is not read back into a
      registry where it holds something else. */
  lemma CannotReadBack(types: Types, saved: States, order: seq<string>, matches: string -> bool, n: string, c: char)
    requires Proper(types, saved) && Lists(order, types) && n in types
    requires Avoids(c, CStr(FlagsText(order, saved)))
    requires !Accepts(saved[n].validator, saved[n].current) || (saved[n].current.Str? && c in saved[n].current.s)
    ensures exists start :: SameFlags(types, saved, start) && !ReadsBack(types, saved, start, order, matches)
  {
    var start := saved[n := saved[n].(current := Other(saved[n].current))];
    StaysOff(types, saved, start, order, matches, n, c);
  }

  lemma StaysOff(types: Types, saved: States, start: States, order: seq<string>, matches: string -> bool, n: string, c: char)
    requires SameFlags(types, saved, start) && Lists(order, types) && n in types
    requires start[n].current != saved[n].current && Avoids(c, CStr(FlagsText(order, saved)))
    requires !Accepts(saved[n].validator, saved[n].current) || (saved[n].current.Str? && c in saved[n].current.s)
    ensures !ReadsBack(types, saved, start, order, matches)
  {
    hide ProcessText, FlagsText, CStr, Avoids;
    var text := CStr(FlagsText(order, saved));
    var r := Reading(Progress(start, {}, false), true, false);
    TextKeeps(c, types, start, r, text, matches);
    var p := ProcessText(types, r, text, SetValue, matches).progress;
    assert p.states[n].current != saved[n].current;
  }

  lemma OnlyStringsBreak(v: FlagValue)
    requires !Clean(ToString(v))
    ensures v.Str?
  {
    match v
    case Bool(b) =>
    case Str(s) =>
    case Int32(n) => NumbersAreClean(n);
    case Uint32(n) => NumbersAreClean(n);
    case Int64(n) => NumbersAreClean(n);
    case Uint64(n) => NumbersAreClean(n);
  }

  lemma NumbersAreClean(n: int)
    ensures Clean(IntText(n))
  {
    forall x | x in IntText(n)
      ensures x == '-' || IsDigit(x)
    {
    }
  }

  lemma {:induction false} NoReturnAtAll(order: seq<string>, states: States)
    requires forall n :: n in order ==> n in states && IsFlagName(n) && '\r' !in ToString(states[n].current)
    ensures '\r' !in FlagsText(order, states)
  {
    if order != [] {
      assert forall n :: n in order[1..] ==> n in order;
      NoReturnAtAll(order[1..], states);
      assert '\r' !in FlagLine(order[0], states[order[0]].current);
    }
  }

  /** Printing all flags and reading the text back restores every current value, from every
      registry with the same flags, exactly when every value is one line of text that its
      validator accepts. */
  lemma RoundTripExactly(types: Types, saved: States, order: seq<string>, matches: string -> bool)
    requires Proper(types, saved) && Lists(order, types)
    ensures (forall start | SameFlags(types, saved, start) :: ReadsBack(types, saved, start, order, matches))
       <==> (forall n :: n in types ==> Restorable(saved[n]))
  {
    if forall n :: n in types ==> Restorable(saved[n]) {
      forall start | SameFlags(types, saved, start)
        ensures ReadsBack(types, saved, start, order, matches)
      {
        CleanReadsBack(types, saved, start, order, matches);
      }
    } else {
      var n :| n in types && !Restorable(saved[n]);
      BadFlagIsLost(types, saved, order, matches, n);
    }
  }

  lemma BadFlagIsLost(types: Types, saved: States, order: seq<string>, matches: string -> bool, n: string)
    requires Proper(types, saved) && Lists(order, types) && n in types && !Restorable(saved[n])
    ensures exists start :: SameFlags(types, saved, start) && !ReadsBack(types, saved, start, order, matches)
  {
    hide FlagsText, ReadsBack;
    var text := CStr(FlagsText(order, saved));
    if !Accepts(saved[n].validator, saved[n].current) {
      CannotReadBack(types, saved, order, matches, n, '\r');
    } else if m :| m in types && '\r' in ToString(saved[m].current) {
      OnlyStringsBreak(saved[m].current);
      CannotReadBack(types, saved, order, matches, m, '\r');
    } else {
      OnlyStringsBreak(saved[n].current);
      NoReturnAtAll(order, saved);
      assert forall x :: x in text ==> x in FlagsText(order, saved);
      CannotReadBack(types, saved, order, matches, n, if NUL in saved[n].current.s then NUL else '\n');
    }
  }
}
