/**
  The command-line flag parser at work on registry objects: single options, whole texts,
  and ReadFlagsFromString as a transaction.
 */
module GflagsParser {
  import opened GflagsValues
  import opened GflagsRegistry
  import opened GflagsText
  import opened GflagsAssignments
  import opened GflagsLines
  import opened Wrappers

  class CommandLineFlagParser {
    const registry: FlagRegistry
    /** Names that have an error message. */
    var errorFlags: set<string>
    /** A recursive flag named a file or a variable that this model does not read. */
    var external: bool

    constructor (registry: FlagRegistry)
      ensures this.registry == registry && errorFlags == {} && !external
    {
      this.registry := registry;
      errorFlags, external := {}, false;
    }

    ghost function Current(): (p: Progress)
      reads this, registry.flags.Values
      ensures Typed(Types(), p.states)
    {
      Progress(registry.Snapshot(), errorFlags, external)
    }

    ghost function Types(): Types {
      registry.Kinds()
    }

    method FindFlagLocked(name: string) returns (flag: Option<string>)
      ensures flag == FindName(Types(), name)
    {
      if name in registry.flags {
        return Some(name);
      }
      if '-' !in name {
        return None;
      }
      var replaced := Underscored(name);
      flag := if replaced in registry.flags then Some(replaced) else None;
    }

    method SplitArgumentLocked(arg: string) returns (split: Split)
      requires registry.Valid()
      ensures split == SplitArgument(Types(), arg)
    {
      var eq := FirstIndex(arg, '=');
      var key := arg[..eq];
      var value := if eq == |arg| then None else Some(arg[eq + 1..]);
      var flag := FindFlagLocked(key);
      if flag.None? {
        if !(|key| >= 2 && key[0] == 'n' && key[1] == 'o') {
          return NoFlag(key, UnknownFlag);
        }
        flag := FindFlagLocked(key[2..]);
        if flag.None? {
          return NoFlag(key, UnknownFlag);
        }
        if registry.flags[flag.value].kind != FvBool {
          return NoFlag(key, NotBoolean);
        }
        key := key[2..];
        value := Some("0");
      }
      if value.None? && registry.flags[flag.value].kind == FvBool {
        value := Some("1");
      }
      split := Found(flag.value, key, value);
    }

    /** Sets one flag, notes a failure, and stops short of following a recursive flag. */
    method ProcessSingleOptionLocked(name: string, value: string, mode: Mode)
      requires registry.Valid() && name in registry.flags
      modifies this, registry.flags.Values
      ensures Current() == ProcessOne(Types(), old(Current()), name, value, mode)
    {
      var flag := registry.flags[name];
      ghost var before := registry.Snapshot();
      var ok := flag.SetLocked(value, mode);
      assert registry.Snapshot() == before[name := flag.State()];
      if !ok {
        errorFlags := errorFlags + {name};
        return;
      }
      if IsRecursive(name) && flag.current != Str("") {
        external := true;
      }
    }

    method ProcessLineLocked(line: string, relevant: bool, inSection: bool, mode: Mode, matches: string -> bool)
      returns (relevant': bool, inSection': bool)
      requires registry.Valid()
      modifies this, registry.flags.Values
      ensures Reading(Current(), relevant', inSection')
           == ProcessLine(Types(), Reading(old(Current()), relevant, inSection), line, mode, matches)
    {
      relevant', inSection' := relevant, inSection;
      if line == [] || line[0] == '#' {
        return;
      }
      if line[0] == '-' {
        inSection' := false;
        if !relevant' {
          return;
        }
        var split := SplitArgumentLocked(StripDashes(line));
        if split.Found? && split.value.Some? {
          ProcessSingleOptionLocked(split.flag, split.value.value, mode);
        }
        return;
      }
      if !inSection' {
        inSection' := true;
        relevant' := false;
      }
      if !relevant' {
        relevant' := SomeWordMatches(line, matches);
      }
    }

    /** Reads a text line by line. */
    method ProcessOptionsFromStringLocked(content: string, mode: Mode, matches: string -> bool)
      requires registry.Valid()
      modifies this, registry.flags.Values
      ensures Current() == ProcessText(Types(), Reading(old(Current()), true, false), CStr(content), mode, matches).progress
    {
      hide ProcessLine, CStr, SpaceRun, LineEnd, FlagRegistry.Snapshot, FlagRegistry.Kinds;
      var rest := CStr(content);
      var relevant, inSection := true, false;
      var more := true;
      ghost var whole := ProcessText(Types(), Reading(Current(), true, false), rest, mode, matches);
      while more
        invariant more ==> whole == ProcessText(Types(), Reading(Current(), relevant, inSection), rest, mode, matches)
        invariant !more ==> whole == Reading(Current(), relevant, inSection)
        decreases more, |rest|
      {
        ghost var start := rest;
        rest := SkipSpaces(rest);
        var lineEnd := LineEnd(rest);
        relevant, inSection := ProcessLineLocked(rest[..lineEnd], relevant, inSection, mode, matches);
        if lineEnd == |rest| {
          more := false;
        } else {
          rest := rest[lineEnd + 1..];
        }
      }
    }
  }

  method SkipSpaces(s: string) returns (rest: string)
    ensures rest == s[SpaceRun(s)..] && |rest| <= |s|
  {
    rest := s;
    while rest != [] && IsSpace(rest[0])
      invariant |rest| <= |s| && s[SpaceRun(s)..] == rest[SpaceRun(rest)..]
    {
      rest := rest[1..];
    }
  }

  /** The glob loop over the words of a filename line. */
  method SomeWordMatches(line: string, matches: string -> bool) returns (found: bool)
    ensures found == SomeMatches(Words(line), matches)
  {
    var word := line;
    while true
      invariant SomeMatches(Words(line), matches) == SomeMatches(Words(word), matches)
      decreases |word|
    {
      var space := FirstIndex(word, ' ');
      assert space < |word| ==> Words(word)[1..] == Words(word[space + 1..]);
      assert space == |word| ==> Words(word)[1..] == [] && word[..space] == word;
      if matches(word[..space]) {
        return true;
      }
      if space == |word| {
        return false;
      }
      word := word[space + 1..];
    }
  }

  /** What reading a text promises, by the assignments of its relevant flag lines: no error if
      and only if every one is accepted; then each flag has the last value given to it, else
      every flag is exactly what it was.  `external` says that a recursive flag asked for a file
      or a variable: then what a text does is not described here, except that errors undo it. */
  ghost predicate Transaction(types: Types, before: States, content: string, matches: string -> bool,
                              ok: bool, external: bool, after: States)
    requires Typed(types, before)
  {
    var given := TextGiven(types, content, matches);
    && Typed(types, after)
    && (external <==> AsksForMore(types, before, given))
    && (!external ==> (ok <==> forall n :: !Rejected(types, before, given, n)))
    && (!external && ok ==> forall n :: n in types ==> EndsAs(before[n], types[n], Texts(given, n), after[n]))
    && (!ok ==> after == before)
  }

  lemma ReadingIsTransaction(types: Types, before: States, content: string, matches: string -> bool,
                             ok: bool, external: bool, after: States)
    requires Typed(types, before) && (!ok ==> after == before)
    requires var p := ReadAll(types, before, content, SetValue, matches);
      (ok <==> p.failed == {}) && external == p.external && (ok ==> after == p.states)
    ensures Transaction(types, before, content, matches, ok, external, after)
  {
    TextAssigns(types, before, content, matches);
    hide ReadAll, EndsAs, Rejected, AsksForMore, TextGiven;
  }

  method ReadFlagsFromString(registry: FlagRegistry, content: string, matches: string -> bool)
    returns (ok: bool, external: bool)
    requires registry.Valid()
    modifies registry.flags.Values
    ensures external == ReadAll(registry.Kinds(), old(registry.Snapshot()), content, SetValue, matches).external
    ensures !external ==>
      var p := ReadAll(registry.Kinds(), old(registry.Snapshot()), content, SetValue, matches);
      (ok <==> p.failed == {}) && (ok ==> registry.Snapshot() == p.states)
    ensures Transaction(registry.Kinds(), old(registry.Snapshot()), content, matches, ok, external, registry.Snapshot())
  {
    hide ReadAll, FlagSaver.Holds, Transaction;
    var saver := new FlagSaver(registry);
    saver.SaveFromRegistry();
    ghost var saved := registry.Snapshot();
    var failed;
    failed, external := ApplyLines(registry, content, matches);
    ok := !failed;
    ghost var after := if failed then saved else registry.Snapshot();
    ReadingIsTransaction(registry.Kinds(), saved, content, matches, ok, external, after);
    if failed {
      saver.RestoreToRegistry(saved);
    }
  }

  /** The reading part: a parser of its own, and whether it noted any error. */
  method ApplyLines(registry: FlagRegistry, content: string, matches: string -> bool) returns (failed: bool, external: bool)
    requires registry.Valid()
    modifies registry.flags.Values
    ensures var p := ReadAll(registry.Kinds(), old(registry.Snapshot()), content, SetValue, matches);
      registry.Snapshot() == p.states && (failed <==> p.failed != {}) && external == p.external
  {
    hide ProcessText;
    var parser := new CommandLineFlagParser(registry);
    parser.ProcessOptionsFromStringLocked(content, SetValue, matches);
    failed, external := parser.errorFlags != {}, parser.external;
  }

  /** Reading back printed flags with the real parser: restorable values come back. */
  method PrintAndRead(registry: FlagRegistry, flags: seq<FlagInfo>, matches: string -> bool,
                      ghost order: seq<string>, ghost saved: States) returns (ok: bool, external: bool)
    requires registry.Valid()
    requires Proper(registry.Kinds(), saved) && SameFlags(registry.Kinds(), saved, registry.Snapshot())
    requires Lists(order, registry.Kinds()) && |flags| == |order|
    requires forall i :: 0 <= i < |flags| ==> flags[i] == FlagInfo(order[i], ToString(saved[order[i]].current))
    requires forall n :: n in saved ==> Restorable(saved[n])
    modifies registry.flags.Values
    ensures ok && !external
    ensures forall n :: n in saved ==> registry.flags[n].current == saved[n].current
  {
    var text := FlagsIntoString(flags, order, saved);
    ghost var types, start := registry.Kinds(), registry.Snapshot();
    NoReturnInText(order, saved);
    FirstIndexIs(text, NUL, |text|);
    assert CStr(text) == text;
    LinesRestore(types, saved, Progress(start, {}, false), order, matches);
    ok, external := ReadFlagsFromString(registry, text, matches);
    forall n | n in saved
      ensures registry.flags[n].current == saved[n].current
    {
      assert registry.Snapshot()[n] == registry.flags[n].State();
    }
  }
}
