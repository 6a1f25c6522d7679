/**
  The flag registry: flags as objects, setting them with validation, saving and restoring
  all of them.

  A validator is a total predicate on values, so it answers the same every time.
 */
module GflagsRegistry {
  import opened GflagsValues
  import opened Wrappers

  type Validator = Option<FlagValue -> bool>

  predicate Accepts(validator: Validator, v: FlagValue) {
    validator.None? || validator.value(v)
  }

  datatype Mode = SetValue | SetIfDefault | SetDefault

  // ----- What setting a flag means ---------------------------------------------------------------

  /** Everything about a flag that can change. */
  datatype FlagState = FlagState(modified: bool, defvalue: FlagValue, current: FlagValue, validator: Validator)

  /** UpdateModifiedBit: notices a current value that was written directly. */
  function Touched(s: FlagState): FlagState {
    if !s.modified && s.current != s.defvalue then s.(modified := true) else s
  }

  /** TryParseLocked: a value of the flag's type that its validator accepts. */
  function TryParse(t: FlagType, validator: Validator, text: string): Option<FlagValue> {
    match ParseFrom(text, t)
    case None => None
    case Some(v) => if Accepts(validator, v) then Some(v) else None
  }

  datatype SetResult = SetResult(ok: bool, state: FlagState)

  function SetFlag(s: FlagState, t: FlagType, text: string, mode: Mode): SetResult {
    var s' := Touched(s);
    var v := TryParse(t, s.validator, text);
    match mode
    case SetValue =>
      if v.None? then SetResult(false, s') else SetResult(true, s'.(current := v.value, modified := true))
    case SetIfDefault =>
      if s'.modified then SetResult(true, s')
      else if v.None? then SetResult(false, s')
      else SetResult(true, s'.(current := v.value, modified := true))
    case SetDefault =>
      if v.None? then SetResult(false, s')
      else if s'.modified then SetResult(true, s'.(defvalue := v.value))
      else SetResult(true, s'.(defvalue := v.value, current := v.value))
  }

  /** The text stands for v, and the validator lets it through. */
  predicate TextGives(s: FlagState, t: FlagType, text: string, v: FlagValue) {
    ParseFrom(text, t) == Some(v) && Accepts(s.validator, v)
  }

  ghost predicate Acceptable(s: FlagState, t: FlagType, text: string) {
    exists v :: TextGives(s, t, text, v)
  }

  /** The flag counts as modified: it has been set, or its variable was written. */
  predicate IsModified(s: FlagState) { s.modified || s.current != s.defvalue }

  /** What a call may change, member by member: `ok`, both values, the bit and the validator. */
  ghost predicate Sets(s: FlagState, t: FlagType, text: string, mode: Mode, ok: bool, s': FlagState) {
    && (ok <==> Acceptable(s, t, text) || (mode.SetIfDefault? && IsModified(s)))
    && (if ok && (mode.SetValue? || !IsModified(s)) then TextGives(s, t, text, s'.current) else s'.current == s.current)
    && (if ok && mode.SetDefault? then TextGives(s, t, text, s'.defvalue) else s'.defvalue == s.defvalue)
    && (s'.modified <==> IsModified(s) || (ok && !mode.SetDefault?))
    && s'.validator == s.validator
  }

  /** For every flag, text and mode, the call does just that, and nothing else would. */
  lemma SetExactly(s: FlagState, t: FlagType, text: string, mode: Mode, ok: bool, s': FlagState)
    ensures SetFlag(s, t, text, mode) == SetResult(ok, s') <==> Sets(s, t, text, mode, ok, s')
  {
    hide ParseFrom;
    var v := ParseFrom(text, t);
    if v.Some? && Accepts(s.validator, v.value) {
      assert TextGives(s, t, text, v.value);
    }
  }

  // ----- Runs of one flag ---------------------------------------------------------------------------

  /** What can happen to a flag: a call of SetFlagLocked, or the program writing the variable. */
  datatype Action = Set(text: string, mode: Mode) | Write(v: FlagValue)

  function Act(s: FlagState, t: FlagType, a: Action): FlagState {
    match a
    case Set(text, mode) => SetFlag(s, t, text, mode).state
    case Write(v) => s.(current := v)
  }

  function Run(s: FlagState, t: FlagType, actions: seq<Action>): FlagState {
    if actions == [] then s
    else Act(Run(s, t, actions[..|actions| - 1]), t, actions[|actions| - 1])
  }

  /** An unmodified flag holds its default. */
  predicate Consistent(s: FlagState) {
    !s.modified ==> s.current == s.defvalue
  }

  /** Right after any call of SetFlagLocked, whatever was written before, the bit is right. */
  lemma SetMakesConsistent(s: FlagState, t: FlagType, text: string, mode: Mode)
    ensures Consistent(SetFlag(s, t, text, mode).state)
    ensures s.modified ==> SetFlag(s, t, text, mode).state.modified
    ensures SetFlag(s, t, text, mode).state.validator == s.validator
  {
  }

  /** A failed call leaves both values alone; it leaves the whole flag alone exactly when no
      direct write was waiting to be noticed. */
  lemma FailedSet(s: FlagState, t: FlagType, text: string, mode: Mode)
    requires !SetFlag(s, t, text, mode).ok
    ensures var s' := SetFlag(s, t, text, mode).state;
      s'.current == s.current && s'.defvalue == s.defvalue && (s' == s <==> Consistent(s))
  {
  }

  /** A flag written directly, then set to a text that does not parse: the call fails and the
      flag is marked as modified. */
  lemma FailedSetExample()
    ensures var s := FlagState(false, Int32(0), Int32(1), None);
      SetFlag(s, FvInt32, "", SetValue) == SetResult(false, s.(modified := true))
  {
  }

  predicate NoWrites(actions: seq<Action>) {
    forall i :: 0 <= i < |actions| ==> actions[i].Set?
  }

  /** Over every run the modified bit never clears; without direct writes an unmodified flag
      holds its default at every moment. */
  lemma {:induction false} RunKeepsBit(s: FlagState, t: FlagType, actions: seq<Action>)
    ensures s.modified ==> Run(s, t, actions).modified
    ensures Run(s, t, actions).validator == s.validator
    ensures Consistent(s) && NoWrites(actions) ==> Consistent(Run(s, t, actions))
  {
    if actions != [] {
      var init := actions[..|actions| - 1];
      RunKeepsBit(s, t, init);
      var last := actions[|actions| - 1];
      if last.Set? {
        SetMakesConsistent(Run(s, t, init), t, last.text, last.mode);
      }
    }
  }

  /** A value that came from one of the texts of the run and passed the validator. */
  ghost predicate FromRun(v: FlagValue, s: FlagState, t: FlagType, actions: seq<Action>) {
    exists i :: 0 <= i < |actions| && actions[i].Set? && TryParse(t, s.validator, actions[i].text) == Some(v)
  }

  /** Of the flag's type, in its range, and accepted by its validator. */
  predicate Fitting(v: FlagValue, s: FlagState, t: FlagType) {
    v.Type() == t && v.InRange() && Accepts(s.validator, v)
  }

  lemma FromRunFits(v: FlagValue, s: FlagState, t: FlagType, actions: seq<Action>)
    requires FromRun(v, s, t, actions)
    ensures Fitting(v, s, t)
  {
    var i :| 0 <= i < |actions| && actions[i].Set? && TryParse(t, s.validator, actions[i].text) == Some(v);
    hide ParseFrom;
  }

  lemma LongerRun(v: FlagValue, s: FlagState, t: FlagType, actions: seq<Action>)
    requires actions != [] && FromRun(v, s, t, actions[..|actions| - 1])
    ensures FromRun(v, s, t, actions)
  {
    var init := actions[..|actions| - 1];
    var i :| 0 <= i < |init| && init[i].Set? && TryParse(t, s.validator, init[i].text) == Some(v);
    assert actions[i] == init[i];
  }

  /** One call stores nothing but the accepted value of its text. */
  lemma SetStoresParsed(s: FlagState, t: FlagType, text: string, mode: Mode)
    ensures var s' := SetFlag(s, t, text, mode).state;
      && (s'.current == s.current || TryParse(t, s.validator, text) == Some(s'.current))
      && (s'.defvalue == s.defvalue || TryParse(t, s.validator, text) == Some(s'.defvalue))
  {
  }

  /** Over every run without direct writes, each stored value is the one the flag started
      with or an accepted value some call was given, of the flag's own type. */
  lemma {:induction false} StoredValuesWereAccepted(s: FlagState, t: FlagType, actions: seq<Action>)
    requires NoWrites(actions)
    ensures var s' := Run(s, t, actions);
      && (s'.current == s.current || (FromRun(s'.current, s, t, actions) && Fitting(s'.current, s, t)))
      && (s'.defvalue == s.defvalue || (FromRun(s'.defvalue, s, t, actions) && Fitting(s'.defvalue, s, t)))
  {
    if actions != [] {
      var n := |actions| - 1;
      var init := actions[..n];
      StoredValuesWereAccepted(s, t, init);
      RunKeepsBit(s, t, init);
      var before := Run(s, t, init);
      SetStoresParsed(before, t, actions[n].text, actions[n].mode);
      hide TryParse, SetFlag;
      if FromRun(before.current, s, t, init) {
        LongerRun(before.current, s, t, actions);
      }
      if FromRun(before.defvalue, s, t, init) {
        LongerRun(before.defvalue, s, t, actions);
      }
      var after := Run(s, t, actions);
      hide FromRun;
      if FromRun(after.current, s, t, actions) {
        FromRunFits(after.current, s, t, actions);
      }
      if FromRun(after.defvalue, s, t, actions) {
        FromRunFits(after.defvalue, s, t, actions);
      }
    }
  }

  // ----- Flags as objects -----------------------------------------------------------------------------

  class CommandLineFlag {
    const name: string
    const kind: FlagType
    var modified: bool
    var defvalue: FlagValue
    var current: FlagValue
    var validator: Validator

    ghost function State(): FlagState
      reads this
    {
      FlagState(modified, defvalue, current, validator)
    }

    constructor (name: string, kind: FlagType, current: FlagValue, defvalue: FlagValue)
      ensures this.name == name && this.kind == kind
      ensures State() == FlagState(false, defvalue, current, None)
    {
      this.name, this.kind := name, kind;
      this.modified, this.defvalue, this.current, this.validator := false, defvalue, current, None;
    }

    method UpdateModifiedBit()
      modifies this
      ensures State() == Touched(old(State()))
    {
      if !modified && current != defvalue {
        modified := true;
      }
    }

    /** Copies the non-const members; assigning an equal value changes nothing. */
    method CopyFrom(src: CommandLineFlag)
      modifies this
      ensures State() == old(src.State())
    {
      var m, c, d, f := src.modified, src.current, src.defvalue, src.validator;
      modified := m;
      if current != c { current := c; }
      if defvalue != d { defvalue := d; }
      validator := f;
    }

    /** SetFlagLocked. */
    method SetLocked(text: string, mode: Mode) returns (ok: bool)
      modifies this
      ensures SetResult(ok, State()) == SetFlag(old(State()), kind, text, mode)
      ensures Sets(old(State()), kind, text, mode, ok, State())
    {
      SetExactly(State(), kind, text, mode, SetFlag(State(), kind, text, mode).ok, SetFlag(State(), kind, text, mode).state);
      UpdateModifiedBit();
      match mode {
        case SetValue =>
          var v := TryParse(kind, validator, text);
          if v.None? {
            return false;
          }
          current := v.value;
          modified := true;
        case SetIfDefault =>
          if !modified {
            var v := TryParse(kind, validator, text);
            if v.None? {
              return false;
            }
            current := v.value;
            modified := true;
          }
        case SetDefault =>
          var v := TryParse(kind, validator, text);
          if v.None? {
            return false;
          }
          defvalue := v.value;
          if !modified {
            current := v.value;
          }
      }
      ok := true;
    }
  }

  // ----- The registry and its saver ---------------------------------------------------------------------

  /** The states and the types of all flags, by name. */
  type States = map<string, FlagState>
  type Types = map<string, FlagType>

  class FlagRegistry {
    const flags: map<string, CommandLineFlag>

    constructor (flags: map<string, CommandLineFlag>)
      requires forall n | n in flags :: flags[n].name == n
      ensures this.flags == flags && Valid()
    {
      this.flags := flags;
    }

    /** Each flag is registered under its own name, so no object is registered twice. */
    ghost predicate Valid() {
      forall n | n in flags :: flags[n].name == n
    }

    ghost function Snapshot(): States
      reads flags.Values
    {
      map n | n in flags :: flags[n].State()
    }

    ghost function Kinds(): Types {
      map n | n in flags :: flags[n].kind
    }
  }

  class FlagSaver {
    const main: FlagRegistry
    var backup: seq<CommandLineFlag>
    ghost var repr: set<CommandLineFlag>

    constructor (main: FlagRegistry)
      ensures this.main == main && backup == [] && repr == {}
    {
      this.main := main;
      backup, repr := [], {};
    }

    /** The backup holds copies, one for every flag of the registry, in the states `saved`. */
    ghost predicate Holds(saved: States)
      reads this, repr
    {
      && repr !! main.flags.Values
      && Names(backup) == saved.Keys == main.flags.Keys
      && forall i :: 0 <= i < |backup| ==>
           backup[i] in repr && backup[i].name in saved && backup[i].State() == saved[backup[i].name]
    }

    method SaveFromRegistry()
      requires main.Valid() && backup == [] && repr == {}
      modifies this
      ensures Holds(main.Snapshot()) && fresh(repr)
    {
      var names := main.flags.Keys;
      while names != {}
        invariant names <= main.flags.Keys && Names(backup) == main.flags.Keys - names
        invariant fresh(repr)
        invariant forall i :: 0 <= i < |backup| ==>
          && backup[i] in repr && backup[i].name in main.flags
          && backup[i].State() == main.flags[backup[i].name].State()
        decreases names
      {
        var n :| n in names;
        var flag := main.flags[n];
        var copy := new CommandLineFlag(flag.name, flag.kind, flag.current, flag.defvalue);
        copy.CopyFrom(flag);
        NamesOfMore(backup, copy);
        ghost var before := backup;
        backup, repr := backup + [copy], repr + {copy};
        assert forall i :: 0 <= i < |before| ==> backup[i] == before[i];
        names := names - {n};
      }
    }

    /** Puts every flag back into its saved state. */
    method RestoreToRegistry(ghost saved: States)
      requires main.Valid() && Holds(saved)
      modifies main.flags.Values
      ensures main.Snapshot() == saved
    {
      var i := 0;
      while i < |backup|
        invariant i <= |backup| && Holds(saved)
        invariant forall n | n in Names(backup[..i]) :: main.flags[n].State() == saved[n]
      {
        var flag := main.flags[backup[i].name];
        flag.CopyFrom(backup[i]);
        assert backup[..i + 1] == backup[..i] + [backup[i]];
        NamesOfMore(backup[..i], backup[i]);
        i := i + 1;
      }
      assert backup[..i] == backup;
    }
  }

  function Names(flags: seq<CommandLineFlag>): set<string> {
    set i | 0 <= i < |flags| :: flags[i].name
  }

  lemma NamesOfMore(flags: seq<CommandLineFlag>, flag: CommandLineFlag)
    ensures Names(flags + [flag]) == Names(flags) + {flag.name}
  {
    var more := flags + [flag];
    forall n | n in Names(flags)
      ensures n in Names(more)
    {
      var i :| 0 <= i < |flags| && flags[i].name == n;
      assert more[i].name == n;
    }
    assert more[|flags|] == flag;
  }
}
