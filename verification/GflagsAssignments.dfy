/**
  What a list of assignments to flags comes to: every flag ends with the last value given to
  it that it accepts, and every rejected value is an error.  Reading a command line and reading
  a text are both described by the assignments they contain.
 */
module GflagsAssignments {
  import opened GflagsValues
  import opened GflagsRegistry
  import opened GflagsText
  import opened Wrappers

  datatype Assignment = Assignment(flag: string, text: string)

  /** The texts given to flag n, in their order. */
  function Texts(given: seq<Assignment>, n: string): seq<string> {
    if given == [] then []
    else
      var last := given[|given| - 1];
      Texts(given[..|given| - 1], n) + if last.flag == n then [last.text] else []
  }

  // ----- One flag ------------------------------------------------------------------------------------

  ghost predicate NoneGives(s: FlagState, t: FlagType, texts: seq<string>) {
    forall i :: 0 <= i < |texts| ==> !Acceptable(s, t, texts[i])
  }

  /** v is the value of the last acceptable text. */
  ghost predicate LastGives(s: FlagState, t: FlagType, texts: seq<string>, v: FlagValue) {
    exists i :: 0 <= i < |texts| && TextGives(s, t, texts[i], v)
      && forall j :: i < j < |texts| ==> !Acceptable(s, t, texts[j])
  }

  /** A flag that was given these texts: the last acceptable one counts, the others leave no
      trace; default and validator stay. */
  ghost predicate EndsAs(s: FlagState, t: FlagType, texts: seq<string>, s': FlagState) {
    && s'.defvalue == s.defvalue && s'.validator == s.validator
    && (if NoneGives(s, t, texts) then s'.current == s.current else LastGives(s, t, texts, s'.current))
    && (s'.modified <==> s.modified || (texts != [] && s.current != s.defvalue) || !NoneGives(s, t, texts))
  }

  lemma EndsWithout(s: FlagState, t: FlagType)
    ensures EndsAs(s, t, [], s)
  {
  }

  lemma OneText(s: FlagState, t: FlagType, text: string, ok: bool, s': FlagState)
    requires Sets(s, t, text, SetValue, ok, s')
    ensures EndsAs(s, t, [text], s') && (ok <==> Acceptable(s, t, text))
  {
    var texts := [text];
    hide TextGives;
    assert texts[0] == text;
    assert ok ==> TextGives(s, t, texts[0], s'.current);
  }

  lemma SameTexts(s: FlagState, s1: FlagState, t: FlagType, text: string)
    requires s1.validator == s.validator
    ensures Acceptable(s1, t, text) == Acceptable(s, t, text)
    ensures forall v :: TextGives(s1, t, text, v) == TextGives(s, t, text, v)
  {
    forall v ensures TextGives(s1, t, text, v) == TextGives(s, t, text, v) {
    }
  }

  lemma EndsThen(s: FlagState, t: FlagType, a: seq<string>, s1: FlagState, b: seq<string>, s2: FlagState)
    requires EndsAs(s, t, a, s1) && EndsAs(s1, t, b, s2)
    ensures EndsAs(s, t, a + b, s2)
  {
    forall text ensures Acceptable(s1, t, text) == Acceptable(s, t, text) {
      SameTexts(s, s1, t, text);
    }
    forall text, v ensures TextGives(s1, t, text, v) == TextGives(s, t, text, v) {
      SameTexts(s, s1, t, text);
    }
    hide TextGives, Acceptable;
    if !NoneGives(s1, t, b) {
      LastOfSecond(s, s1, t, a, b, s2.current);
    } else if !NoneGives(s, t, a) {
      LastOfFirst(s, t, a, b, s1.current);
    } else {
      assert NoneGives(s, t, a + b);
    }
  }

  lemma LastOfSecond(s: FlagState, s1: FlagState, t: FlagType, a: seq<string>, b: seq<string>, v: FlagValue)
    requires forall text :: Acceptable(s1, t, text) == Acceptable(s, t, text)
    requires forall text, v :: TextGives(s1, t, text, v) == TextGives(s, t, text, v)
    requires LastGives(s1, t, b, v)
    ensures LastGives(s, t, a + b, v) && !NoneGives(s, t, a + b)
  {
    var i :| 0 <= i < |b| && TextGives(s1, t, b[i], v) && forall j :: i < j < |b| ==> !Acceptable(s1, t, b[j]);
    var both := a + b;
    assert both[|a| + i] == b[i] && Acceptable(s, t, both[|a| + i]);
    assert forall j :: |a| + i < j < |both| ==> both[j] == b[j - |a|];
  }

  lemma LastOfFirst(s: FlagState, t: FlagType, a: seq<string>, b: seq<string>, v: FlagValue)
    requires LastGives(s, t, a, v) && NoneGives(s, t, b)
    ensures LastGives(s, t, a + b, v) && !NoneGives(s, t, a + b)
  {
    var i :| 0 <= i < |a| && TextGives(s, t, a[i], v) && forall j :: i < j < |a| ==> !Acceptable(s, t, a[j]);
    var both := a + b;
    assert both[i] == a[i] && Acceptable(s, t, both[i]);
    assert forall j :: |a| <= j < |both| ==> both[j] == b[j - |a|];
    assert forall j :: i < j < |a| ==> both[j] == a[j];
  }

  // ----- All flags -----------------------------------------------------------------------------------

  /** Some text given to flag n is not acceptable. */
  ghost predicate Rejected(types: Types, start: States, given: seq<Assignment>, n: string)
    requires Typed(types, start)
  {
    exists k :: 0 <= k < |given| && given[k].flag == n && n in types && !Acceptable(start[n], types[n], given[k].text)
  }

  const RECURSIVE := {"flagfile", "fromenv", "tryfromenv"}

  /** Some recursive flag is set to something that is not empty. */
  ghost predicate AsksForMore(types: Types, start: States, given: seq<Assignment>)
    requires Typed(types, start)
  {
    exists k, v :: 0 <= k < |given| && given[k].flag in RECURSIVE && given[k].flag in types && v != Str("")
      && TextGives(start[given[k].flag], types[given[k].flag], given[k].text, v)
  }

  /** From p to p' exactly these assignments were made, and these names were unknown. */
  ghost predicate Makes(types: Types, p: Progress, given: seq<Assignment>, unknown: set<string>, p': Progress) {
    && Typed(types, p.states) && Typed(types, p'.states)
    && (forall n :: n in types ==> EndsAs(p.states[n], types[n], Texts(given, n), p'.states[n]))
    && (forall n :: n in p'.failed <==> n in p.failed || n in unknown || Rejected(types, p.states, given, n))
    && (p'.external <==> p.external || AsksForMore(types, p.states, given))
  }

  lemma {:induction false} TextsConcat(a: seq<Assignment>, b: seq<Assignment>, n: string)
    ensures Texts(a + b, n) == Texts(a, n) + Texts(b, n)
  {
    if b == [] {
      assert a + b == a;
    } else {
      assert (a + b)[..|a + b| - 1] == a + b[..|b| - 1];
      TextsConcat(a, b[..|b| - 1], n);
    }
  }

  lemma TextsOfOne(name: string, text: string, n: string)
    ensures Texts([Assignment(name, text)], n) == if n == name then [text] else []
  {
    var given := [Assignment(name, text)];
    assert given[..0] == [] && Texts([], n) == [];
    assert Texts(given, n) == Texts(given[..0], n) + if n == name then [text] else [];
  }

  lemma MakesNothing(types: Types, p: Progress, unknown: set<string>)
    requires Typed(types, p.states)
    ensures Makes(types, p, [], unknown, p.(failed := p.failed + unknown))
  {
  }

  /** Setting one flag is one assignment. */
  lemma MakesOne(types: Types, p: Progress, name: string, text: string)
    requires Typed(types, p.states) && name in types
    ensures Makes(types, p, [Assignment(name, text)], {}, ProcessOne(types, p, name, text, SetValue))
  {
    var given := [Assignment(name, text)];
    var s, t := p.states[name], types[name];
    var r := SetFlag(s, t, text, SetValue);
    SetExactly(s, t, text, SetValue, r.ok, r.state);
    OneText(s, t, text, r.ok, r.state);
    hide SetFlag, TextGives, Acceptable, EndsAs;
    forall n | n in types
      ensures EndsAs(p.states[n], types[n], Texts(given, n), ProcessOne(types, p, name, text, SetValue).states[n])
    {
      TextsOfOne(name, text, n);
      EndsWithout(p.states[n], types[n]);
    }
    assert given[0] == Assignment(name, text);
    ExternalOne(types, p, name, text, r);
  }

  lemma ExternalOne(types: Types, p: Progress, name: string, text: string, r: SetResult)
    requires Typed(types, p.states) && name in types && Sets(p.states[name], types[name], text, SetValue, r.ok, r.state)
    ensures AsksForMore(types, p.states, [Assignment(name, text)])
       <==> r.ok && IsRecursive(name) && r.state.current != Str("")
  {
    var given := [Assignment(name, text)];
    assert given[0] == Assignment(name, text);
    hide ParseFrom, Accepts;
  }

  /** One list of assignments after the other. */
  lemma MakesThen(types: Types, p: Progress, a: seq<Assignment>, x: set<string>, p1: Progress,
                  b: seq<Assignment>, y: set<string>, p2: Progress)
    requires Makes(types, p, a, x, p1) && Makes(types, p1, b, y, p2)
    ensures Makes(types, p, a + b, x + y, p2)
  {
    forall n | n in types
      ensures EndsAs(p.states[n], types[n], Texts(a + b, n), p2.states[n])
      ensures p1.states[n].validator == p.states[n].validator
    {
      EndsThen(p.states[n], types[n], Texts(a, n), p1.states[n], Texts(b, n), p2.states[n]);
      TextsConcat(a, b, n);
    }
    RejectedThen(types, p.states, p1.states, a, b);
    AsksThen(types, p.states, p1.states, a, b);
    hide EndsAs, Rejected, AsksForMore;
  }

  lemma RejectedThen(types: Types, s: States, s1: States, a: seq<Assignment>, b: seq<Assignment>)
    requires Typed(types, s) && Typed(types, s1) && forall n :: n in types ==> s1[n].validator == s[n].validator
    ensures forall n :: Rejected(types, s, a + b, n) <==> Rejected(types, s, a, n) || Rejected(types, s1, b, n)
  {
    var both := a + b;
    forall n, text | n in types ensures Acceptable(s1[n], types[n], text) == Acceptable(s[n], types[n], text) {
      SameTexts(s[n], s1[n], types[n], text);
    }
    hide Acceptable;
    forall n
      ensures Rejected(types, s, both, n) <==> Rejected(types, s, a, n) || Rejected(types, s1, b, n)
    {
      if Rejected(types, s, a, n) {
        var k :| 0 <= k < |a| && a[k].flag == n && n in types && !Acceptable(s[n], types[n], a[k].text);
        assert both[k] == a[k];
      }
      if Rejected(types, s1, b, n) {
        var k :| 0 <= k < |b| && b[k].flag == n && n in types && !Acceptable(s1[n], types[n], b[k].text);
        assert both[|a| + k] == b[k];
      }
    }
  }

  lemma AsksThen(types: Types, s: States, s1: States, a: seq<Assignment>, b: seq<Assignment>)
    requires Typed(types, s) && Typed(types, s1) && forall n :: n in types ==> s1[n].validator == s[n].validator
    ensures AsksForMore(types, s, a + b) <==> AsksForMore(types, s, a) || AsksForMore(types, s1, b)
  {
    var both := a + b;
    forall n, text, v | n in types ensures TextGives(s1[n], types[n], text, v) == TextGives(s[n], types[n], text, v) {
      SameTexts(s[n], s1[n], types[n], text);
    }
    hide TextGives;
    if AsksForMore(types, s, a) {
      var k, v :| 0 <= k < |a| && a[k].flag in RECURSIVE && a[k].flag in types && v != Str("")
        && TextGives(s[a[k].flag], types[a[k].flag], a[k].text, v);
      assert both[k] == a[k];
    }
    if AsksForMore(types, s1, b) {
      var k, v :| 0 <= k < |b| && b[k].flag in RECURSIVE && b[k].flag in types && v != Str("")
        && TextGives(s1[b[k].flag], types[b[k].flag], b[k].text, v);
      assert both[|a| + k] == b[k];
    }
  }
}
