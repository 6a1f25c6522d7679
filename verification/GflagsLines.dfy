/**
  What a text of flags says, read off its lines by position: which lines there are, which of
  them concern this program, and which assignments they make.
 */
module GflagsLines {
  import opened GflagsValues
  import opened GflagsRegistry
  import opened GflagsText
  import opened GflagsAssignments
  import opened Wrappers

  // ----- The lines of a text -------------------------------------------------------------------------

  /** The lines without the white space in front of them. */
  function Lines(text: string): seq<string>
    decreases |text|
  {
    var rest := text[SpaceRun(text)..];
    var k := LineEnd(rest);
    [rest[..k]] + if k == |rest| then [] else Lines(rest[k + 1..])
  }

  predicate StartsLine(line: string) { line != [] && !IsSpace(line[0]) }

  lemma SpacesAreSkipped(c: char, text: string)
    requires c == ' ' || 9 <= c as int <= 13
    ensures Lines([c] + text) == Lines(text)
  {
    assert ([c] + text)[1..] == text;
    SameLines([c] + text, text);
  }

  lemma SameLines(a: string, b: string)
    requires a[SpaceRun(a)..] == b[SpaceRun(b)..]
    ensures Lines(a) == Lines(b)
  {
    hide SpaceRun, LineEnd;
  }

  lemma NoSpaceFirst(text: string)
    requires StartsLine(text)
    ensures SpaceRun(text) == 0
  {
  }

  lemma FirstLineIs(line: string, text: string)
    requires StartsLine(line) && |line| <= |text| && line == text[..|line|] && LineEnd(text) == |line|
    ensures Lines(text) == [line] + if |line| == |text| then [] else Lines(text[|line| + 1..])
  {
    hide Lines, LineEnd;
    NoSpaceFirst(text);
    FirstOfLines(text, |line|);
  }

  lemma FirstOfLines(text: string, k: nat)
    requires SpaceRun(text) == 0 && LineEnd(text) == k
    ensures Lines(text) == [text[..k]] + if k == |text| then [] else Lines(text[k + 1..])
  {
    hide SpaceRun, LineEnd;
    assert text[0..] == text;
  }

  /** A carriage return ends a line, whatever newlines stand before it. */
  lemma ReturnEndsLine(line: string, rest: string)
    requires StartsLine(line) && '\r' !in line
    ensures Lines(line + "\r" + rest) == [line] + Lines(rest)
  {
    var text := line + "\r" + rest;
    assert text[|line|] == '\r' && forall i :: 0 <= i < |line| ==> text[i] == line[i];
    FirstIndexIs(text, '\r', |line|);
    assert text[..|line|] == line;
    FirstLineIs(line, text);
    assert text[|line| + 1..] == rest;
  }

  /** A newline ends a line if no carriage return follows anywhere. */
  lemma NewlineEndsLine(line: string, rest: string)
    requires StartsLine(line) && '\r' !in line && '\n' !in line && '\r' !in rest
    ensures Lines(line + "\n" + rest) == [line] + Lines(rest)
  {
    var text := line + "\n" + rest;
    assert text[|line|] == '\n' && forall i :: 0 <= i < |line| ==> text[i] == line[i];
    assert '\r' !in text;
    FirstIndexIs(text, '\r', |text|);
    FirstIndexIs(text, '\n', |line|);
    assert text[..|line|] == line;
    FirstLineIs(line, text);
    assert text[|line| + 1..] == rest;
  }

  /** The end of the text ends the last line. */
  lemma LastLine(line: string)
    requires (line == "" || StartsLine(line)) && '\r' !in line && '\n' !in line
    ensures Lines(line) == [line]
  {
    FirstIndexIs(line, '\r', |line|);
    FirstIndexIs(line, '\n', |line|);
    if line != "" {
      assert line[..|line|] == line;
      FirstLineIs(line, line);
    }
  }

  // ----- Lines for this program ----------------------------------------------------------------------

  predicate IsFlagLine(line: string) { line != [] && line[0] == '-' }

  /** A line of program names. */
  predicate IsNamesLine(line: string) { line != [] && line[0] != '-' && line[0] != '#' }

  /** Some word between blanks matches. */
  ghost predicate SomeWord(line: string, matches: string -> bool) {
    exists a, b :: 0 <= a <= b <= |line| && IsWord(line, a, b) && matches(line[a..b])
  }

  ghost predicate IsWord(line: string, a: int, b: int) {
    && 0 <= a <= b <= |line| && (forall i :: a <= i < b ==> line[i] != ' ')
    && (a == 0 || line[a - 1] == ' ') && (b == |line| || line[b] == ' ')
  }

  /** The first word ends at k, and the other words are those behind it. */
  lemma WordIn(line: string, k: nat, a: int, b: int)
    requires k == FirstIndex(line, ' ') && IsWord(line, a, b)
    ensures (a == 0 && b == k) || k < a
  {
  }

  lemma WordBehind(line: string, k: nat, a: int, b: int)
    requires k < |line| && line[k] == ' ' && k < a
    ensures IsWord(line, a, b) == IsWord(line[k + 1..], a - k - 1, b - k - 1)
    ensures a <= b <= |line| ==> line[a..b] == line[k + 1..][a - k - 1..b - k - 1]
  {
    var rest := line[k + 1..];
    assert forall i :: 0 <= i < |rest| ==> rest[i] == line[i + k + 1];
    assert forall i :: k < i < |line| ==> line[i] == rest[i - k - 1];
  }

  lemma WordsOf(line: string, k: nat, matches: string -> bool)
    requires k == FirstIndex(line, ' ')
    ensures SomeWord(line, matches)
       <==> matches(line[..k]) || (k < |line| && SomeWord(line[k + 1..], matches))
  {
    hide SomeWord, FirstIndex;
    FirstWordCounts(line, k, matches);
    if SomeWord(line, matches) {
      WordIsFirstOrLater(line, k, matches);
    }
    if k < |line| && SomeWord(line[k + 1..], matches) {
      LaterWordCounts(line, k, matches);
    }
  }

  lemma FirstWordCounts(line: string, k: nat, matches: string -> bool)
    requires k == FirstIndex(line, ' ')
    ensures matches(line[..k]) ==> SomeWord(line, matches)
  {
    assert IsWord(line, 0, k) && line[0..k] == line[..k];
    hide IsWord;
  }

  lemma WordIsFirstOrLater(line: string, k: nat, matches: string -> bool)
    requires k == FirstIndex(line, ' ') && SomeWord(line, matches)
    ensures matches(line[..k]) || (k < |line| && SomeWord(line[k + 1..], matches))
  {
    var a, b :| 0 <= a <= b <= |line| && IsWord(line, a, b) && matches(line[a..b]);
    WordIn(line, k, a, b);
    hide IsWord, FirstIndex;
    if k < a {
      WordBehind(line, k, a, b);
    } else {
      assert line[0..k] == line[..k];
    }
  }

  lemma LaterWordCounts(line: string, k: nat, matches: string -> bool)
    requires k < |line| && line[k] == ' ' && SomeWord(line[k + 1..], matches)
    ensures SomeWord(line, matches)
  {
    hide IsWord;
    var rest := line[k + 1..];
    var a, b :| 0 <= a <= b <= |rest| && IsWord(rest, a, b) && matches(rest[a..b]);
    WordBehind(line, k, a + k + 1, b + k + 1);
  }

  lemma {:induction false} WordsAreWords(line: string, matches: string -> bool)
    ensures SomeMatches(Words(line), matches) <==> SomeWord(line, matches)
    decreases |line|
  {
    var k := FirstIndex(line, ' ');
    WordsOf(line, k, matches);
    hide SomeWord, FirstIndex;
    if k < |line| {
      WordsAreWords(line[k + 1..], matches);
      assert Words(line)[1..] == Words(line[k + 1..]);
    } else {
      assert line[..k] == line && Words(line)[1..] == [];
    }
  }

  /** The names at j belong to the last list of names before k: behind a flag that follows
      them there are no other names. */
  predicate Heads(lines: seq<string>, j: nat, k: nat)
    requires j < k <= |lines|
  {
    IsNamesLine(lines[j])
    && forall h, i :: j < h < i < k && IsFlagLine(lines[h]) ==> !IsNamesLine(lines[i])
  }

  /** Line k is read: no names come before it, or one of the last list of names matches. */
  ghost predicate Relevant(lines: seq<string>, k: nat, matches: string -> bool)
    requires k <= |lines|
  {
    (forall j :: 0 <= j < k ==> !IsNamesLine(lines[j]))
    || exists j :: 0 <= j < k && Heads(lines, j, k) && SomeWord(lines[j], matches)
  }

  /** Names have come, and no flag after them. */
  ghost predicate AmongNames(lines: seq<string>, k: nat)
    requires k <= |lines|
  {
    exists j :: 0 <= j < k && IsNamesLine(lines[j]) && forall h :: j < h < k ==> !IsFlagLine(lines[h])
  }

  /** The assignment a flag line makes: flags that do not exist and missing values are passed over. */
  function AssignmentOf(types: Types, line: string): seq<Assignment>
    requires IsFlagLine(line)
  {
    var split := SplitArgument(types, StripDashes(line));
    if split.Found? && split.value.Some? then [Assignment(split.flag, split.value.value)] else []
  }

  /** The assignments of the first k lines, in their order. */
  ghost function GivenBy(types: Types, lines: seq<string>, k: nat, matches: string -> bool): seq<Assignment>
    requires k <= |lines|
  {
    if k == 0 then []
    else
      GivenBy(types, lines, k - 1, matches) +
      if IsFlagLine(lines[k - 1]) && Relevant(lines, k - 1, matches) then AssignmentOf(types, lines[k - 1]) else []
  }

  // ----- Reading is making these assignments ----------------------------------------------------------

  /** The state of the reader after the first k lines. */
  function After(types: Types, r: Reading, lines: seq<string>, k: nat, matches: string -> bool): (r': Reading)
    requires Typed(types, r.progress.states) && k <= |lines|
    ensures Typed(types, r'.progress.states)
  {
    if k == 0 then r else ProcessLine(types, After(types, r, lines, k - 1, matches), lines[k - 1], SetValue, matches)
  }

  lemma {:induction false} AfterFirst(types: Types, r: Reading, lines: seq<string>, k: nat, matches: string -> bool)
    requires Typed(types, r.progress.states) && 1 <= k <= |lines|
    ensures After(types, r, lines, k, matches)
         == After(types, ProcessLine(types, r, lines[0], SetValue, matches), lines[1..], k - 1, matches)
  {
    hide ProcessLine;
    if k == 1 {
      assert After(types, r, lines, 0, matches) == r;
    } else {
      AfterFirst(types, r, lines, k - 1, matches);
    }
  }

  lemma AfterNothing(types: Types, r: Reading, matches: string -> bool)
    requires Typed(types, r.progress.states)
    ensures After(types, r, [], 0, matches) == r
  {
  }

  lemma {:induction false} TextIsLines(types: Types, r: Reading, text: string, matches: string -> bool)
    requires Typed(types, r.progress.states)
    ensures ProcessText(types, r, text, SetValue, matches) == After(types, r, Lines(text), |Lines(text)|, matches)
    decreases |text|
  {
    hide ProcessLine, SpaceRun, LineEnd, After;
    var rest := text[SpaceRun(text)..];
    var k := LineEnd(rest);
    var lines := Lines(text);
    var after := ProcessLine(types, r, rest[..k], SetValue, matches);
    AfterNothing(types, after, matches);
    AfterFirst(types, r, lines, |lines|, matches);
    if k < |rest| {
      TextIsLines(types, after, rest[k + 1..], matches);
      assert lines[1..] == Lines(rest[k + 1..]);
    } else {
      assert lines[1..] == [];
    }
  }

  lemma NextNames(lines: seq<string>, k: nat, matches: string -> bool)
    requires k < |lines| && IsNamesLine(lines[k])
    ensures Relevant(lines, k + 1, matches)
       <==> (AmongNames(lines, k) && Relevant(lines, k, matches)) || SomeWord(lines[k], matches)
    ensures AmongNames(lines, k + 1)
  {
    assert Heads(lines, k, k + 1);
    assert AmongNames(lines, k) ==> exists j :: 0 <= j < k && IsNamesLine(lines[j]);
    hide SomeWord, Heads, AmongNames, IsNamesLine;
    if Relevant(lines, k + 1, matches) && !SomeWord(lines[k], matches) {
      var j :| 0 <= j < k + 1 && Heads(lines, j, k + 1) && SomeWord(lines[j], matches);
      HeadsOn(lines, j, k);
      assert Relevant(lines, k, matches);
    }
    if AmongNames(lines, k) && Relevant(lines, k, matches) {
      var j :| 0 <= j < k && Heads(lines, j, k) && SomeWord(lines[j], matches);
      HeadsOn(lines, j, k);
      assert Relevant(lines, k + 1, matches);
    }
  }

  /** More names go on with the list only if no flag has come. */
  lemma HeadsOn(lines: seq<string>, j: nat, k: nat)
    requires j < k < |lines| && IsNamesLine(lines[k])
    ensures Heads(lines, j, k + 1) <==> AmongNames(lines, k) && Heads(lines, j, k)
  {
    if AmongNames(lines, k) && Heads(lines, j, k) {
      var j0 :| 0 <= j0 < k && IsNamesLine(lines[j0]) && forall h :: j0 < h < k ==> !IsFlagLine(lines[h]);
      forall h | j < h < k
        ensures !IsFlagLine(lines[h])
      {
        assert IsNamesLine(lines[j0]);
      }
    }
    if Heads(lines, j, k + 1) {
      forall h | j < h < k ensures !IsFlagLine(lines[h]) {
        assert IsNamesLine(lines[k]);
      }
    }
  }

  lemma NextOther(lines: seq<string>, k: nat, matches: string -> bool)
    requires k < |lines| && !IsNamesLine(lines[k])
    ensures Relevant(lines, k + 1, matches) == Relevant(lines, k, matches)
    ensures AmongNames(lines, k + 1) == (AmongNames(lines, k) && !IsFlagLine(lines[k]))
  {
    OtherNames(lines, k);
    hide SomeWord, IsNamesLine, Heads, AmongNames;
    if exists j :: 0 <= j < k + 1 && Heads(lines, j, k + 1) && SomeWord(lines[j], matches) {
      var j :| 0 <= j < k + 1 && Heads(lines, j, k + 1) && SomeWord(lines[j], matches);
      SameHeads(lines, j, k);
    }
    if exists j :: 0 <= j < k && Heads(lines, j, k) && SomeWord(lines[j], matches) {
      var j :| 0 <= j < k && Heads(lines, j, k) && SomeWord(lines[j], matches);
      SameHeads(lines, j, k);
    }
  }

  lemma SameHeads(lines: seq<string>, j: nat, k: nat)
    requires j <= k < |lines| && !IsNamesLine(lines[k])
    ensures Heads(lines, j, k + 1) <==> j < k && Heads(lines, j, k)
  {
    hide IsNamesLine, IsFlagLine;
  }

  lemma OtherNames(lines: seq<string>, k: nat)
    requires k < |lines| && !IsNamesLine(lines[k])
    ensures AmongNames(lines, k + 1) == (AmongNames(lines, k) && !IsFlagLine(lines[k]))
  {
    hide IsNamesLine, IsFlagLine;
    if AmongNames(lines, k) && !IsFlagLine(lines[k]) {
      var j :| 0 <= j < k && IsNamesLine(lines[j]) && forall h :: j < h < k ==> !IsFlagLine(lines[h]);
      assert 0 <= j < k + 1 && IsNamesLine(lines[j]) && forall h :: j < h < k + 1 ==> !IsFlagLine(lines[h]);
    }
  }

  ghost predicate Stands(types: Types, p: Progress, lines: seq<string>, k: nat, r: Reading, matches: string -> bool) {
    && k <= |lines| && r.relevant == Relevant(lines, k, matches) && r.inSection == AmongNames(lines, k)
    && Makes(types, p, GivenBy(types, lines, k, matches), {}, r.progress)
  }

  lemma NoLinesYet(types: Types, p: Progress, lines: seq<string>, matches: string -> bool)
    requires Typed(types, p.states)
    ensures Stands(types, p, lines, 0, Reading(p, true, false), matches)
  {
    MakesNothing(types, p, {});
    assert p.failed + {} == p.failed;
    hide Makes;
  }

  /** After any number of lines, what has been done is what they assign. */
  lemma {:induction false} LinesAssign(types: Types, p: Progress, lines: seq<string>, k: nat, matches: string -> bool)
    requires Typed(types, p.states) && k <= |lines|
    ensures Stands(types, p, lines, k, After(types, Reading(p, true, false), lines, k, matches), matches)
  {
    hide Stands, ProcessLine;
    if k == 0 {
      NoLinesYet(types, p, lines, matches);
    } else {
      LinesAssign(types, p, lines, k - 1, matches);
      LineAssigns(types, p, lines, k - 1, After(types, Reading(p, true, false), lines, k - 1, matches), matches);
    }
  }

  lemma LineAssigns(types: Types, p: Progress, lines: seq<string>, k: nat, r: Reading, matches: string -> bool)
    requires k < |lines| && Stands(types, p, lines, k, r, matches) && Typed(types, r.progress.states)
    ensures Stands(types, p, lines, k + 1, ProcessLine(types, r, lines[k], SetValue, matches), matches)
  {
    var line := lines[k];
    WordsAreWords(line, matches);
    if IsNamesLine(line) {
      NextNames(lines, k, matches);
    } else {
      NextOther(lines, k, matches);
    }
    hide Relevant, AmongNames, SomeWord, Words, SomeMatches, Makes;
    var given := GivenBy(types, lines, k, matches);
    assert given + [] == given;
    if IsFlagLine(line) && r.relevant {
      FlagLineAssigns(types, p, given, r, line, matches);
    }
    hide ProcessOne, SplitArgument;
  }

  lemma FlagLineAssigns(types: Types, p: Progress, given: seq<Assignment>, r: Reading, line: string, matches: string -> bool)
    requires Typed(types, r.progress.states) && Makes(types, p, given, {}, r.progress) && IsFlagLine(line) && r.relevant
    ensures Makes(types, p, given + AssignmentOf(types, line), {}, ProcessLine(types, r, line, SetValue, matches).progress)
  {
    hide Makes, ProcessOne;
    var split := SplitArgument(types, StripDashes(line));
    hide SplitArgument;
    var none: set<string> := {};
    assert given + [] == given && none + none == none;
    if split.Found? && split.value.Some? {
      MakesOne(types, r.progress, split.flag, split.value.value);
      MakesThen(types, p, given, {}, r.progress, AssignmentOf(types, line), {},
                ProcessOne(types, r.progress, split.flag, split.value.value, SetValue));
    }
  }

  /** Everything a text of flags assigns. */
  ghost function TextGiven(types: Types, content: string, matches: string -> bool): seq<Assignment> {
    var lines := Lines(CStr(content));
    GivenBy(types, lines, |lines|, matches)
  }

  /** Reading a text makes the assignments of its relevant flag lines, in their order, and no
      others; what it notes as an error is exactly the flags given a text they do not accept. */
  lemma TextAssigns(types: Types, states: States, content: string, matches: string -> bool)
    requires Typed(types, states)
    ensures Makes(types, Progress(states, {}, false), TextGiven(types, content, matches), {},
                  ReadAll(types, states, content, SetValue, matches))
  {
    var lines, p := Lines(CStr(content)), Progress(states, {}, false);
    TextIsLines(types, Reading(p, true, false), CStr(content), matches);
    LinesAssign(types, p, lines, |lines|, matches);
    hide Lines, Makes, GivenBy, After, ProcessText;
  }
}
