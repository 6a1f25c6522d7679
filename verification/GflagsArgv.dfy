/**
  ParseNewCommandLineFlags: one pass over argv that sets flags, moves the program arguments
  behind them in place, and stops at "--".
 */
module GflagsArgv {
  import opened GflagsValues
  import opened GflagsRegistry
  import opened GflagsText
  import opened GflagsAssignments
  import opened GflagsParser
  import opened Wrappers

  // ----- What one pass finds -----------------------------------------------------------------------

  /** "-" and everything that does not start with a dash, the empty string included. */
  predicate IsProgramArgument(a: string) {
    a == "" || a[0] != '-' || |a| == 1
  }

  /** `kept` stays in front, `rest` was never looked at, `moved` goes to the end. */
  datatype Pass = Pass(kept: seq<string>, rest: seq<string>, moved: seq<string>, progress: Progress)

  function Failed(p: Progress, key: string): Progress {
    p.(failed := p.failed + {key})
  }

  /** The pass over the arguments after the program name. */
  function Scan(types: Types, p: Progress, args: seq<string>): (r: Pass)
    requires Typed(types, p.states)
    decreases |args|
  {
    if args == [] then Pass([], [], [], p)
    else if IsProgramArgument(args[0]) then
      var r := Scan(types, p, args[1..]);
      r.(moved := [args[0]] + r.moved)
    else
      var body := StripDashes(args[0]);
      if body == "" then Pass([args[0]], args[1..], [], p)
      else
        var split := SplitArgument(types, body);
        if split.NoFlag? then
          var r := Scan(types, Failed(p, split.key), args[1..]);
          r.(kept := [args[0]] + r.kept)
        else if split.value.Some? then
          var r := Scan(types, ProcessOne(types, p, split.flag, split.value.value, SetValue), args[1..]);
          r.(kept := [args[0]] + r.kept)
        else if |args| == 1 then Pass([args[0]], [], [], Failed(p, split.key))
        else
          var r := Scan(types, ProcessOne(types, p, split.flag, args[1], SetValue), args[2..]);
          r.(kept := [args[0], args[1]] + r.kept)
  }

  // ----- The promises of the pass --------------------------------------------------------------------

  /** c is a and b merged, each in its own order. */
  predicate Merged(a: seq<string>, b: seq<string>, c: seq<string>)
    decreases |c|
  {
    if c == [] then a == [] && b == []
    else (a != [] && a[0] == c[0] && Merged(a[1..], b, c[1..])) || (b != [] && b[0] == c[0] && Merged(a, b[1..], c[1..]))
  }

  /** "--" or, as the code strips one or two dashes, only that. */
  predicate IsTerminator(a: string) {
    !IsProgramArgument(a) && StripDashes(a) == ""
  }

  /** What kind of argument each string is: "-" is the program's own, only "--" ends the options,
      and one or two dashes are stripped from the others. */
  lemma ArgumentShapes(a: string)
    ensures IsProgramArgument(a) <==> a == "" || a == "-" || a[0] != '-'
    ensures IsTerminator(a) <==> a == "--"
    ensures StripDashes("--" + a) == a && (a != "" && a[0] != '-' ==> StripDashes("-" + a) == a)
  {
    assert ("--" + a)[2..] == a && ("-" + a)[1..] == a;
    if |a| == 2 && a[0] == '-' && a[1] == '-' {
      assert a == "--" && a[2..] == "";
    }
  }

  /** The arguments before the unscanned tail. */
  function Scanned(args: seq<string>, r: Pass): seq<string>
    requires |r.rest| <= |args|
  {
    args[..|args| - |r.rest|]
  }

  /** How the pass over args follows from the pass over what is left after `n` of them. */
  predicate Extends(args: seq<string>, n: nat, r: Pass, tail: Pass) {
    && 1 <= n <= |args| && r.rest == tail.rest
    && if IsProgramArgument(args[0]) then n == 1 && r.kept == tail.kept && r.moved == args[..1] + tail.moved
       else r.kept == args[..n] + tail.kept && r.moved == tail.moved
  }

  /** An option that takes the next argument as its value. */
  predicate NeedsValue(types: Types, a: string) {
    !IsProgramArgument(a) && StripDashes(a) != ""
    && var split := SplitArgument(types, StripDashes(a)); split.Found? && split.value.None?
  }

  /** The first argument makes its assignment or notes its error. */
  ghost predicate FirstDoes(types: Types, p: Progress, args: seq<string>, p': Progress)
    requires Typed(types, p.states) && args != []
  {
    Typed(types, p'.states)
    && if GivenAt(types, args, 0) == [] then p' == p.(failed := p.failed + UnknownAt(types, args, 0))
       else
         var a := GivenAt(types, args, 0)[0];
         GivenAt(types, args, 0) == [a] && a.flag in types && UnknownAt(types, args, 0) == {}
         && p' == ProcessOne(types, p, a.flag, a.text, SetValue)
  }

  /** The cases of the pass: it ends, or it goes on after one or two arguments. */
  lemma ScanCases(types: Types, p: Progress, args: seq<string>) returns (n: nat, p': Progress)
    requires Typed(types, p.states) && args != []
    ensures n == 0 || (1 <= n <= 2 && n <= |args|)
    ensures FirstDoes(types, p, args, p') && Typed(types, p'.states)
    ensures n == 0 ==> Scan(types, p, args).progress == p' && Scan(types, p, args).rest == args[1..]
    ensures n > 0 ==> var tail := Scan(types, p', args[n..]);
      Scan(types, p, args).progress == tail.progress && Scan(types, p, args).rest == tail.rest
    ensures var r := Scan(types, p, args);
      if n == 0 then
        && !IsProgramArgument(args[0]) && (IsTerminator(args[0]) || (NeedsValue(types, args[0]) && |args| == 1))
        && r.kept == args[..1] && r.rest == args[1..] && r.moved == []
      else
        && !IsTerminator(args[0]) && (n == 2 <==> NeedsValue(types, args[0]))
        && Extends(args, n, r, Scan(types, p', args[n..]))
  {
    assert args[..1] == [args[0]];
    n, p' := 1, p;
    if !IsProgramArgument(args[0]) {
      var body := StripDashes(args[0]);
      var split := SplitArgument(types, body);
      if body == "" {
        n := 0;
      } else if split.NoFlag? {
        p' := Failed(p, split.key);
      } else if split.value.Some? {
        p' := ProcessOne(types, p, split.flag, split.value.value, SetValue);
      } else if |args| == 1 {
        n, p' := 0, Failed(p, split.key);
        assert args[1..] == [];
      } else {
        n, p' := 2, ProcessOne(types, p, split.flag, args[1], SetValue);
        assert args[..2] == [args[0], args[1]];
      }
    }
  }

  /** What was scanned is the kept and the moved arguments, each in their original order; the
      rest is the tail behind a terminator. */
  lemma {:induction false} ScanMerges(types: Types, p: Progress, args: seq<string>)
    requires Typed(types, p.states)
    ensures var r := Scan(types, p, args);
      && |r.rest| <= |args| && r.rest == args[|args| - |r.rest|..]
      && Merged(r.kept, r.moved, Scanned(args, r))
    decreases |args|
  {
    if args != [] {
      hide NeedsValue, IsTerminator, IsProgramArgument, Extends;
      var n, p' := ScanCases(types, p, args);
      var r := Scan(types, p, args);
      hide Scan;
      if n == 0 {
        FirstKept(args, r);
      } else {
        ScanMerges(types, p', args[n..]);
        ExtendedMerge(args, n, r, Scan(types, p', args[n..]));
      }
    }
  }

  lemma FirstKept(args: seq<string>, r: Pass)
    requires args != [] && r.kept == args[..1] && r.rest == args[1..] && r.moved == []
    ensures Merged(r.kept, r.moved, Scanned(args, r))
  {
    assert Scanned(args, r) == args[..1];
  }

  lemma ExtendedMerge(args: seq<string>, n: nat, r: Pass, tail: Pass)
    requires Extends(args, n, r, tail)
    requires |tail.rest| <= |args| - n && tail.rest == args[n..][|args| - n - |tail.rest|..]
    requires Merged(tail.kept, tail.moved, Scanned(args[n..], tail))
    ensures r.rest == args[|args| - |r.rest|..] && Merged(r.kept, r.moved, Scanned(args, r))
  {
    assert Scanned(args, r) == args[..n] + Scanned(args[n..], tail);
    if r.moved == tail.moved && r.kept == args[..n] + tail.kept {
      MergeKept(args[..n], tail.kept, tail.moved, Scanned(args[n..], tail));
    } else {
      assert args[..1] == [args[0]];
      MergeMoved(args[0], tail.kept, tail.moved, Scanned(args[n..], tail));
    }
  }

  lemma {:induction false} MergeKept(x: seq<string>, a: seq<string>, b: seq<string>, c: seq<string>)
    requires Merged(a, b, c)
    ensures Merged(x + a, b, x + c)
  {
    if x == [] {
      assert x + a == a && x + c == c;
    } else {
      MergeKept(x[1..], a, b, c);
      assert (x + a)[1..] == x[1..] + a && (x + c)[1..] == x[1..] + c;
    }
  }

  lemma MergeMoved(x: string, a: seq<string>, b: seq<string>, c: seq<string>)
    requires Merged(a, b, c)
    ensures Merged(a, [x] + b, [x] + c)
  {
    assert ([x] + b)[1..] == b && ([x] + c)[1..] == c;
  }

  lemma {:induction false} MergedContents(a: seq<string>, b: seq<string>, c: seq<string>)
    requires Merged(a, b, c)
    ensures multiset(a) + multiset(b) == multiset(c)
    decreases |c|
  {
    if c != [] {
      assert c == [c[0]] + c[1..];
      if a != [] && a[0] == c[0] && Merged(a[1..], b, c[1..]) {
        assert a == [a[0]] + a[1..];
        MergedContents(a[1..], b, c[1..]);
      } else {
        assert b == [b[0]] + b[1..];
        MergedContents(a, b[1..], c[1..]);
      }
    }
  }

  /** No argument is lost or doubled. */
  lemma ScanPermutes(types: Types, p: Progress, args: seq<string>)
    requires Typed(types, p.states)
    ensures var r := Scan(types, p, args); multiset(r.kept + r.rest + r.moved) == multiset(args)
  {
    ScanMerges(types, p, args);
    var r := Scan(types, p, args);
    hide Scan, Merged;
    MergedContents(r.kept, r.moved, Scanned(args, r));
    assert args == Scanned(args, r) + r.rest;
  }

  /** Only program arguments are moved, and only a terminator leaves a tail unscanned. */
  lemma {:induction false} ScanMovesArguments(types: Types, p: Progress, args: seq<string>)
    requires Typed(types, p.states)
    ensures var r := Scan(types, p, args);
      && (forall a :: a in r.moved ==> IsProgramArgument(a))
      && (r.rest != [] ==> r.kept != [] && IsTerminator(r.kept[|r.kept| - 1]))
    decreases |args|
  {
    hide FirstDoes, NeedsValue, Typed;
    if args != [] {
      var n, p' := ScanCases(types, p, args);
      if n > 0 {
        ScanMovesArguments(types, p', args[n..]);
      }
    }
  }

  // ----- Which arguments are moved, read off the command line ------------------------------------------

  /** The argument at k is the value of the option directly before it. */
  predicate ValueAt(types: Types, args: seq<string>, k: nat)
    requires k <= |args|
  {
    k > 0 && NeedsValue(types, args[k - 1]) && !ValueAt(types, args, k - 1)
  }

  /** "--" that is not the value of an option. */
  predicate TerminatorAt(types: Types, args: seq<string>, k: nat)
    requires k < |args|
  {
    IsTerminator(args[k]) && !ValueAt(types, args, k)
  }

  /** A program argument that is not the value of an option. */
  predicate ArgumentAt(types: Types, args: seq<string>, k: nat)
    requires k < |args|
  {
    IsProgramArgument(args[k]) && !ValueAt(types, args, k)
  }

  /** Of the first n arguments, in their order, the program's own or all the others. */
  function Picked(types: Types, args: seq<string>, n: nat, own: bool): seq<string>
    requires n <= |args|
  {
    if n == 0 then []
    else Picked(types, args, n - 1, own) + if ArgumentAt(types, args, n - 1) == own then [args[n - 1]] else []
  }

  /** The first n arguments are those up to the first terminator. */
  ghost predicate ScannedTo(types: Types, args: seq<string>, n: nat) {
    && n <= |args|
    && (forall k :: 0 <= k < n - 1 ==> !TerminatorAt(types, args, k))
    && (n < |args| ==> n > 0 && TerminatorAt(types, args, n - 1))
  }

  /** Behind a place that is not a value, nothing depends on what came before. */
  lemma {:induction false} ValueBehind(types: Types, args: seq<string>, m: nat, k: nat)
    requires m + k <= |args| && !ValueAt(types, args, m)
    ensures ValueAt(types, args, m + k) == ValueAt(types, args[m..], k)
  {
    hide NeedsValue;
    if k > 0 {
      ValueBehind(types, args, m, k - 1);
      assert args[m..][k - 1] == args[m + k - 1];
    }
  }

  lemma {:induction false} PickedBehind(types: Types, args: seq<string>, m: nat, n: nat, own: bool)
    requires m <= n <= |args| && !ValueAt(types, args, m)
    ensures Picked(types, args, n, own) == Picked(types, args, m, own) + Picked(types, args[m..], n - m, own)
    decreases n
  {
    hide ValueAt, IsProgramArgument;
    if m < n {
      PickedBehind(types, args, m, n - 1, own);
      ValueBehind(types, args, m, n - 1 - m);
      assert args[m..][n - 1 - m] == args[n - 1];
      var before, part := Picked(types, args, m, own), Picked(types, args[m..], n - 1 - m, own);
      var last := if ArgumentAt(types, args, n - 1) == own then [args[n - 1]] else [];
      assert before + part + last == before + (part + last);
    } else {
      assert Picked(types, args, m, own) + [] == Picked(types, args, m, own);
    }
  }

  lemma ScannedBehind(types: Types, args: seq<string>, m: nat, n: nat)
    requires 1 <= m <= |args| && !ValueAt(types, args, m) && ScannedTo(types, args[m..], n)
    requires forall k :: 0 <= k < m ==> !TerminatorAt(types, args, k)
    ensures ScannedTo(types, args, m + n)
  {
    hide ValueAt, IsTerminator;
    forall k | m <= k < |args|
      ensures TerminatorAt(types, args, k) == TerminatorAt(types, args[m..], k - m)
    {
      ValueBehind(types, args, m, k - m);
      assert args[m..][k - m] == args[k];
    }
  }

  /** The pass, without its progress: it scans up to the first "--" and moves exactly the
      program arguments that are no option's value. */
  ghost predicate Sorted(types: Types, args: seq<string>, r: Pass) {
    && |r.rest| <= |args|
    && var n: nat := |args| - |r.rest|;
    && ScannedTo(types, args, n) && r.rest == args[n..]
    && r.moved == Picked(types, args, n, true)
    && r.kept == Picked(types, args, n, false)
  }

  /** For every command line: what moves behind the options is the program's own arguments, all
      of them up to the first "--", in their order; everything else scanned stays in front. */
  lemma {:induction false} ScanSorts(types: Types, p: Progress, args: seq<string>)
    requires Typed(types, p.states)
    ensures Sorted(types, args, Scan(types, p, args))
    decreases |args|
  {
    if args != [] {
      var m, p' := ScanCases(types, p, args);
      var r := Scan(types, p, args);
      FirstPicked(types, args, m);
      hide Scan, NeedsValue, IsProgramArgument, IsTerminator;
      if m == 0 {
        LastScanned(types, args, r);
      } else {
        ScanSorts(types, p', args[m..]);
        SortedOn(types, args, m, r, Scan(types, p', args[m..]));
      }
    }
  }

  lemma FirstPicked(types: Types, args: seq<string>, m: nat)
    requires args != [] && m <= 2 && m <= |args|
    requires m > 0 ==> (m == 2 <==> NeedsValue(types, args[0]))
    ensures Picked(types, args, 1, true) == if IsProgramArgument(args[0]) then args[..1] else []
    ensures Picked(types, args, 1, false) == if IsProgramArgument(args[0]) then [] else args[..1]
    ensures !ValueAt(types, args, 0) && (m > 0 ==> !ValueAt(types, args, m))
    ensures m == 2 ==> Picked(types, args, 2, true) == [] && Picked(types, args, 2, false) == args[..2]
    ensures m == 2 ==> !TerminatorAt(types, args, 1)
  {
    assert args[..1] == [args[0]];
    assert Picked(types, args, 0, true) == [] && Picked(types, args, 0, false) == [];
    if m == 2 {
      assert args[..2] == [args[0], args[1]];
      assert ValueAt(types, args, 1);
    }
  }

  lemma LastScanned(types: Types, args: seq<string>, r: Pass)
    requires args != [] && r.kept == args[..1] && r.rest == args[1..] && r.moved == [] && !IsProgramArgument(args[0])
    requires IsTerminator(args[0]) || |args| == 1
    requires Picked(types, args, 1, true) == [] && Picked(types, args, 1, false) == args[..1]
    ensures Sorted(types, args, r)
  {
    assert !ValueAt(types, args, 0);
  }

  lemma SortedOn(types: Types, args: seq<string>, m: nat, r: Pass, tail: Pass)
    requires 1 <= m <= 2 && Extends(args, m, r, tail) && Sorted(types, args[m..], tail)
    requires !ValueAt(types, args, m) && !IsTerminator(args[0]) && (m == 2 ==> !TerminatorAt(types, args, 1))
    requires Picked(types, args, m, true) == if IsProgramArgument(args[0]) then args[..m] else []
    requires Picked(types, args, m, false) == if IsProgramArgument(args[0]) then [] else args[..m]
    ensures Sorted(types, args, r)
  {
    hide ValueAt, IsTerminator, NeedsValue, IsProgramArgument, Picked, ScannedTo;
    var rest := args[m..];
    var n: nat := |rest| - |tail.rest|;
    NoEarlyEnd(types, args, m);
    ScannedBehind(types, args, m, n);
    PickedBehind(types, args, m, m + n, true);
    PickedBehind(types, args, m, m + n, false);
    assert rest[n..] == args[m + n..];
    assert [] + tail.kept == tail.kept && [] + tail.moved == tail.moved;
    assert m == 1 || !IsProgramArgument(args[0]);
    assert r.moved == Picked(types, args, m + n, true);
    assert r.kept == Picked(types, args, m + n, false);
  }

  lemma NoEarlyEnd(types: Types, args: seq<string>, m: nat)
    requires 1 <= m <= 2 && m <= |args| && !IsTerminator(args[0]) && (m == 2 ==> !TerminatorAt(types, args, 1))
    ensures forall k :: 0 <= k < m ==> !TerminatorAt(types, args, k)
  {
  }

  /** What ends up behind the options: the unscanned tail and the program's own arguments; with
      no "--" there is no tail, and they are all of the program's own. */
  ghost predicate OwnBehind(types: Types, args: seq<string>, r: Pass, suffix: seq<string>) {
    && Sorted(types, args, r) && suffix == r.rest + r.moved
    && ((forall k :: 0 <= k < |args| ==> !TerminatorAt(types, args, k)) ==> suffix == Picked(types, args, |args|, true))
  }

  lemma SuffixIsOwn(types: Types, p: Progress, args: seq<string>)
    requires Typed(types, p.states)
    ensures var r := Scan(types, p, args); OwnBehind(types, args, r, r.rest + r.moved)
  {
    ScanSorts(types, p, args);
    var r := Scan(types, p, args);
    hide TerminatorAt, Picked, Scan;
    assert [] + r.moved == r.moved;
  }

  // ----- Which flags are set, read off the command line --------------------------------------------------

  /** An argument that is neither the program's own, nor "--", nor the value of an option. */
  predicate OptionAt(types: Types, args: seq<string>, k: nat)
    requires k < |args|
  {
    !IsProgramArgument(args[k]) && !IsTerminator(args[k]) && !ValueAt(types, args, k)
  }

  /** What the argument at k assigns: the value it carries, or the argument behind it. */
  function GivenAt(types: Types, args: seq<string>, k: nat): seq<Assignment>
    requires k < |args|
  {
    if !OptionAt(types, args, k) then []
    else match SplitArgument(types, StripDashes(args[k]))
      case NoFlag(_, _) => []
      case Found(flag, _, Some(value)) => [Assignment(flag, value)]
      case Found(flag, _, None) => if k + 1 < |args| then [Assignment(flag, args[k + 1])] else []
  }

  /** The name it gives an error to: no flag has it, or its value is missing at the very end. */
  function UnknownAt(types: Types, args: seq<string>, k: nat): set<string>
    requires k < |args|
  {
    if !OptionAt(types, args, k) then {}
    else match SplitArgument(types, StripDashes(args[k]))
      case NoFlag(key, _) => {key}
      case Found(_, key, value) => if value.None? && k + 1 == |args| then {key} else {}
  }

  /** The assignments of the first n arguments, in their order, and the names in error. */
  function Given(types: Types, args: seq<string>, n: nat): seq<Assignment>
    requires n <= |args|
  {
    if n == 0 then [] else Given(types, args, n - 1) + GivenAt(types, args, n - 1)
  }

  function Unknown(types: Types, args: seq<string>, n: nat): set<string>
    requires n <= |args|
  {
    if n == 0 then {} else Unknown(types, args, n - 1) + UnknownAt(types, args, n - 1)
  }

  lemma OneBehind(types: Types, args: seq<string>, m: nat, k: nat)
    requires m <= k < |args| && !ValueAt(types, args, m)
    ensures GivenAt(types, args, k) == GivenAt(types, args[m..], k - m)
    ensures UnknownAt(types, args, k) == UnknownAt(types, args[m..], k - m)
  {
    hide ValueAt, IsProgramArgument, IsTerminator, SplitArgument, StripDashes;
    ValueBehind(types, args, m, k - m);
    assert args[m..][k - m] == args[k] && (k + 1 < |args| ==> args[m..][k - m + 1] == args[k + 1]);
  }

  lemma {:induction false} GivenBehind(types: Types, args: seq<string>, m: nat, n: nat)
    requires m <= n <= |args| && !ValueAt(types, args, m)
    ensures Given(types, args, n) == Given(types, args, m) + Given(types, args[m..], n - m)
    ensures Unknown(types, args, n) == Unknown(types, args, m) + Unknown(types, args[m..], n - m)
    decreases n
  {
    hide GivenAt, UnknownAt;
    if m < n {
      GivenBehind(types, args, m, n - 1);
      OneBehind(types, args, m, n - 1);
    } else {
      assert Given(types, args, m) + [] == Given(types, args, m);
    }
  }

  /** From p to p' the first n arguments have done what they say, and nothing else. */
  ghost predicate Starts(types: Types, p: Progress, args: seq<string>, n: int, p': Progress) {
    0 <= n <= |args| && Makes(types, p, Given(types, args, n), Unknown(types, args, n), p')
  }

  /** The same for everything that was scanned. */
  ghost predicate Follows(types: Types, p: Progress, args: seq<string>, r: Pass) {
    Starts(types, p, args, |args| - |r.rest|, r.progress)
  }

  lemma FirstGiven(types: Types, args: seq<string>, n: nat)
    requires 1 <= n <= 2 && n <= |args| && (n == 2 ==> NeedsValue(types, args[0]))
    ensures Given(types, args, n) == GivenAt(types, args, 0) && Unknown(types, args, n) == UnknownAt(types, args, 0)
  {
    assert Given(types, args, 0) == [] && Unknown(types, args, 0) == {};
    assert Given(types, args, 1) == GivenAt(types, args, 0) && Unknown(types, args, 1) == UnknownAt(types, args, 0);
    if n == 2 {
      assert ValueAt(types, args, 1);
      assert GivenAt(types, args, 1) == [] && UnknownAt(types, args, 1) == {};
    }
  }

  lemma FirstStarts(types: Types, p: Progress, args: seq<string>, n: nat, p': Progress)
    requires Typed(types, p.states) && args != [] && 1 <= n <= 2 && n <= |args| && (n == 2 ==> NeedsValue(types, args[0]))
    requires FirstDoes(types, p, args, p')
    ensures Starts(types, p, args, n, p')
  {
    FirstGiven(types, args, n);
    hide Makes, ProcessOne, GivenAt, UnknownAt, Given, Unknown;
    MakesNothing(types, p, UnknownAt(types, args, 0));
    if GivenAt(types, args, 0) != [] {
      var a := GivenAt(types, args, 0)[0];
      MakesOne(types, p, a.flag, a.text);
    }
  }

  lemma NotAValue(types: Types, args: seq<string>, m: nat)
    requires 1 <= m <= 2 && m <= |args| && (m == 2 <==> NeedsValue(types, args[0]))
    ensures !ValueAt(types, args, m)
  {
    hide NeedsValue;
    assert !ValueAt(types, args, 0);
  }

  lemma NothingStarts(types: Types, p: Progress)
    requires Typed(types, p.states)
    ensures Starts(types, p, [], 0, p)
  {
    MakesNothing(types, p, {});
    assert p.failed + {} == p.failed;
    hide Makes;
  }

  lemma StartsThen(types: Types, p: Progress, args: seq<string>, m: nat, p1: Progress, n: int, p2: Progress)
    requires m <= |args| && !ValueAt(types, args, m)
    requires Starts(types, p, args, m, p1) && Starts(types, p1, args[m..], n, p2)
    ensures Starts(types, p, args, m + n, p2)
  {
    hide Makes, ValueAt, Given, Unknown;
    GivenBehind(types, args, m, m + n);
    MakesThen(types, p, Given(types, args, m), Unknown(types, args, m), p1,
              Given(types, args[m..], n), Unknown(types, args[m..], n), p2);
  }

  /** Every flag ends as the command line says: it has the last value given to it up to the
      first "--" that it accepts; the names in error are those given a text they do not accept,
      those of no flag, and that of an option whose value is missing. */
  lemma {:induction false} ScanAssigns(types: Types, p: Progress, args: seq<string>)
    requires Typed(types, p.states)
    ensures Follows(types, p, args, Scan(types, p, args))
    decreases |args|
  {
    if args == [] {
      NothingStarts(types, p);
    } else {
      hide Scan, NeedsValue, IsProgramArgument, IsTerminator, FirstDoes, Extends, Follows;
      var m, p' := ScanCases(types, p, args);
      var r := Scan(types, p, args);
      if m > 0 {
        ScanAssigns(types, p', args[m..]);
        AssignsOn(types, p, args, m, p', r, Scan(types, p', args[m..]));
      } else {
        AssignsFirst(types, p, args, p', r);
      }
    }
  }

  lemma AssignsFirst(types: Types, p: Progress, args: seq<string>, p': Progress, r: Pass)
    requires Typed(types, p.states) && args != [] && FirstDoes(types, p, args, p')
    requires r.progress == p' && r.rest == args[1..]
    ensures Follows(types, p, args, r)
  {
    hide Starts, FirstDoes, Typed;
    FirstStarts(types, p, args, 1, p');
  }

  lemma AssignsOn(types: Types, p: Progress, args: seq<string>, m: nat, p': Progress, r: Pass, tail: Pass)
    requires Typed(types, p.states) && args != [] && 1 <= m <= 2 && m <= |args| && FirstDoes(types, p, args, p')
    requires (m == 2 <==> NeedsValue(types, args[0])) && Follows(types, p', args[m..], tail)
    requires r.progress == tail.progress && r.rest == tail.rest
    ensures Follows(types, p, args, r)
  {
    hide Starts, FirstDoes, NeedsValue, ValueAt, Typed;
    FirstStarts(types, p, args, m, p');
    NotAValue(types, args, m);
    StartsThen(types, p, args, m, p', |args| - m - |r.rest|, r.progress);
  }

  // ----- The loop over argv ----------------------------------------------------------------------------

  /** memmove of everything after i one place down, and the argument at i last. */
  method MoveToEnd(argv: array<string>, i: nat)
    requires i < argv.Length
    modifies argv
    ensures argv[..] == old(argv[..i]) + old(argv[i + 1..]) + [old(argv[i])]
  {
    ghost var before := argv[..];
    var arg := argv[i];
    var k := i;
    while k + 1 < argv.Length
      invariant i <= k < argv.Length
      invariant forall j | 0 <= j < i :: argv[j] == old(argv[j])
      invariant forall j | i <= j < k :: argv[j] == old(argv[j + 1])
      invariant forall j | k < j < argv.Length :: argv[j] == old(argv[j])
    {
      argv[k] := argv[k + 1];
      k := k + 1;
    }
    argv[argv.Length - 1] := arg;
    Rotated(before, argv[..], i);
    assert before[..i] == old(argv[..i]) && before[i + 1..] == old(argv[i + 1..]);
  }

  lemma Rotated(before: seq<string>, after: seq<string>, i: nat)
    requires i < |before| == |after| && after[|after| - 1] == before[i]
    requires forall j :: 0 <= j < i ==> after[j] == before[j]
    requires forall j :: i <= j < |after| - 1 ==> after[j] == before[j + 1]
    ensures after == before[..i] + before[i + 1..] + [before[i]]
  {
  }

  function Join(kept: seq<string>, moved: seq<string>, r: Pass): Pass {
    Pass(kept + r.kept, r.rest, moved + r.moved, r.progress)
  }

  lemma AfterMove(before: seq<string>, after: seq<string>, i: nat, first: nat)
    requires 1 <= i < first <= |before| && after == before[..i] + before[i + 1..] + [before[i]]
    ensures |after| == |before| && after[0] == before[0] && after[1..i] == before[1..i]
    ensures after[i..first - 1] == before[i..first][1..]
    ensures after[first - 1..] == before[first..] + [before[i]]
  {
  }

  lemma JoinNothing(r: Pass)
    ensures Join([], [], r) == r
  {
  }

  /** The array between two iterations: kept arguments up to i, moved ones from `first` on. */
  ghost predicate Standing(argv: seq<string>, i: nat, first: nat, kept: seq<string>, moved: seq<string>) {
    && 1 <= i <= first <= |argv|
    && argv[1..i] == kept && argv[first..] == moved
  }

  lemma MovedStep(types: Types, p: Progress, todo: seq<string>, kept: seq<string>, moved: seq<string>)
    requires Typed(types, p.states) && todo != [] && IsProgramArgument(todo[0])
    ensures Join(kept, moved, Scan(types, p, todo)) == Join(kept, moved + [todo[0]], Scan(types, p, todo[1..]))
  {
    var r := Scan(types, p, todo[1..]);
    assert moved + ([todo[0]] + r.moved) == moved + [todo[0]] + r.moved;
  }

  /** One or two arguments stay in place and the pass goes on behind them. */
  lemma KeptStep(types: Types, p: Progress, p': Progress, todo: seq<string>, n: nat, kept: seq<string>, moved: seq<string>)
    requires Typed(types, p.states) && Typed(types, p'.states) && n <= |todo|
    requires var tail := Scan(types, p', todo[n..]);
      Scan(types, p, todo) == tail.(kept := todo[..n] + tail.kept)
    ensures Join(kept, moved, Scan(types, p, todo)) == Join(kept + todo[..n], moved, Scan(types, p', todo[n..]))
  {
    var tail := Scan(types, p', todo[n..]);
    assert kept + (todo[..n] + tail.kept) == kept + todo[..n] + tail.kept;
  }

  /** One iteration on an argument that is a flag: how many arguments it used up, and whether
      the loop breaks. */
  method ParseOption(parser: CommandLineFlagParser, todo: seq<string>, ghost types: Types)
    returns (used: nat, stop: bool)
    requires parser.registry.Valid() && types == parser.registry.Kinds()
    requires todo != [] && !IsProgramArgument(todo[0])
    modifies parser, parser.registry.flags.Values
    ensures 1 <= used <= |todo| && Typed(types, parser.Current().states)
    ensures stop ==> used == 1 && (|todo| == 1 || IsTerminator(todo[0]))
    ensures stop ==> Scan(types, old(parser.Current()), todo) == Pass(todo[..1], todo[1..], [], parser.Current())
    ensures !stop ==>
              var tail := Scan(types, parser.Current(), todo[used..]);
              Scan(types, old(parser.Current()), todo) == tail.(kept := todo[..used] + tail.kept)
  {
    used, stop := 1, false;
    var arg := StripDashes(todo[0]);
    assert todo[..1] == [todo[0]];
    if arg == "" {
      stop := true;
      return;
    }
    var split := parser.SplitArgumentLocked(arg);
    if split.NoFlag? {
      parser.errorFlags := parser.errorFlags + {split.key};
      return;
    }
    if split.value.None? {
      if |todo| == 1 {
        parser.errorFlags := parser.errorFlags + {split.key};
        stop := true;
        return;
      }
      used := 2;
      assert todo[..2] == [todo[0], todo[1]];
      parser.ProcessSingleOptionLocked(split.flag, todo[1], SetValue);
      return;
    }
    parser.ProcessSingleOptionLocked(split.flag, split.value.value, SetValue);
  }

  /** The whole loop.  argv ends as the program name, the kept arguments, the unscanned tail
      and the moved arguments; `whole` is what the pass finds, the result the index of the first argument that is no flag. */
  method PermuteArguments(parser: CommandLineFlagParser, argv: array<string>, ghost whole: Pass)
    returns (firstNonopt: nat)
    requires parser.registry.Valid() && argv.Length >= 1
    requires whole == Scan(parser.registry.Kinds(), parser.Current(), argv[1..])
    modifies argv, parser, parser.registry.flags.Values
    ensures argv[0] == old(argv[0]) && argv[1..] == whole.kept + whole.rest + whole.moved
    ensures firstNonopt == 1 + |whole.kept| && parser.Current() == whole.progress
  {
    ghost var types := parser.registry.Kinds();
    assert argv[1..argv.Length] == argv[1..] && Typed(types, parser.Current().states);
    JoinNothing(whole);
    ghost var kept, moved := [], [];
    firstNonopt := argv.Length;
    var i, stop := 1, false;
    assert UnderWay(types, parser.Current(), argv[..], i, firstNonopt, kept, moved, whole);
    hide UnderWay, Scan, CommandLineFlagParser.Current, FlagRegistry.Kinds, FlagRegistry.Valid;
    while i < firstNonopt && !stop
      invariant 1 <= i <= firstNonopt <= argv.Length && argv[0] == old(argv[0])
      invariant !stop ==> UnderWay(types, parser.Current(), argv[..], i, firstNonopt, kept, moved, whole)
      invariant stop ==> argv[1..] == whole.kept + whole.rest + whole.moved && firstNonopt == 1 + |whole.kept|
                         && parser.Current() == whole.progress
      decreases firstNonopt - i, !stop
    {
      i, firstNonopt, stop, kept, moved := Iterate(parser, argv, i, firstNonopt, types, kept, moved, whole);
    }
    if !stop {
      FinishedPass(types, argv[..], i, kept, moved, parser.Current(), whole);
    }
  }

  /** Between two iterations: what the whole pass finds is what was found so far and what the
      pass over the rest will find. */
  ghost predicate UnderWay(types: Types, p: Progress, argv: seq<string>, i: nat, first: nat,
                           kept: seq<string>, moved: seq<string>, whole: Pass) {
    && Standing(argv, i, first, kept, moved) && Typed(types, p.states)
    && whole == Join(kept, moved, Scan(types, p, argv[i..first]))
  }

  /** The loop body; `stop` is the break. */
  method Iterate(parser: CommandLineFlagParser, argv: array<string>, i: nat, first: nat, ghost types: Types,
                 ghost kept: seq<string>, ghost moved: seq<string>, ghost whole: Pass)
    returns (i': nat, first': nat, stop: bool, ghost kept': seq<string>, ghost moved': seq<string>)
    requires parser.registry.Valid() && types == parser.registry.Kinds()
    requires 1 <= i < first <= argv.Length
    requires UnderWay(types, parser.Current(), argv[..], i, first, kept, moved, whole)
    modifies argv, parser, parser.registry.flags.Values
    ensures argv[0] == old(argv[0]) && 1 <= i' <= first' <= argv.Length && first' - i' < first - i
    ensures !stop ==> UnderWay(types, parser.Current(), argv[..], i', first', kept', moved', whole)
    ensures stop ==> argv[1..] == whole.kept + whole.rest + whole.moved && first' == 1 + |whole.kept|
                     && parser.Current() == whole.progress
  {
    hide UnderWay, IsProgramArgument, CommandLineFlagParser.Current, FlagRegistry.Kinds, FlagRegistry.Valid;
    i', first', stop, kept', moved' := i, first, false, kept, moved;
    if IsProgramArgument(argv[i]) {
      moved' := IterateArgument(argv, i, first, types, parser.Current(), kept, moved, whole);
      first' := first - 1;
    } else {
      i', first', stop, kept' := IterateOption(parser, argv, i, first, types, kept, moved, whole);
    }
  }

  /** The loop body at a program argument, which goes to the end. */
  method IterateArgument(argv: array<string>, i: nat, first: nat, ghost types: Types, ghost p: Progress,
                         ghost kept: seq<string>, ghost moved: seq<string>, ghost whole: Pass)
    returns (ghost moved': seq<string>)
    requires 1 <= i < first <= argv.Length && IsProgramArgument(argv[i])
    requires UnderWay(types, p, argv[..], i, first, kept, moved, whole)
    modifies argv
    ensures argv[0] == old(argv[0]) && UnderWay(types, p, argv[..], i, first - 1, kept, moved', whole)
  {
    hide Scan, Join, Standing, IsProgramArgument;
    ghost var todo := argv[i..first];
    MovedStep(types, p, todo, kept, moved);
    MoveArgument(argv, i, first, kept, moved);
    moved' := moved + [todo[0]];
    assert argv[..][i..first - 1] == argv[i..first - 1] == todo[1..];
  }

  /** The loop body at an option, which stays where it is. */
  method IterateOption(parser: CommandLineFlagParser, argv: array<string>, i: nat, first: nat, ghost types: Types,
                       ghost kept: seq<string>, ghost moved: seq<string>, ghost whole: Pass)
    returns (i': nat, first': nat, stop: bool, ghost kept': seq<string>)
    requires parser.registry.Valid() && types == parser.registry.Kinds()
    requires 1 <= i < first <= argv.Length && !IsProgramArgument(argv[i])
    requires UnderWay(types, parser.Current(), argv[..], i, first, kept, moved, whole)
    modifies parser, parser.registry.flags.Values
    ensures 1 <= i' <= first' <= argv.Length && first' - i' < first - i
    ensures !stop ==> UnderWay(types, parser.Current(), argv[..], i', first', kept', moved, whole)
    ensures stop ==> argv[1..] == whole.kept + whole.rest + whole.moved && first' == 1 + |whole.kept|
                     && parser.Current() == whole.progress
  {
    hide Scan, Join, Standing, IsProgramArgument, IsTerminator, NeedsValue;
    hide CommandLineFlagParser.Current, FlagRegistry.Kinds, FlagRegistry.Valid;
    var todo := argv[i..first];
    ghost var p := parser.Current();
    first', kept' := first, kept;
    var used;
    used, stop := ParseOption(parser, todo, types);
    i' := i + used;
    if stop {
      // A terminator, or the very last argument with its value missing.
      StoppedPass(argv[..], i, first, kept, moved, parser.Current());
      first' := i + 1;
    } else {
      KeptOption(types, p, parser.Current(), argv[..], i, first, kept, moved, used);
      kept' := kept + todo[..used];
    }
  }

  lemma KeptOption(types: Types, p: Progress, p': Progress, argv: seq<string>, i: nat, first: nat,
                   kept: seq<string>, moved: seq<string>, used: nat)
    requires Typed(types, p.states) && Typed(types, p'.states)
    requires Standing(argv, i, first, kept, moved) && i + used <= first
    requires var todo := argv[i..first];
      var tail := Scan(types, p', todo[used..]);
      Scan(types, p, todo) == tail.(kept := todo[..used] + tail.kept)
    ensures var todo := argv[i..first];
      && Standing(argv, i + used, first, kept + todo[..used], moved)
      && Join(kept, moved, Scan(types, p, todo))
         == Join(kept + todo[..used], moved, Scan(types, p', argv[i + used..first]))
  {
    KeptStep(types, p, p', argv[i..first], used, kept, moved);
    assert argv[i + used..first] == argv[i..first][used..];
  }

  /** The memmove step keeps the kept arguments and what is still to scan in place. */
  method MoveArgument(argv: array<string>, i: nat, first: nat, ghost kept: seq<string>, ghost moved: seq<string>)
    requires Standing(argv[..], i, first, kept, moved) && i < first
    modifies argv
    ensures Standing(argv[..], i, first - 1, kept, moved + [old(argv[i])]) && argv[0] == old(argv[0])
    ensures argv[i..first - 1] == old(argv[i..first])[1..]
  {
    ghost var before := argv[..];
    MoveToEnd(argv, i);
    AfterMove(before, argv[..], i, first);
  }

  lemma FinishedPass(types: Types, argv: seq<string>, i: nat, kept: seq<string>, moved: seq<string>, p: Progress, whole: Pass)
    requires UnderWay(types, p, argv, i, i, kept, moved, whole)
    ensures whole == Pass(kept, [], moved, p)
    ensures argv[1..] == whole.kept + whole.rest + whole.moved && i == 1 + |whole.kept|
  {
    assert argv[i..i] == [];
    assert argv[1..] == argv[1..i] + argv[i..];
  }

  lemma StoppedPass(argv: seq<string>, i: nat, first: nat, kept: seq<string>, moved: seq<string>, p: Progress)
    requires Standing(argv, i, first, kept, moved) && i < first
    ensures var todo := argv[i..first];
      var r := Join(kept, moved, Pass(todo[..1], todo[1..], [], p));
      argv[1..] == r.kept + r.rest + r.moved && i + 1 == 1 + |r.kept| && r.progress == p
  {
    assert argv[1..] == argv[1..i] + argv[i..first] + argv[first..];
  }

  /** How argv stands afterwards, counted from `start`: the program name, the options up to
      `first`, and behind them the unscanned tail and the program's own arguments in their
      order; nothing is lost or doubled unless the options are removed. */
  ghost predicate Arranged(types: Types, p: Progress, before: seq<string>, r: Pass, after: seq<string>, first: nat, start: nat,
                           removed: bool)
    requires before != []
  {
    && 1 <= first && start + first <= |after| == |before| && after[start] == before[0]
    && Follows(types, p, before[1..], r)
    && OwnBehind(types, before[1..], r, after[start + first..])
    && if removed then first == 1
       else start == 0 && after[1..first] == r.kept && multiset(after) == multiset(before)
  }

  /** The caller's promise, whether options are removed or not. */
  method ParseNewCommandLineFlags(parser: CommandLineFlagParser, argv: array<string>, removeFlags: bool, ghost r: Pass)
    returns (firstNonopt: nat, start: nat)
    requires parser.registry.Valid() && argv.Length >= 1
    requires r == Scan(parser.registry.Kinds(), parser.Current(), argv[1..])
    modifies argv, parser, parser.registry.flags.Values
    ensures parser.Current() == r.progress
    ensures Arranged(parser.registry.Kinds(), old(parser.Current()), old(argv[..]), r, argv[..], firstNonopt, start, removeFlags)
  {
    ghost var before, types, p := argv[..], parser.registry.Kinds(), parser.Current();
    assert before[1..] == argv[1..];
    PassPromises(types, p, before[1..]);
    hide Promised, Scan, CommandLineFlagParser.Current, FlagRegistry.Valid, FlagRegistry.Kinds, Arranged;
    firstNonopt := PermuteArguments(parser, argv, r);
    Layout(types, p, before, argv[..], r);
    start := 0;
    if removeFlags {
      ghost var permuted := argv[..];
      start := DropFlags(argv, firstNonopt);
      Dropped(types, p, before, r, permuted, argv[..], firstNonopt);
      firstNonopt := 1;
    }
  }

  /** The program name moves up to just before the arguments that stay. */
  method DropFlags(argv: array<string>, firstNonopt: nat) returns (start: nat)
    requires 1 <= firstNonopt <= argv.Length
    modifies argv
    ensures start == firstNonopt - 1 && argv[start] == old(argv[0])
    ensures argv[firstNonopt..] == old(argv[firstNonopt..])
  {
    argv[firstNonopt - 1] := argv[0];
    start := firstNonopt - 1;
  }

  /** All that is promised of a pass. */
  ghost predicate Promised(types: Types, p: Progress, args: seq<string>, r: Pass) {
    && multiset(r.kept + r.rest + r.moved) == multiset(args)
    && OwnBehind(types, args, r, r.rest + r.moved)
    && Follows(types, p, args, r)
  }

  lemma PassPromises(types: Types, p: Progress, args: seq<string>)
    requires Typed(types, p.states)
    ensures Promised(types, p, args, Scan(types, p, args))
  {
    ScanPermutes(types, p, args);
    SuffixIsOwn(types, p, args);
    ScanAssigns(types, p, args);
    hide Scan, OwnBehind, Follows;
  }

  lemma Layout(types: Types, p: Progress, before: seq<string>, after: seq<string>, r: Pass)
    requires |before| >= 1 && |after| == |before| && after[0] == before[0]
    requires after[1..] == r.kept + r.rest + r.moved && Promised(types, p, before[1..], r)
    ensures Arranged(types, p, before, r, after, 1 + |r.kept|, 0, false)
  {
    hide OwnBehind, Follows;
    assert before == [before[0]] + before[1..];
    assert after == [after[0]] + (r.kept + r.rest + r.moved);
    assert after[1 + |r.kept|..] == r.rest + r.moved && after[1..1 + |r.kept|] == r.kept;
  }

  lemma Dropped(types: Types, p: Progress, before: seq<string>, r: Pass, permuted: seq<string>, after: seq<string>, first: nat)
    requires before != [] && Arranged(types, p, before, r, permuted, first, 0, false)
    requires |after| == |permuted| && after[first - 1] == permuted[0] && after[first..] == permuted[first..]
    ensures Arranged(types, p, before, r, after, 1, first - 1, true)
  {
    hide OwnBehind, Follows;
  }
}
