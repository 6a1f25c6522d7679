/**
  The printable-codepoint index: the generator that compresses a set of escaped codepoints
  into byte tables, and the lookup that decodes them.

  Bytes are written with arithmetic: `0x80 | q` for q below 0x80 is 0x80 + q, and the shifts
  and masks of the code divide by and take remainders modulo powers of two.
 */
module PrintableTables {
  import opened Wrappers

  const CUTOFF: nat := 0x1_0000
  const NUM_CODEPOINTS: nat := 0x11_0000

  /** Codepoints lo up to but not including hi. */
  datatype Range = Range(lo: nat, hi: nat)

  /** A run of escaped codepoints: where it starts and how long it is. */
  datatype Run = Run(start: nat, length: nat)

  datatype Singleton = Singleton(upper: nat, count: nat)

  predicate Ascending(points: seq<nat>) {
    forall i, j :: 0 <= i < j < |points| ==> points[i] < points[j]
  }

  // ----- to_ranges --------------------------------------------------------------------------

  predicate InRanges(rs: seq<Range>, x: nat) {
    exists i :: 0 <= i < |rs| && rs[i].lo <= x < rs[i].hi
  }

  predicate IsCut(x: nat) { x == CUTOFF || x == 2 * CUTOFF }

  /** Non-empty ranges in order, none running across a multiple of the cutoff, and no two
      that could have been one. */
  ghost predicate Maximal(rs: seq<Range>) {
    && (forall i :: 0 <= i < |rs| ==>
          rs[i].lo < rs[i].hi && forall x :: rs[i].lo < x < rs[i].hi ==> !IsCut(x))
    && (forall i, j :: 0 <= i < j < |rs| ==> rs[i].hi <= rs[j].lo)
    && (forall i :: 0 < i < |rs| ==> rs[i - 1].hi < rs[i].lo || IsCut(rs[i].lo))
  }

  ghost predicate RangesOf(points: seq<nat>, rs: seq<Range>) {
    Maximal(rs) && forall x :: x in points <==> InRanges(rs, x)
  }

  method ToRanges(points: seq<nat>) returns (ranges: seq<Range>)
    requires Ascending(points)
    ensures RangesOf(points, ranges)
  {
    ranges := [];
    assert RangesOf([], []);
    hide RangesOf;
    var current: Option<Range> := None;
    var k := 0;
    while k < |points|
      invariant k <= |points|
      invariant current.None? <==> k == 0
      invariant current.None? ==> ranges == []
      invariant current.Some? ==> current.value.hi == points[k - 1] + 1
      invariant current.Some? ==> RangesOf(points[..k], ranges + [current.value])
    {
      var i := points[k];
      if current.None? || i != current.value.hi || IsCut(i) {
        ghost var before := ranges + (if current.Some? then [current.value] else []);
        if current.Some? {
          ranges := ranges + [current.value];
        }
        current := Some(Range(i, i + 1));
        AddRange(points[..k], before, i);
      } else {
        ExtendRange(points[..k], ranges, current.value, i);
        current := Some(Range(current.value.lo, i + 1));
      }
      k := k + 1;
      assert points[..k] == points[..k - 1] + [i];
    }
    if current.Some? {
      ranges := ranges + [current.value];
    }
    assert points[..k] == points;
  }

  lemma AddRange(points: seq<nat>, rs: seq<Range>, i: nat)
    requires RangesOf(points, rs)
    requires forall x :: x in points ==> x < i
    requires rs != [] ==> rs[|rs| - 1].hi <= i && (rs[|rs| - 1].hi < i || IsCut(i))
    ensures RangesOf(points + [i], rs + [Range(i, i + 1)])
  {
    var rs' := rs + [Range(i, i + 1)];
    forall x: nat
      ensures x in points + [i] <==> InRanges(rs', x)
    {
      if InRanges(rs, x) {
        var j :| 0 <= j < |rs| && rs[j].lo <= x < rs[j].hi;
        assert rs'[j].lo <= x < rs'[j].hi;
      }
      if x == i {
        assert rs'[|rs|].lo <= x < rs'[|rs|].hi;
      }
    }
  }

  lemma ExtendRange(points: seq<nat>, rs: seq<Range>, last: Range, i: nat)
    requires RangesOf(points, rs + [last]) && i == last.hi && !IsCut(i)
    ensures RangesOf(points + [i], rs + [Range(last.lo, i + 1)])
  {
    var old', new' := rs + [last], rs + [Range(last.lo, i + 1)];
    assert old'[|rs|] == last && new'[|rs|] == Range(last.lo, i + 1);
    assert forall j :: 0 <= j < |rs| ==> new'[j] == old'[j];
    forall x: nat
      ensures x in points + [i] <==> InRanges(new', x)
    {
      if InRanges(old', x) {
        var j :| 0 <= j < |old'| && old'[j].lo <= x < old'[j].hi;
        assert new'[j].lo <= x < new'[j].hi;
      }
      if x == i {
        assert new'[|rs|].lo <= x < new'[|rs|].hi;
      }
      if InRanges(new', x) && x != i {
        var j :| 0 <= j < |new'| && new'[j].lo <= x < new'[j].hi;
        assert old'[j].lo <= x < old'[j].hi;
      }
    }
  }

  // ----- The classification loop of main -----------------------------------------------------

  datatype Classes = Classes(
    singletons0: seq<nat>, singletons1: seq<nat>, normal0: seq<Run>, normal1: seq<Run>, extra: seq<Run>)

  predicate InRuns(runs: seq<Run>, x: nat) {
    exists i :: 0 <= i < |runs| && runs[i].start <= x < runs[i].start + runs[i].length
  }

  /** a & CUTOFF and a & ~CUTOFF. */
  predicate HasCutoffBit(a: nat) { a / CUTOFF % 2 == 1 }
  function ClearCutoff(a: nat): nat { if HasCutoffBit(a) then a - CUTOFF else a }

  /** Where one range goes.  A range of length one or two that starts exactly at twice the
      cutoff passes the first test and ends up among the singletons of plane 0. */
  datatype Kind = Plane0 | Plane1 | Extra

  function KindOf(r: Range): Kind {
    if r.lo > 2 * CUTOFF then Extra
    else if r.lo + 1 == r.hi || r.lo + 2 == r.hi then (if HasCutoffBit(r.lo) then Plane1 else Plane0)
    else if r.lo >= 2 * CUTOFF then Extra
    else if HasCutoffBit(r.lo) then Plane1 else Plane0
  }

  predicate InKind(rs: seq<Range>, kind: Kind, x: nat) {
    exists i :: 0 <= i < |rs| && KindOf(rs[i]) == kind && rs[i].lo <= x < rs[i].hi
  }

  predicate Escapes(singletons: seq<nat>, normal: seq<Run>, x: nat) {
    x in singletons || InRuns(normal, x)
  }

  /** Every class holds exactly the points of the ranges of its kind. */
  ghost predicate ClassesOf(rs: seq<Range>, c: Classes) {
    && (forall x: nat :: Escapes(c.singletons0, c.normal0, x) <==> InKind(rs, Plane0, x))
    && (forall x: nat :: Escapes(c.singletons1, c.normal1, x) <==> InKind(rs, Plane1, x + CUTOFF))
    && (forall x: nat :: InRuns(c.extra, x) <==> InKind(rs, Extra, x))
  }

  predicate NoTriple(s: seq<nat>) {
    forall k :: 0 <= k < |s| - 2 ==> s[k] + 2 < s[k + 2]
  }

  /** Runs of one plane, in order; each at least one point long. */
  predicate OrderedRuns(runs: seq<Run>) {
    && (forall i :: 0 <= i < |runs| ==> runs[i].length > 0 && runs[i].start + runs[i].length <= CUTOFF)
    && (forall i, j :: 0 <= i < j < |runs| ==> runs[i].start + runs[i].length <= runs[j].start)
  }

  /** The shape the compressors rely on. */
  ghost predicate Orderly(c: Classes) {
    && Ascending(c.singletons0) && Ascending(c.singletons1)
    && NoTriple(c.singletons0) && NoTriple(c.singletons1)
    && OrderedRuns(c.normal0) && OrderedRuns(c.normal1)
  }

  /** One range added to the singletons or the runs of its plane. */
  function PlaceSingles(s: seq<nat>, r: Range, shift: nat): seq<nat>
    requires shift <= r.lo
  {
    if r.lo + 1 == r.hi then s + [r.lo - shift]
    else if r.lo + 2 == r.hi then s + [r.lo - shift, r.lo + 1 - shift]
    else s
  }

  function PlaceRun(runs: seq<Run>, r: Range, shift: nat): seq<Run>
    requires shift <= r.lo < r.hi
  {
    if r.lo + 1 == r.hi || r.lo + 2 == r.hi then runs else runs + [Run(r.lo - shift, r.hi - r.lo)]
  }

  function Place(c: Classes, r: Range): Classes
    requires r.lo < r.hi && (r.lo + 2 == r.hi ==> !IsCut(r.lo + 1))
  {
    match KindOf(r)
    case Extra => c.(extra := c.extra + [Run(r.lo, r.hi - r.lo)])
    case Plane0 => c.(singletons0 := PlaceSingles(c.singletons0, r, 0), normal0 := PlaceRun(c.normal0, r, 0))
    case Plane1 => c.(singletons1 := PlaceSingles(c.singletons1, r, CUTOFF), normal1 := PlaceRun(c.normal1, r, CUTOFF))
  }

  /** What Maximal ranges look like one by one. */
  predicate Shapely(rs: seq<Range>) {
    forall k :: 0 <= k < |rs| ==> rs[k].lo < rs[k].hi && (rs[k].lo + 2 == rs[k].hi ==> !IsCut(rs[k].lo + 1))
  }

  /** Every range in its place, in order. */
  function Placed(rs: seq<Range>): Classes
    requires Shapely(rs)
  {
    if rs == [] then Classes([], [], [], [], []) else Place(Placed(rs[..|rs| - 1]), rs[|rs| - 1])
  }

  lemma OneMorePlaced(rs: seq<Range>, k: nat)
    requires Shapely(rs) && k < |rs|
    ensures Placed(rs[..k + 1]) == Place(Placed(rs[..k]), rs[k])
  {
    assert rs[..k + 1][..k] == rs[..k];
  }

  lemma InKindStep(rs: seq<Range>, k: nat, kind: Kind)
    requires k < |rs|
    ensures forall x: nat ::
      InKind(rs[..k + 1], kind, x) <==>
      InKind(rs[..k], kind, x) || (KindOf(rs[k]) == kind && rs[k].lo <= x < rs[k].hi)
  {
    var before, after := rs[..k], rs[..k + 1];
    assert after == before + [rs[k]];
    forall x: nat
      ensures InKind(after, kind, x) <==> InKind(before, kind, x) || (KindOf(rs[k]) == kind && rs[k].lo <= x < rs[k].hi)
    {
      if InKind(before, kind, x) {
        var i :| 0 <= i < k && KindOf(before[i]) == kind && before[i].lo <= x < before[i].hi;
        assert KindOf(after[i]) == kind;
      }
      if KindOf(rs[k]) == kind && rs[k].lo <= x < rs[k].hi {
        assert KindOf(after[k]) == kind;
      }
    }
  }

  /** Points of the same kind in earlier ranges are separated from the next range. */
  lemma Separated(rs: seq<Range>, k: nat, x: nat)
    requires Maximal(rs) && k < |rs| && InKind(rs[..k], KindOf(rs[k]), x)
    ensures x + 1 < rs[k].lo
  {
    var i :| 0 <= i < k && KindOf(rs[i]) == KindOf(rs[k]) && rs[i].lo <= x < rs[i].hi;
    assert rs[i].hi <= rs[k].lo && rs[k - 1].lo < rs[k - 1].hi <= rs[k].lo;
    assert i == k - 1 || rs[i].hi <= rs[k - 1].lo;
    if x + 1 == rs[k].lo {
      assert IsCut(rs[k].lo) && IsCut(CUTOFF);
    }
  }

  lemma AppendSingles(s: seq<nat>, r: Range, shift: nat)
    requires Ascending(s) && NoTriple(s) && shift <= r.lo < r.hi
    requires forall v :: v in s ==> v + 1 < r.lo - shift
    ensures Ascending(PlaceSingles(s, r, shift)) && NoTriple(PlaceSingles(s, r, shift))
  {
    var s' := PlaceSingles(s, r, shift);
    assert forall i :: 0 <= i < |s| ==> s'[i] == s[i] && s[i] in s;
    if |s| >= 2 {
      assert s[|s| - 2] < s[|s| - 1] && s[|s| - 1] in s;
    }
  }

  lemma AppendRun(runs: seq<Run>, run: Run, x: nat)
    ensures InRuns(runs + [run], x) <==> InRuns(runs, x) || run.start <= x < run.start + run.length
  {
    var runs' := runs + [run];
    if InRuns(runs, x) {
      var i :| 0 <= i < |runs| && runs[i].start <= x < runs[i].start + runs[i].length;
      assert runs'[i] == runs[i];
    }
    assert runs'[|runs|] == run;
  }

  lemma PlaceInPlane(s: seq<nat>, normal: seq<Run>, rs: seq<Range>, k: nat, shift: nat)
    requires Maximal(rs) && k < |rs| && shift <= rs[k].lo
    requires !KindOf(rs[k]).Extra? && shift == if KindOf(rs[k]).Plane0? then 0 else CUTOFF
    requires Ascending(s) && NoTriple(s) && OrderedRuns(normal)
    requires forall x: nat :: Escapes(s, normal, x) <==> InKind(rs[..k], KindOf(rs[k]), x + shift)
    ensures var s', normal' := PlaceSingles(s, rs[k], shift), PlaceRun(normal, rs[k], shift);
      && Ascending(s') && NoTriple(s') && OrderedRuns(normal')
      && forall x: nat :: Escapes(s', normal', x) <==> InKind(rs[..k + 1], KindOf(rs[k]), x + shift)
  {
    var r := rs[k];
    var s', normal' := PlaceSingles(s, r, shift), PlaceRun(normal, r, shift);
    forall v | v in s
      ensures v + 1 < r.lo - shift
    {
      assert Escapes(s, normal, v);
      Separated(rs, k, v + shift);
    }
    AppendSingles(s, r, shift);
    forall i | 0 <= i < |normal|
      ensures normal[i].start + normal[i].length <= r.lo - shift
    {
      var last: nat := normal[i].start + normal[i].length - 1;
      assert InRuns(normal, last);
      assert Escapes(s, normal, last);
      Separated(rs, k, last + shift);
    }
    assert IsCut(CUTOFF) && IsCut(2 * CUTOFF);
    InKindStep(rs, k, KindOf(r));
    forall x: nat
      ensures Escapes(s', normal', x) <==> InKind(rs[..k + 1], KindOf(r), x + shift)
    {
      AppendRun(normal, Run(r.lo - shift, r.hi - r.lo), x);
      assert Escapes(s', normal', x) <==> Escapes(s, normal, x) || r.lo <= x + shift < r.hi;
    }
  }

  lemma PlaceKeeps(rs: seq<Range>, k: nat, c: Classes)
    requires Maximal(rs) && k < |rs|
    requires ClassesOf(rs[..k], c) && Orderly(c)
    ensures ClassesOf(rs[..k + 1], Place(c, rs[k])) && Orderly(Place(c, rs[k]))
  {
    InKindStep(rs, k, Plane0);
    InKindStep(rs, k, Plane1);
    InKindStep(rs, k, Extra);
    match KindOf(rs[k])
    case Plane0 => PlaceInPlane(c.singletons0, c.normal0, rs, k, 0);
    case Plane1 => PlaceInPlane(c.singletons1, c.normal1, rs, k, CUTOFF);
    case Extra =>
      forall x: nat
        ensures InRuns(Place(c, rs[k]).extra, x) <==> InKind(rs[..k + 1], Extra, x)
      {
        AppendRun(c.extra, Run(rs[k].lo, rs[k].hi - rs[k].lo), x);
      }
  }

  lemma NothingPlaced()
    ensures ClassesOf([], Classes([], [], [], [], [])) && Orderly(Classes([], [], [], [], []))
  {
  }

  lemma RangeShape(rs: seq<Range>)
    requires Maximal(rs)
    ensures Shapely(rs)
  {
  }

  // What the classes are, range by range: the ranges of one or two points give singletons, the
  // longer ones runs, and those behind the second plane extra runs, each in their order.

  predicate IsShort(r: Range) { r.hi - r.lo == 1 || r.hi - r.lo == 2 }

  /** The ranges of a plane of one length or the other. */
  function Chosen(rs: seq<Range>, kind: Kind, short: bool): seq<Range> {
    if rs == [] then []
    else Chosen(rs[..|rs| - 1], kind, short)
         + if KindOf(rs[|rs| - 1]) == kind && (kind == Extra || IsShort(rs[|rs| - 1]) == short) then [rs[|rs| - 1]] else []
  }

  function PointsOf(rs: seq<Range>, shift: int): seq<int> {
    if rs == [] then []
    else
      var r := rs[|rs| - 1];
      PointsOf(rs[..|rs| - 1], shift) + if r.hi - r.lo == 1 then [r.lo - shift] else [r.lo - shift, r.lo + 1 - shift]
  }

  predicate AreRuns(runs: seq<Run>, rs: seq<Range>, shift: int) {
    |runs| == |rs| && forall i :: 0 <= i < |rs| ==> runs[i].start == rs[i].lo - shift && runs[i].length == rs[i].hi - rs[i].lo
  }

  /** The classes hold just these points and runs. */
  ghost predicate ByLength(rs: seq<Range>, c: Classes) {
    && PlaneByLength(rs, Plane0, 0, c.singletons0, c.normal0)
    && PlaneByLength(rs, Plane1, CUTOFF, c.singletons1, c.normal1)
    && AreRuns(c.extra, Chosen(rs, Extra, false), 0)
  }

  lemma OneMoreChosen(rs: seq<Range>, r: Range, kind: Kind, short: bool)
    ensures Chosen(rs + [r], kind, short)
         == if KindOf(r) == kind && (kind == Extra || IsShort(r) == short) then Chosen(rs, kind, short) + [r]
            else Chosen(rs, kind, short)
  {
    assert (rs + [r])[..|rs|] == rs;
    hide KindOf, IsShort;
    assert Chosen(rs, kind, short) + [] == Chosen(rs, kind, short);
  }

  lemma OneMorePoint(rs: seq<Range>, r: Range, shift: int)
    ensures PointsOf(rs + [r], shift)
         == PointsOf(rs, shift) + if r.hi - r.lo == 1 then [r.lo - shift] else [r.lo - shift, r.lo + 1 - shift]
  {
    assert (rs + [r])[..|rs|] == rs;
  }

  /** One plane: its singletons and its runs. */
  ghost predicate PlaneByLength(rs: seq<Range>, kind: Kind, shift: int, singles: seq<nat>, runs: seq<Run>) {
    singles == PointsOf(Chosen(rs, kind, true), shift) && AreRuns(runs, Chosen(rs, kind, false), shift)
  }

  lemma PlacedInPlane(rs: seq<Range>, r: Range, kind: Kind, shift: nat, singles: seq<nat>, runs: seq<Run>)
    requires PlaneByLength(rs, kind, shift, singles, runs) && r.lo < r.hi && shift <= r.lo && KindOf(r) == kind && kind != Extra
    ensures PlaneByLength(rs + [r], kind, shift, PlaceSingles(singles, r, shift), PlaceRun(runs, r, shift))
  {
    OneMoreChosen(rs, r, kind, true);
    OneMoreChosen(rs, r, kind, false);
    OneMorePoint(Chosen(rs, kind, true), r, shift);
    hide KindOf, Chosen, PointsOf;
  }

  lemma PlacedElsewhere(rs: seq<Range>, r: Range, kind: Kind, shift: nat, singles: seq<nat>, runs: seq<Run>)
    requires PlaneByLength(rs, kind, shift, singles, runs) && KindOf(r) != kind
    ensures PlaneByLength(rs + [r], kind, shift, singles, runs)
  {
    OneMoreChosen(rs, r, kind, true);
    OneMoreChosen(rs, r, kind, false);
    hide KindOf, Chosen, PointsOf;
  }

  lemma OneMoreByLength(rs: seq<Range>, r: Range, c: Classes)
    requires ByLength(rs, c) && r.lo < r.hi && (r.lo + 2 == r.hi ==> !IsCut(r.lo + 1))
    ensures ByLength(rs + [r], Place(c, r))
  {
    hide Chosen, PointsOf, PlaceSingles, PlaceRun, IsShort, PlaneByLength;
    OneMoreChosen(rs, r, Extra, false);
    match KindOf(r)
    case Plane0 =>
      PlacedInPlane(rs, r, Plane0, 0, c.singletons0, c.normal0);
      PlacedElsewhere(rs, r, Plane1, CUTOFF, c.singletons1, c.normal1);
    case Plane1 =>
      PlacedElsewhere(rs, r, Plane0, 0, c.singletons0, c.normal0);
      PlacedInPlane(rs, r, Plane1, CUTOFF, c.singletons1, c.normal1);
    case Extra =>
      PlacedElsewhere(rs, r, Plane0, 0, c.singletons0, c.normal0);
      PlacedElsewhere(rs, r, Plane1, CUTOFF, c.singletons1, c.normal1);
  }

  lemma {:induction false} PlacedByLength(rs: seq<Range>)
    requires Shapely(rs)
    ensures ByLength(rs, Placed(rs))
  {
    if rs != [] {
      hide Place, ByLength, KindOf;
      var init, r := rs[..|rs| - 1], rs[|rs| - 1];
      PlacedByLength(init);
      OneMoreByLength(init, r, Placed(init));
      assert rs == init + [r];
    }
  }

  /** The body of the loop: one range. */
  method ClassifyRange(before: Classes, r: Range) returns (classes: Classes)
    requires r.lo < r.hi && (r.lo + 2 == r.hi ==> !IsCut(r.lo + 1))
    ensures classes == Place(before, r)
  {
    classes := before;
    var a, b := r.lo, r.hi;
    if a > 2 * CUTOFF {
      classes := classes.(extra := classes.extra + [Run(a, b - a)]);
    } else if a == b - 1 {
      if HasCutoffBit(a) {
        classes := classes.(singletons1 := classes.singletons1 + [ClearCutoff(a)]);
      } else {
        classes := classes.(singletons0 := classes.singletons0 + [a]);
      }
    } else if a == b - 2 {
      if HasCutoffBit(a) {
        classes := classes.(singletons1 := classes.singletons1 + [ClearCutoff(a)]);
        classes := classes.(singletons1 := classes.singletons1 + [ClearCutoff(a + 1)]);
      } else {
        classes := classes.(singletons0 := classes.singletons0 + [a]);
        classes := classes.(singletons0 := classes.singletons0 + [a + 1]);
      }
    } else {
      if a >= 2 * CUTOFF {
        classes := classes.(extra := classes.extra + [Run(a, b - a)]);
      } else if HasCutoffBit(a) {
        classes := classes.(normal1 := classes.normal1 + [Run(ClearCutoff(a), b - a)]);
      } else {
        classes := classes.(normal0 := classes.normal0 + [Run(a, b - a)]);
      }
    }
    assert [a] + [a + 1] == [a, a + 1];
    assert classes.singletons0 == Place(before, r).singletons0;
    assert classes.singletons1 == Place(before, r).singletons1;
  }

  method Classify(ranges: seq<Range>) returns (classes: Classes)
    requires Maximal(ranges)
    ensures Shapely(ranges) && classes == Placed(ranges)
    ensures ClassesOf(ranges, classes) && Orderly(classes) && ByLength(ranges, classes)
  {
    RangeShape(ranges);
    PlacedByLength(ranges);
    hide ClassesOf, Orderly, Maximal, Place, ByLength;
    classes := Classes([], [], [], [], []);
    NothingPlaced();
    var k := 0;
    while k < |ranges|
      invariant k <= |ranges| && classes == Placed(ranges[..k])
      invariant ClassesOf(ranges[..k], classes) && Orderly(classes)
    {
      OneMorePlaced(ranges, k);
      PlaceKeeps(ranges, k, classes);
      classes := ClassifyRange(classes, ranges[k]);
      k := k + 1;
    }
    assert ranges[..k] == ranges;
  }

  // ----- compress_singletons -------------------------------------------------------------------

  /** Where the lower bytes of group g start: the sum of the counts before it. */
  function Start(us: seq<Singleton>, g: nat): nat
    requires g <= |us|
  {
    if g == 0 then 0 else Start(us, g - 1) + us[g - 1].count
  }

  lemma {:induction false} StartMonotone(us: seq<Singleton>, g: nat, h: nat)
    requires g <= h <= |us|
    ensures Start(us, g) <= Start(us, h)
    decreases h
  {
    if g < h {
      StartMonotone(us, g, h - 1);
    }
  }

  lemma {:induction false} StartLocal(us: seq<Singleton>, us': seq<Singleton>, g: nat)
    requires g <= |us| && g <= |us'|
    requires forall i :: 0 <= i < g ==> us[i].count == us'[i].count
    ensures Start(us, g) == Start(us', g)
  {
    if g > 0 {
      StartLocal(us, us', g - 1);
    }
  }

  predicate InGroup(us: seq<Singleton>, g: nat, j: nat) {
    g < |us| && Start(us, g) <= j < Start(us, g + 1)
  }

  /** The j-th singleton is the upper byte of its group followed by the j-th lower byte. */
  ghost predicate Grouped(us: seq<Singleton>, ls: seq<nat>, singletons: seq<nat>) {
    && |ls| == |singletons| == Start(us, |us|)
    && (forall g: nat, j: nat | InGroup(us, g, j) && j < |ls| :: singletons[j] == 256 * us[g].upper + ls[j])
    && (forall j :: 0 <= j < |ls| ==> ls[j] < 256)
    && (forall g :: 0 <= g < |us| ==> us[g].count > 0)
    && (forall g, h :: 0 <= g < h < |us| ==> us[g].upper < us[h].upper)
  }

  method CompressSingletons(singletons: seq<nat>) returns (uppers: seq<Singleton>, lowers: seq<nat>)
    requires Ascending(singletons)
    ensures Grouped(uppers, lowers, singletons)
  {
    assert Grouped([], [], []);
    hide Grouped;
    uppers, lowers := [], [];
    var k := 0;
    while k < |singletons|
      invariant k <= |singletons|
      invariant Grouped(uppers, lowers, singletons[..k])
      invariant uppers != [] ==> k > 0 && uppers[|uppers| - 1].upper == singletons[k - 1] / 256
      invariant uppers == [] ==> k == 0
    {
      var i := singletons[k];
      var upper, lower := i / 256, i % 256;
      if |uppers| == 0 || uppers[|uppers| - 1].upper != upper {
        NewGroup(uppers, lowers, singletons[..k], i);
        uppers := uppers + [Singleton(upper, 1)];
      } else {
        var count := uppers[|uppers| - 1].count;
        SameGroup(uppers, lowers, singletons[..k], i);
        uppers := uppers[|uppers| - 1 := Singleton(upper, count + 1)];
      }
      lowers := lowers + [lower];
      k := k + 1;
      assert singletons[..k] == singletons[..k - 1] + [i];
    }
    assert singletons[..k] == singletons;
  }

  lemma NewGroup(us: seq<Singleton>, ls: seq<nat>, s: seq<nat>, i: nat)
    requires Grouped(us, ls, s)
    requires us != [] ==> us[|us| - 1].upper < i / 256
    ensures Grouped(us + [Singleton(i / 256, 1)], ls + [i % 256], s + [i])
  {
    var us' := us + [Singleton(i / 256, 1)];
    GrownGroups(us, us', |us|);
    var ls', s' := ls + [i % 256], s + [i];
    forall g: nat, j: nat | InGroup(us', g, j) && j < |ls'|
      ensures s'[j] == 256 * us'[g].upper + ls'[j]
    {
      if j < |ls| {
        assert InGroup(us, g, j);
      } else {
        assert j == Start(us, |us|);
      }
    }
  }

  lemma SameGroup(us: seq<Singleton>, ls: seq<nat>, s: seq<nat>, i: nat)
    requires Grouped(us, ls, s) && us != [] && us[|us| - 1].upper == i / 256
    ensures Grouped(us[|us| - 1 := Singleton(i / 256, us[|us| - 1].count + 1)], ls + [i % 256], s + [i])
  {
    var us' := us[|us| - 1 := Singleton(i / 256, us[|us| - 1].count + 1)];
    GrownGroups(us, us', |us| - 1);
    var ls', s' := ls + [i % 256], s + [i];
    forall g: nat, j: nat | InGroup(us', g, j) && j < |ls'|
      ensures s'[j] == 256 * us'[g].upper + ls'[j]
    {
      if j < |ls| {
        assert InGroup(us, g, j) && us'[g].upper == us[g].upper;
        assert s[j] == 256 * us[g].upper + ls[j];
      } else {
        assert j == Start(us, |us|);
      }
    }
  }

  /** Groups before the n-th are where they were; the n-th, now last, got one more byte. */
  lemma GrownGroups(us: seq<Singleton>, us': seq<Singleton>, n: nat)
    requires n + 1 == |us'| && n <= |us| <= n + 1
    requires forall g :: 0 <= g < n ==> us'[g] == us[g]
    requires us'[n].count == (if n < |us| then us[n].count else 0) + 1
    ensures Start(us', |us'|) == Start(us, |us|) + 1
    ensures forall g: nat, j: nat | InGroup(us', g, j) && j < Start(us, |us|) :: InGroup(us, g, j)
    ensures forall g: nat | InGroup(us', g, Start(us, |us|)) :: g == n
  {
    StartLocal(us, us', n);
    assert n < |us| ==> Start(us, |us|) == Start(us, n) + us[n].count;
    forall g: nat, j: nat | InGroup(us', g, j)
      ensures j < Start(us, |us|) ==> InGroup(us, g, j)
      ensures j == Start(us, |us|) ==> g == n
    {
      if g < n {
        StartLocal(us, us', g);
        StartLocal(us, us', g + 1);
        StartMonotone(us, g + 1, n);
        StartMonotone(us, n, |us|);
      }
    }
  }

  /** Every count fits the unsigned char it is stored in. */
  lemma CountsFitByte(us: seq<Singleton>, ls: seq<nat>, s: seq<nat>, g: nat)
    requires Grouped(us, ls, s) && Ascending(s) && NoTriple(s) && g < |us|
    ensures us[g].count <= 255
  {
    var first := Start(us, g);
    StartMonotone(us, g + 1, |us|);
    if us[g].count >= 256 {
      assert InGroup(us, g, first) && InGroup(us, g, first + 255);
      assert s[first] + 2 < s[first + 2];
      AscendingGap(s, first + 2, 253);
    }
  }

  lemma {:induction false} AscendingGap(s: seq<nat>, i: nat, d: nat)
    requires Ascending(s) && i + d < |s|
    ensures s[i] + d <= s[i + d]
  {
    if d > 0 {
      AscendingGap(s, i, d - 1);
      assert s[i + d - 1] < s[i + d];
    }
  }

  // ----- compress_normal -------------------------------------------------------------------------

  /** The one- or two-byte code of a length. */
  function LengthCode(n: nat): seq<nat> {
    if n > 0x7f then [0x80 + n / 256, n % 256] else [n]
  }

  /** Seven bits take one byte, and only they do; the high bit of the first byte tells. */
  lemma CodeIsShortest(n: nat)
    requires n < 0x8000
    ensures var code := LengthCode(n);
      && (|code| == 1 <==> n < 0x80) && 1 <= |code| <= 2 && (code[0] >= 0x80 <==> |code| == 2)
      && forall i :: 0 <= i < |code| ==> code[i] < 256
  {
  }

  /** Lengths of the alternating stretches before and inside the runs. */
  function Stretches(runs: seq<Run>, from: nat): seq<int>
    decreases |runs|
  {
    if runs == [] then []
    else [runs[0].start - from] + ([runs[0].length] + Stretches(runs[1..], runs[0].start + runs[0].length))
  }

  predicate Encodable(runs: seq<Run>, from: nat)
    decreases |runs|
  {
    runs != [] ==>
      && 0 <= runs[0].start - from < 0x8000 && runs[0].length < 0x8000
      && Encodable(runs[1..], runs[0].start + runs[0].length)
  }

  function Codes(runs: seq<Run>, from: nat): seq<nat>
    requires Encodable(runs, from)
    decreases |runs|
  {
    if runs == [] then []
    else LengthCode(runs[0].start - from) +
         (LengthCode(runs[0].length) + Codes(runs[1..], runs[0].start + runs[0].length))
  }

  function Flatten(entries: seq<seq<nat>>): seq<nat> {
    if entries == [] then [] else Flatten(entries[..|entries| - 1]) + entries[|entries| - 1]
  }

  /** None is the failing assertion on a stretch of 0x8000 or more. */
  method CompressNormal(normal: seq<Run>) returns (compressed: Option<seq<seq<nat>>>)
    requires OrderedRuns(normal)
    ensures compressed.Some? <==> Encodable(normal, 0)
    ensures compressed.Some? ==> Flatten(compressed.value) == Codes(normal, 0)
  {
    hide Codes, Encodable, Flatten, LengthCode;
    var entries: seq<seq<nat>> := [];
    var prevStart := 0;
    var k := 0;
    assert normal[0..] == normal;
    EncodingStarts(normal);
    while k < |normal|
      invariant k <= |normal|
      invariant prevStart == if k == 0 then 0 else normal[k - 1].start + normal[k - 1].length
      invariant Encoding(normal, entries, normal[k..], prevStart)
    {
      var start, count := normal[k].start, normal[k].length;
      var truelen, falselen := start - prevStart, count;
      prevStart := start + count;
      assert normal[k..][0] == normal[k] && normal[k..][1..] == normal[k + 1..];
      EncodeStep(normal, entries, normal[k..], start - truelen);
      if !(truelen < 0x8000 && falselen < 0x8000) {
        return None;
      }
      var entry := CompressEntry(truelen, falselen);
      entries := entries + [entry];
      k := k + 1;
    }
    EncodingEnds(normal, entries, prevStart);
    compressed := Some(entries);
  }

  lemma EncodingStarts(runs: seq<Run>)
    ensures Encoding(runs, [], runs, 0)
  {
  }

  lemma EncodingEnds(runs: seq<Run>, entries: seq<seq<nat>>, from: nat)
    requires Encoding(runs, entries, [], from)
    ensures Encodable(runs, 0) && Codes(runs, 0) == Flatten(entries)
  {
  }

  /** The entries made so far encode the runs before `rest`. */
  ghost predicate Encoding(runs: seq<Run>, entries: seq<seq<nat>>, rest: seq<Run>, from: nat) {
    && (Encodable(runs, 0) <==> Encodable(rest, from))
    && (Encodable(runs, 0) ==> Codes(runs, 0) == Flatten(entries) + Codes(rest, from))
  }

  lemma EncodeStep(runs: seq<Run>, entries: seq<seq<nat>>, rest: seq<Run>, from: nat)
    requires rest != [] && from <= rest[0].start && Encoding(runs, entries, rest, from)
    ensures var truelen, falselen := rest[0].start - from, rest[0].length;
      if truelen < 0x8000 && falselen < 0x8000
      then Encoding(runs, entries + [LengthCode(truelen) + LengthCode(falselen)], rest[1..], rest[0].start + falselen)
      else !Encodable(runs, 0)
  {
    hide LengthCode;
    var a, b := LengthCode(rest[0].start - from), LengthCode(rest[0].length);
    var entry := a + b;
    assert (entries + [entry])[..|entries|] == entries;
    if Encodable(runs, 0) {
      Regroup(Flatten(entries), a, b, Codes(rest[1..], rest[0].start + rest[0].length));
    }
  }

  lemma Regroup(f: seq<nat>, a: seq<nat>, b: seq<nat>, tail: seq<nat>)
    ensures f + (a + (b + tail)) == f + (a + b) + tail
  {
  }

  /** The loop body of compress_normal. */
  method CompressEntry(truelen: nat, falselen: nat) returns (entry: seq<nat>)
    ensures entry == LengthCode(truelen) + LengthCode(falselen)
  {
    entry := [];
    if truelen > 0x7f {
      entry := entry + [0x80 + truelen / 256];
      entry := entry + [truelen % 256];
    } else {
      entry := entry + [truelen % 0x80];
    }
    if falselen > 0x7f {
      entry := entry + [0x80 + falselen / 256];
      entry := entry + [falselen % 256];
    } else {
      entry := entry + [falselen % 0x80];
    }
  }

  // ----- The lookup --------------------------------------------------------------------------------

  /** The byte string ends with a complete code. */
  predicate CompleteCodes(bytes: seq<nat>)
    decreases |bytes|
  {
    bytes == [] ||
    if bytes[0] >= 0x80 then |bytes| >= 2 && CompleteCodes(bytes[2..]) else CompleteCodes(bytes[1..])
  }

  function Decoded(bytes: seq<nat>): seq<int>
    requires CompleteCodes(bytes)
    decreases |bytes|
  {
    if bytes == [] then []
    else if bytes[0] >= 0x80 then [bytes[0] % 0x80 * 256 + bytes[1]] + Decoded(bytes[2..])
    else [bytes[0]] + Decoded(bytes[1..])
  }

  /** Walks the alternating stretches until x falls into one. */
  function Walk(stretches: seq<int>, x: int, current: bool): bool
    decreases |stretches|
  {
    if stretches == [] || x - stretches[0] < 0 then current
    else Walk(stretches[1..], x - stretches[0], !current)
  }

  ghost predicate SingletonHit(us: seq<Singleton>, ls: seq<nat>, x: nat) {
    exists g: nat, j: nat :: InGroup(us, g, j) && j < |ls| && us[g].upper == x / 256 && ls[j] == x % 256
  }

  /** Tables the 16-bit lookup can read without leaving their bounds. */
  ghost predicate Readable(us: seq<Singleton>, ls: seq<nat>, normal: seq<nat>) {
    && Start(us, |us|) <= |ls|
    && (forall g, h :: 0 <= g < h < |us| ==> us[g].upper < us[h].upper)
    && CompleteCodes(normal)
  }

  method IsPrintable16(x: nat, us: seq<Singleton>, ls: seq<nat>, normal: seq<nat>) returns (r: bool)
    requires x < 0x1_0000 && Readable(us, ls, normal)
    ensures r <==> !SingletonHit(us, ls, x) && Walk(Decoded(normal), x, true)
  {
    var upper := x / 256;
    var lowerStart := 0;
    var i := 0;
    while i < |us|
      invariant i <= |us| && lowerStart == Start(us, i)
      invariant forall g: nat, j: nat | InGroup(us, g, j) && g < i && j < |ls| :: !(us[g].upper == upper && ls[j] == x % 256)
    {
      var s := us[i];
      var lowerEnd := lowerStart + s.count;
      StartMonotone(us, i + 1, |us|);
      if upper < s.upper {
        break;
      }
      if upper == s.upper {
        var j := lowerStart;
        while j < lowerEnd
          invariant lowerStart <= j <= lowerEnd
          invariant forall m :: lowerStart <= m < j ==> ls[m] != x % 256
        {
          if ls[j] == x % 256 {
            assert InGroup(us, i, j);
            return false;
          }
          j := j + 1;
        }
      }
      lowerStart := lowerEnd;
      i := i + 1;
    }
    r := WalkBytes(x, normal);
  }

  /** The second loop of the 16-bit lookup. */
  method WalkBytes(x: nat, normal: seq<nat>) returns (current: bool)
    requires CompleteCodes(normal)
    ensures current == Walk(Decoded(normal), x, true)
  {
    var xsigned: int := x;
    current := true;
    var i := 0;
    while i < |normal|
      invariant i <= |normal| && CompleteCodes(normal[i..])
      invariant Walk(Decoded(normal), x, true) == Walk(Decoded(normal[i..]), xsigned, current)
    {
      var rest := normal[i..];
      var v := normal[i];
      var len;
      if v >= 0x80 {
        i := i + 1;
        len := v % 0x80 * 256 + normal[i];
        assert rest[2..] == normal[i + 1..];
      } else {
        len := v;
        assert rest[1..] == normal[i + 1..];
      }
      assert Decoded(rest) == [len] + Decoded(normal[i + 1..]);
      xsigned := xsigned - len;
      if xsigned < 0 {
        return;
      }
      current := !current;
      i := i + 1;
    }
  }

  // ----- Decoding undoes encoding ---------------------------------------------------------------------

  lemma {:induction false} GroupOf(us: seq<Singleton>, n: nat, j: nat) returns (g: nat)
    requires n <= |us| && j < Start(us, n)
    ensures g < n && InGroup(us, g, j)
  {
    if j >= Start(us, n - 1) {
      g := n - 1;
    } else {
      g := GroupOf(us, n - 1, j);
    }
  }

  /** The grouped bytes hit exactly the singletons they were made from. */
  lemma HitsAreSingletons(us: seq<Singleton>, ls: seq<nat>, s: seq<nat>, x: nat)
    requires Grouped(us, ls, s)
    ensures SingletonHit(us, ls, x) <==> x in s
  {
    if SingletonHit(us, ls, x) {
      var g: nat, j: nat :| InGroup(us, g, j) && j < |ls| && us[g].upper == x / 256 && ls[j] == x % 256;
      assert s[j] == x;
    }
    if x in s {
      var j: nat :| j < |s| && s[j] == x;
      var g := GroupOf(us, |us|, j);
      assert s[j] == 256 * us[g].upper + ls[j];
      DivMod256(us[g].upper, ls[j]);
    }
  }

  lemma DivMod256(u: nat, l: nat)
    requires l < 256
    ensures (256 * u + l) / 256 == u && (256 * u + l) % 256 == l
  {
  }

  lemma DecodeLength(n: nat, rest: seq<nat>)
    requires n < 0x8000 && CompleteCodes(rest)
    ensures CompleteCodes(LengthCode(n) + rest)
    ensures Decoded(LengthCode(n) + rest) == [n] + Decoded(rest)
  {
    var bytes := LengthCode(n) + rest;
    if n > 0x7f {
      assert bytes[2..] == rest;
    } else {
      assert bytes[1..] == rest;
    }
  }

  lemma {:induction false} CodesDecode(runs: seq<Run>, from: nat)
    requires Encodable(runs, from)
    ensures CompleteCodes(Codes(runs, from)) && Decoded(Codes(runs, from)) == Stretches(runs, from)
    decreases |runs|
  {
    if runs != [] {
      hide LengthCode;
      var end := runs[0].start + runs[0].length;
      CodesDecode(runs[1..], end);
      var tail := Codes(runs[1..], end);
      DecodeLength(runs[0].length, tail);
      DecodeLength(runs[0].start - from, LengthCode(runs[0].length) + tail);
    }
  }

  lemma {:induction false} CodesAreBytes(runs: seq<Run>, from: nat)
    requires Encodable(runs, from)
    ensures Bytes(Codes(runs, from))
    decreases |runs|
  {
    if runs != [] {
      CodesAreBytes(runs[1..], runs[0].start + runs[0].length);
    }
  }

  lemma InRunsSplit(runs: seq<Run>, x: nat)
    requires runs != []
    ensures InRuns(runs, x) <==> runs[0].start <= x < runs[0].start + runs[0].length || InRuns(runs[1..], x)
  {
    if InRuns(runs[1..], x) {
      var i :| 0 <= i < |runs| - 1 && runs[1..][i].start <= x < runs[1..][i].start + runs[1..][i].length;
      assert runs[i + 1] == runs[1..][i];
    }
    if InRuns(runs, x) {
      var i :| 0 <= i < |runs| && runs[i].start <= x < runs[i].start + runs[i].length;
      assert i > 0 ==> runs[1..][i - 1] == runs[i];
    }
  }

  /** Walking the stretches from `from` on finds out whether x is inside a run. */
  lemma {:induction false} WalkFindsRuns(runs: seq<Run>, from: nat, x: nat)
    requires OrderedRuns(runs) && from <= x && (runs != [] ==> from <= runs[0].start)
    ensures Walk(Stretches(runs, from), x - from, true) <==> !InRuns(runs, x)
    decreases |runs|
  {
    if runs != [] {
      InRunsSplit(runs, x);
      hide InRuns;
      var start, end := runs[0].start, runs[0].start + runs[0].length;
      var tail := Stretches(runs[1..], end);
      WalkTwo(start - from, runs[0].length, tail, x - from);
      if x >= end {
        WalkFindsRuns(runs[1..], end, x);
      } else {
        BeforeRuns(runs[1..], end, x);
      }
    }
  }

  lemma BeforeRuns(runs: seq<Run>, from: nat, x: nat)
    requires forall i :: 0 <= i < |runs| ==> from <= runs[i].start
    requires x < from
    ensures !InRuns(runs, x)
  {
  }

  /** One step outside and one step inside a run. */
  lemma WalkTwo(a: int, b: int, tail: seq<int>, x: int)
    ensures Walk([a] + ([b] + tail), x, true)
         == if x < a then true else if x - a < b then false else Walk(tail, x - a - b, true)
  {
    assert ([a] + ([b] + tail))[1..] == [b] + tail;
    assert ([b] + tail)[1..] == tail;
  }

  // ----- Whole tables ------------------------------------------------------------------------------------

  datatype Tables = Tables(
    us0: seq<Singleton>, ls0: seq<nat>, us1: seq<Singleton>, ls1: seq<nat>,
    normal0: seq<nat>, normal1: seq<nat>, extra: seq<Run>)

  /** The classes of a set of points. */
  ghost predicate Classified(points: seq<nat>, c: Classes) {
    Orderly(c) && exists rs :: RangesOf(points, rs) && ClassesOf(rs, c) && Shapely(rs) && c == Placed(rs)
  }

  /** Where a range starts says only what the points say: one is there and none before it, or a cut is. */
  predicate Starts(points: seq<nat>, x: nat) {
    x in points && (x == 0 || x - 1 !in points || IsCut(x))
  }

  lemma LowIsStart(points: seq<nat>, rs: seq<Range>, i: nat, x: nat)
    requires RangesOf(points, rs) && i < |rs| && rs[i].lo <= x < rs[i].hi
    ensures Starts(points, x) <==> x == rs[i].lo
  {
    assert InRanges(rs, x);
    if x > rs[i].lo {
      assert rs[i].lo <= x - 1 < rs[i].hi;
      assert InRanges(rs, x - 1);
    } else if x > 0 && x - 1 in points {
      var j :| 0 <= j < |rs| && rs[j].lo <= x - 1 < rs[j].hi;
      assert j < i;
      assert rs[j].hi <= rs[i - 1].hi || j == i - 1;
      assert rs[i - 1].hi == rs[i].lo;
    }
  }

  /** Two lists of ranges of the same points that agree so far do not start the next range apart. */
  lemma NextStart(points: seq<nat>, rs: seq<Range>, rs': seq<Range>, k: nat)
    requires RangesOf(points, rs) && RangesOf(points, rs') && k < |rs| && k <= |rs'| && rs[..k] == rs'[..k]
    ensures k < |rs'| && rs'[k].lo <= rs[k].lo
  {
    var x := rs[k].lo;
    assert InRanges(rs, x);
    assert forall i :: 0 <= i < k ==> rs'[i] == rs'[..k][i] == rs[i];
    var j :| 0 <= j < |rs'| && rs'[j].lo <= x < rs'[j].hi;
    LowIsStart(points, rs, k, x);
    LowIsStart(points, rs', j, x);
  }

  lemma NextEnd(points: seq<nat>, rs: seq<Range>, rs': seq<Range>, k: nat)
    requires RangesOf(points, rs) && RangesOf(points, rs') && k < |rs| && k < |rs'| && rs[k].lo == rs'[k].lo
    ensures rs'[k].hi <= rs[k].hi
  {
    var x := rs[k].hi;
    if x < rs'[k].hi {
      LowIsStart(points, rs', k, x);
      assert InRanges(rs', x);
      var j :| 0 <= j < |rs| && rs[j].lo <= x < rs[j].hi;
      assert j > k;
      assert rs[j].lo == x;
      LowIsStart(points, rs, j, x);
    }
  }

  /** A set of points has one list of maximal ranges. */
  lemma {:induction false} RangesAreUnique(points: seq<nat>, rs: seq<Range>, rs': seq<Range>, k: nat)
    requires RangesOf(points, rs) && RangesOf(points, rs') && k <= |rs| && k <= |rs'| && rs[..k] == rs'[..k]
    ensures rs == rs'
    decreases |rs| - k
  {
    if k < |rs| {
      NextStart(points, rs, rs', k);
      NextStart(points, rs', rs, k);
      NextEnd(points, rs, rs', k);
      NextEnd(points, rs', rs, k);
      assert rs[..k + 1] == rs[..k] + [rs[k]] == rs'[..k + 1];
      RangesAreUnique(points, rs, rs', k + 1);
    } else if k < |rs'| {
      NextStart(points, rs', rs, k);
    } else {
      assert rs == rs[..k] && rs' == rs'[..k];
    }
  }

  /** So the points alone decide the classes, and with them whether tables can be made. */
  lemma ClassesAreUnique(points: seq<nat>, c: Classes, c': Classes)
    requires Classified(points, c) && Classified(points, c')
    ensures c == c'
  {
    var rs :| RangesOf(points, rs) && ClassesOf(rs, c) && Shapely(rs) && c == Placed(rs);
    var rs' :| RangesOf(points, rs') && ClassesOf(rs', c') && Shapely(rs') && c' == Placed(rs');
    hide RangesOf, ClassesOf, Placed;
    RangesAreUnique(points, rs, rs', 0);
  }

  ghost predicate Compressed(c: Classes, t: Tables) {
    && Grouped(t.us0, t.ls0, c.singletons0) && Grouped(t.us1, t.ls1, c.singletons1)
    && Encodable(c.normal0, 0) && t.normal0 == Codes(c.normal0, 0)
    && Encodable(c.normal1, 0) && t.normal1 == Codes(c.normal1, 0)
    && t.extra == c.extra
  }

  /** main of the generator.  It fails only where a stretch between or inside the runs of a
      plane is too long for the two-byte code. */
  method Generate(points: seq<nat>) returns (tables: Option<Tables>, ghost c: Classes)
    requires Ascending(points)
    ensures Classified(points, c)
    ensures tables.Some? <==> Encodable(c.normal0, 0) && Encodable(c.normal1, 0)
    ensures tables.Some? ==> Compressed(c, tables.value) && AllReadable(tables.value)
    ensures tables.Some? && (forall x :: x in points ==> x < NUM_CODEPOINTS) && GoodStart(points) ==>
      forall cp: nat :: Printable(tables.value, cp) <==> cp < NUM_CODEPOINTS && cp !in points
  {
    var ranges := ToRanges(points);
    assert Maximal(ranges);
    hide Grouped, Encodable, Codes, ClassesOf, RangesOf, Maximal, Placed, AllReadable, Printable;
    var classes := Classify(ranges);
    c := classes;
    var us0, ls0 := CompressSingletons(classes.singletons0);
    var us1, ls1 := CompressSingletons(classes.singletons1);
    var normal0 := CompressNormal(classes.normal0);
    if normal0.None? {
      return None, c;
    }
    var normal1 := CompressNormal(classes.normal1);
    if normal1.None? {
      return None, c;
    }
    var t := Tables(us0, ls0, us1, ls1, Flatten(normal0.value), Flatten(normal1.value), classes.extra);
    CompressedIsReadable(c, t);
    if (forall x :: x in points ==> x < NUM_CODEPOINTS) && GoodStart(points) {
      TablesAreExact(points, c, t);
    }
    tables := Some(t);
  }

  ghost predicate PrintableIn(us: seq<Singleton>, ls: seq<nat>, normal: seq<nat>, x: nat)
    requires CompleteCodes(normal)
  {
    !SingletonHit(us, ls, x) && Walk(Decoded(normal), x, true)
  }

  /** The tables of both planes can be read. */
  ghost predicate AllReadable(t: Tables) {
    Readable(t.us0, t.ls0, t.normal0) && Readable(t.us1, t.ls1, t.normal1)
  }

  ghost predicate Printable(t: Tables, cp: nat)
    requires AllReadable(t)
  {
    if cp < 0x1_0000 then PrintableIn(t.us0, t.ls0, t.normal0, cp % 0x1_0000)
    else if cp < 0x2_0000 then PrintableIn(t.us1, t.ls1, t.normal1, cp % 0x1_0000)
    else !InRuns(t.extra, cp) && cp < NUM_CODEPOINTS
  }

  /** The 32-bit lookup over generated tables; the extra ranges are a chain of tests. */
  method IsPrintable(cp: nat, t: Tables) returns (r: bool)
    requires cp < 0x1_0000_0000 && AllReadable(t)
    ensures r == Printable(t, cp)
  {
    var lower := cp % 0x1_0000;
    if cp < 0x1_0000 {
      r := IsPrintable16(lower, t.us0, t.ls0, t.normal0);
      return;
    }
    if cp < 0x2_0000 {
      r := IsPrintable16(lower, t.us1, t.ls1, t.normal1);
      return;
    }
    var i := 0;
    while i < |t.extra|
      invariant i <= |t.extra| && !InRuns(t.extra[..i], cp)
    {
      var run := t.extra[i];
      if run.start <= cp && cp < run.start + run.length {
        return false;
      }
      AppendRun(t.extra[..i], run, cp);
      i := i + 1;
      assert t.extra[..i] == t.extra[..i - 1] + [run];
    }
    assert t.extra[..i] == t.extra;
    r := cp < NUM_CODEPOINTS;
  }

  /** Every table of a compressed class can be read, so the lookup never leaves its bounds. */
  lemma CompressedIsReadable(c: Classes, t: Tables)
    requires Compressed(c, t)
    ensures AllReadable(t)
  {
    CodesDecode(c.normal0, 0);
    CodesDecode(c.normal1, 0);
  }

  lemma PlaneIsExact(singletons: seq<nat>, runs: seq<Run>, us: seq<Singleton>, ls: seq<nat>, normal: seq<nat>, x: nat)
    requires OrderedRuns(runs) && Grouped(us, ls, singletons)
    requires Encodable(runs, 0) && normal == Codes(runs, 0)
    ensures CompleteCodes(normal) && (PrintableIn(us, ls, normal, x) <==> !Escapes(singletons, runs, x))
  {
    CodesDecode(runs, 0);
    HitsAreSingletons(us, ls, singletons, x);
    WalkFindsRuns(runs, 0, x);
  }

  /** No range of length one or two starts exactly at twice the cutoff. */
  predicate GoodStart(points: seq<nat>) {
    2 * CUTOFF in points ==> 2 * CUTOFF + 1 in points && 2 * CUTOFF + 2 in points
  }

  /** The range of an escaped point lies on the point's side of every cut. */
  lemma RangeOf(points: seq<nat>, rs: seq<Range>, cp: nat) returns (i: nat)
    requires RangesOf(points, rs) && cp in points
    ensures i < |rs| && rs[i].lo <= cp < rs[i].hi
    ensures cp >= CUTOFF ==> rs[i].lo >= CUTOFF
    ensures cp >= 2 * CUTOFF ==> rs[i].lo >= 2 * CUTOFF
  {
    assert InRanges(rs, cp);
    i :| 0 <= i < |rs| && rs[i].lo <= cp < rs[i].hi;
    assert IsCut(CUTOFF) && IsCut(2 * CUTOFF);
  }

  lemma Plane0Kind(points: seq<nat>, rs: seq<Range>, cp: nat)
    requires RangesOf(points, rs) && cp < CUTOFF
    ensures InKind(rs, Plane0, cp) <==> cp in points
  {
    if InKind(rs, Plane0, cp) {
      assert InRanges(rs, cp);
    }
    if cp in points {
      var i := RangeOf(points, rs, cp);
      assert KindOf(rs[i]) == Plane0;
    }
  }

  lemma Plane1Kind(points: seq<nat>, rs: seq<Range>, cp: nat)
    requires RangesOf(points, rs) && CUTOFF <= cp < 2 * CUTOFF
    ensures InKind(rs, Plane1, cp) <==> cp in points
  {
    if InKind(rs, Plane1, cp) {
      assert InRanges(rs, cp);
    }
    if cp in points {
      var i := RangeOf(points, rs, cp);
      assert KindOf(rs[i]) == Plane1;
    }
  }

  /** The point after a range is not escaped, unless the range was cut there. */
  lemma AfterRange(points: seq<nat>, rs: seq<Range>, i: nat)
    requires RangesOf(points, rs) && i < |rs| && !IsCut(rs[i].hi)
    ensures rs[i].hi !in points
  {
    forall j | 0 <= j < |rs|
      ensures !(rs[j].lo <= rs[i].hi < rs[j].hi)
    {
      assert rs[i].lo < rs[i].hi;
      assert i + 1 < |rs| ==> rs[i].hi < rs[i + 1].lo < rs[i + 1].hi;
      assert i + 1 < j ==> rs[i + 1].hi <= rs[j].lo;
    }
    assert !InRanges(rs, rs[i].hi);
  }

  /** A range that starts at twice the cutoff is long exactly when the next two points are
      escaped too. */
  lemma ShortAtStart(points: seq<nat>, rs: seq<Range>, i: nat)
    requires RangesOf(points, rs) && i < |rs| && rs[i].lo == 2 * CUTOFF
    ensures rs[i].hi > 2 * CUTOFF + 2 <==> GoodStart(points)
  {
    var lo, hi := rs[i].lo, rs[i].hi;
    assert InRanges(rs, lo);
    AfterRange(points, rs, i);
    if hi > lo + 2 {
      assert InRanges(rs, lo + 1) && InRanges(rs, lo + 2);
    }
  }

  lemma ExtraKind(points: seq<nat>, rs: seq<Range>, cp: nat)
    requires RangesOf(points, rs) && cp >= 2 * CUTOFF
    ensures GoodStart(points) ==> (InKind(rs, Extra, cp) <==> cp in points)
    ensures !GoodStart(points) && cp == 2 * CUTOFF ==> !InKind(rs, Extra, cp)
  {
    if InKind(rs, Extra, cp) {
      assert InRanges(rs, cp);
      var i :| 0 <= i < |rs| && KindOf(rs[i]) == Extra && rs[i].lo <= cp < rs[i].hi;
      if rs[i].lo == 2 * CUTOFF {
        ShortAtStart(points, rs, i);
      }
    }
    if cp in points && GoodStart(points) {
      var i := RangeOf(points, rs, cp);
      if rs[i].lo == 2 * CUTOFF {
        ShortAtStart(points, rs, i);
      }
      assert KindOf(rs[i]) == Extra;
    }
  }

  /** The lookup over the generated tables is set membership, for every 32-bit value, exactly
      when no range of length one or two starts at twice the cutoff. */
  lemma TablesAreExact(points: seq<nat>, c: Classes, t: Tables)
    requires Classified(points, c) && Compressed(c, t)
    requires forall x :: x in points ==> x < NUM_CODEPOINTS
    ensures AllReadable(t)
    ensures (forall cp: nat :: Printable(t, cp) <==> cp < NUM_CODEPOINTS && cp !in points) <==> GoodStart(points)
  {
    CompressedIsReadable(c, t);
    var rs :| RangesOf(points, rs) && ClassesOf(rs, c);
    forall cp: nat
      ensures GoodStart(points) ==> (Printable(t, cp) <==> cp < NUM_CODEPOINTS && cp !in points)
      ensures !GoodStart(points) && cp == 2 * CUTOFF ==> Printable(t, cp)
    {
      LookupOfPoint(points, rs, c, t, cp);
    }
  }

  lemma LookupOfPoint(points: seq<nat>, rs: seq<Range>, c: Classes, t: Tables, cp: nat)
    requires RangesOf(points, rs) && ClassesOf(rs, c) && Orderly(c) && Compressed(c, t) && AllReadable(t)
    requires forall x :: x in points ==> x < NUM_CODEPOINTS
    ensures GoodStart(points) || cp < 2 * CUTOFF ==> (Printable(t, cp) <==> cp < NUM_CODEPOINTS && cp !in points)
    ensures !GoodStart(points) && cp == 2 * CUTOFF ==> Printable(t, cp)
  {
    hide InKind, RangesOf, Grouped, Encodable, Codes, PrintableIn, GoodStart;
    if cp < CUTOFF {
      PlaneIsExact(c.singletons0, c.normal0, t.us0, t.ls0, t.normal0, cp);
      Plane0Kind(points, rs, cp);
    } else if cp < 2 * CUTOFF {
      PlaneIsExact(c.singletons1, c.normal1, t.us1, t.ls1, t.normal1, cp - CUTOFF);
      Plane1Kind(points, rs, cp);
    } else {
      ExtraKind(points, rs, cp);
    }
  }

  // ----- Every number in the tables fits its unsigned char --------------------------------------------------

  predicate Bytes(s: seq<nat>) {
    forall b :: b in s ==> b < 256
  }

  predicate SingletonBytes(us: seq<Singleton>) {
    forall g :: 0 <= g < |us| ==> us[g].upper < 256 && us[g].count < 256
  }

  predicate AllBytes(t: Tables) {
    && SingletonBytes(t.us0) && Bytes(t.ls0) && SingletonBytes(t.us1) && Bytes(t.ls1)
    && Bytes(t.normal0) && Bytes(t.normal1)
  }

  lemma GroupsAreBytes(us: seq<Singleton>, ls: seq<nat>, s: seq<nat>)
    requires Grouped(us, ls, s) && Ascending(s) && NoTriple(s)
    ensures SingletonBytes(us) <==> forall x :: x in s ==> x < CUTOFF
  {
    forall g | 0 <= g < |us|
      ensures us[g].count < 256
      ensures (forall x :: x in s ==> x < CUTOFF) ==> us[g].upper < 256
    {
      CountsFitByte(us, ls, s, g);
      StartMonotone(us, g + 1, |us|);
      assert InGroup(us, g, Start(us, g));
      assert s[Start(us, g)] in s;
    }
    forall x | x in s
      ensures SingletonBytes(us) ==> x < CUTOFF
    {
      var j: nat :| j < |s| && s[j] == x;
      var g := GroupOf(us, |us|, j);
    }
  }

  /** The same condition decides whether the table initializers fit their types. */
  lemma TablesAreBytes(points: seq<nat>, c: Classes, t: Tables)
    requires Classified(points, c) && Compressed(c, t)
    ensures AllBytes(t) <==> GoodStart(points)
  {
    var rs :| RangesOf(points, rs) && ClassesOf(rs, c);
    CodesAreBytes(c.normal0, 0);
    CodesAreBytes(c.normal1, 0);
    GroupsAreBytes(t.us0, t.ls0, c.singletons0);
    GroupsAreBytes(t.us1, t.ls1, c.singletons1);
    PlaneBounds(points, rs, c);
  }

  lemma PlaneBounds(points: seq<nat>, rs: seq<Range>, c: Classes)
    requires RangesOf(points, rs) && ClassesOf(rs, c) && OrderedRuns(c.normal0)
    ensures forall x :: x in c.singletons1 ==> x < CUTOFF
    ensures (forall x :: x in c.singletons0 ==> x < CUTOFF) <==> GoodStart(points)
  {
    hide Maximal, InRanges, GoodStart;
    forall x | x in c.singletons1
      ensures x < CUTOFF
    {
      assert Escapes(c.singletons1, c.normal1, x);
      KindBound(points, rs, Plane1, x + CUTOFF);
    }
    forall x | x in c.singletons0
      ensures GoodStart(points) ==> x < CUTOFF
    {
      assert Escapes(c.singletons0, c.normal0, x);
      KindBound(points, rs, Plane0, x);
    }
    if !GoodStart(points) {
      ShortStartIsPlane0(points, rs);
      assert Escapes(c.singletons0, c.normal0, 2 * CUTOFF);
    }
  }

  lemma KindBound(points: seq<nat>, rs: seq<Range>, kind: Kind, x: nat)
    requires RangesOf(points, rs) && InKind(rs, kind, x)
    ensures kind == Plane1 ==> x < 2 * CUTOFF
    ensures kind == Plane0 && GoodStart(points) ==> x < CUTOFF
  {
    assert IsCut(CUTOFF) && IsCut(2 * CUTOFF);
    var i :| 0 <= i < |rs| && KindOf(rs[i]) == kind && rs[i].lo <= x < rs[i].hi;
    if rs[i].lo == 2 * CUTOFF {
      ShortAtStart(points, rs, i);
    }
  }

  lemma ShortStartIsPlane0(points: seq<nat>, rs: seq<Range>)
    requires RangesOf(points, rs) && !GoodStart(points)
    ensures InKind(rs, Plane0, 2 * CUTOFF)
  {
    var i := RangeOf(points, rs, 2 * CUTOFF);
    ShortAtStart(points, rs, i);
    assert KindOf(rs[i]) == Plane0;
  }

  /** Generator and lookup together: whatever tables come out, the answer for a codepoint is
      plain set membership. */
  method GenerateAndLookUp(points: seq<nat>, cp: nat) returns (answer: Option<bool>, ghost c: Classes)
    requires Ascending(points) && (forall x :: x in points ==> x < NUM_CODEPOINTS)
    requires GoodStart(points) && cp < 0x1_0000_0000
    ensures answer.Some? ==> (answer.value <==> cp < NUM_CODEPOINTS && cp !in points)
    ensures Classified(points, c) && (answer.Some? <==> Encodable(c.normal0, 0) && Encodable(c.normal1, 0))
  {
    hide Compressed, Classified, AllReadable, Printable, Encodable;
    var tables;
    tables, c := Generate(points);
    if tables.None? {
      return None, c;
    }
    var printable := IsPrintable(cp, tables.value);
    answer := Some(printable);
  }

  /** 0x20000 alone, escaped: it is put among the singletons of the first plane, with a high
      byte of 0x200, and the lookup calls it printable. */
  lemma ShortRangeExample()
    ensures !GoodStart([0x2_0000])
    ensures var c := Classes([0x2_0000], [], [], [], []);
      var t := Tables([Singleton(0x200, 1)], [0], [], [], [], [], []);
      Classified([0x2_0000], c) && Compressed(c, t) && AllReadable(t) && Printable(t, 0x2_0000)
  {
    hide RangesOf, ClassesOf, Orderly, Grouped, AllReadable, Placed, Shapely;
    var c := Classes([0x2_0000], [], [], [], []);
    var t := Tables([Singleton(0x200, 1)], [0], [], [], [], [], []);
    var rs := [Range(0x2_0000, 0x2_0001)];
    ShortRange(rs);
    ShortRangeClasses(rs, c);
    ShortRangeGroups();
    CompressedIsReadable(c, t);
  }

  lemma ShortRange(rs: seq<Range>)
    requires rs == [Range(0x2_0000, 0x2_0001)]
    ensures RangesOf([0x2_0000], rs)
  {
    assert rs[0].lo <= 0x2_0000 < rs[0].hi;
    assert forall x :: InRanges(rs, x) <==> x == 0x2_0000;
  }

  lemma ShortRangeClasses(rs: seq<Range>, c: Classes)
    requires rs == [Range(0x2_0000, 0x2_0001)] && c == Classes([0x2_0000], [], [], [], [])
    ensures ClassesOf(rs, c) && Orderly(c) && Shapely(rs) && c == Placed(rs)
  {
    assert KindOf(rs[0]) == Plane0;
    assert forall x: nat :: InKind(rs, Plane0, x) <==> x == 0x2_0000 by {
      assert rs[0].lo <= 0x2_0000 < rs[0].hi;
    }
    assert rs[..0] == [] && Placed([]) == Classes([], [], [], [], []);
  }

  lemma ShortRangeGroups()
    ensures Grouped([Singleton(0x200, 1)], [0], [0x2_0000]) && Grouped([], [], [])
  {
    var us := [Singleton(0x200, 1)];
    assert Start(us, 0) == 0 && Start(us, 1) == 1;
  }
}
