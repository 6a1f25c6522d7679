/**
  What matching writes into objects.  A leaf that accumulates assigns to the value of an
  object, and nothing takes that back: not the failure of a sibling, not Either choosing
  another child.  So the values after a match are those of all attempts, kept or not, and an
  object keeps its value exactly when no attempt of an accumulating leaf was made on it.
 */
module DocoptWrites {
  import opened DocoptPatterns
  import opened DocoptMatch

  // ----- The attempts of a match -----------------------------------------------------------------------

  /** A leaf that matched on these lists, starting from this store. */
  datatype Attempt = Attempt(self: TreeLeaf, left: seq<Id>, collected: seq<Id>, store: Store)

  predicate Sane(a: Attempt) { Live(a.left, a.store) && Live(a.collected, a.store) }

  function Result(a: Attempt): Outcome
    requires Sane(a)
  {
    MatchLeaf(a.self, a.left, a.collected, a.store)
  }

  /** All attempts of a match in their order, those that were given up or discarded included. */
  function Attempts(p: Pattern, left: seq<Id>, collected: seq<Id>, store: Store): seq<Attempt>
    requires Live(left, store) && Live(collected, store)
    decreases p, 1, 0, 0
  {
    match p
    case Tip(leaf) =>
      var o := MatchLeaf(leaf, left, collected, store);
      if o.Match? && o.ok then [Attempt(leaf, left, collected, store)] else []
    case Branch(Required, cs) => EachAttempts(cs, left, collected, store)
    case Branch(OneOrMore, cs) => if |cs| != 1 then [] else RepeatAttempts(cs[0], left, collected, store, [], true)
    case Branch(Either, cs) => BestAttempts(cs, left, collected, store)
    case Branch(_, cs) => AnyAttempts(cs, left, collected, store)
  }

  function EachAttempts(cs: seq<Pattern>, left: seq<Id>, collected: seq<Id>, store: Store): seq<Attempt>
    requires Live(left, store) && Live(collected, store)
    decreases cs, 0, 0, 0
  {
    if cs == [] then []
    else
      var o := MatchTree(cs[0], left, collected, store);
      Attempts(cs[0], left, collected, store) +
      if o.Raises? || !o.ok then [] else EachAttempts(cs[1..], o.left, o.collected, o.store)
  }

  function AnyAttempts(cs: seq<Pattern>, left: seq<Id>, collected: seq<Id>, store: Store): seq<Attempt>
    requires Live(left, store) && Live(collected, store)
    decreases cs, 0, 0, 0
  {
    if cs == [] then []
    else
      var o := MatchTree(cs[0], left, collected, store);
      Attempts(cs[0], left, collected, store) +
      if o.Raises? then [] else AnyAttempts(cs[1..], o.left, o.collected, o.store)
  }

  function BestAttempts(cs: seq<Pattern>, left: seq<Id>, collected: seq<Id>, store: Store): seq<Attempt>
    requires Live(left, store) && Live(collected, store)
    decreases cs, 0, 0, 0
  {
    if cs == [] then []
    else
      var o := MatchTree(cs[0], left, collected, store);
      Attempts(cs[0], left, collected, store) +
      if o.Raises? then [] else BestAttempts(cs[1..], left, collected, o.store)
  }

  function RepeatAttempts(child: Pattern, left: seq<Id>, collected: seq<Id>, store: Store,
                          previous: seq<Id>, first: bool): seq<Attempt>
    requires Live(left, store) && Live(collected, store)
    requires !first ==> previous == left
    decreases child, 2, |left|, if first then 1 else 0
  {
    var o := MatchTree(child, left, collected, store);
    Attempts(child, left, collected, store) +
    if o.Raises? || !o.ok || (!first && View(previous, o.store) == View(o.left, o.store)) then []
    else RepeatAttempts(child, o.left, o.collected, o.store, o.left, false)
  }

  /** Each attempt starts from the store the one before it left. */
  ghost predicate Chain(log: seq<Attempt>, store: Store, store': Store)
    decreases |log|
  {
    if log == [] then store' == store
    else
      && Sane(log[0]) && log[0].store == store && Result(log[0]).Match? && Result(log[0]).ok
      && Chain(log[1..], Result(log[0]).store, store')
  }

  /** The attempts are of these leaves, on lists with objects of this list only. */
  ghost predicate Within(log: seq<Attempt>, left: seq<Id>, leaves: set<TreeLeaf>) {
    forall k :: 0 <= k < |log| ==> log[k].self in leaves && forall x :: x in log[k].left ==> x in left
  }

  ghost predicate Explains(log: seq<Attempt>, left: seq<Id>, leaves: set<TreeLeaf>, store: Store, o: Outcome) {
    o.Match? ==> Chain(log, store, o.store) && Within(log, left, leaves)
  }

  lemma {:induction false} ChainConcat(a: seq<Attempt>, b: seq<Attempt>, store: Store, store1: Store, store2: Store)
    requires Chain(a, store, store1) && Chain(b, store1, store2)
    ensures Chain(a + b, store, store2)
    decreases |a|
  {
    hide Sane, Result;
    if a == [] {
      assert a + b == b;
    } else {
      assert (a + b)[0] == a[0] && (a + b)[1..] == a[1..] + b;
      ChainConcat(a[1..], b, Result(a[0]).store, store1, store2);
    }
  }

  lemma ExplainsThen(a: seq<Attempt>, b: seq<Attempt>, left: seq<Id>, left1: seq<Id>, x: set<TreeLeaf>, y: set<TreeLeaf>,
                     z: set<TreeLeaf>, store: Store, o: Outcome, o': Outcome)
    requires o.Match? && Explains(a, left, x, store, o) && Explains(b, left1, y, o.store, o')
    requires (forall i :: i in left1 ==> i in left) && x <= z && y <= z
    ensures Explains(a + b, left, z, store, o')
  {
    if o'.Match? {
      ChainConcat(a, b, store, o.store, o'.store);
    }
    hide Chain;
  }

  /** The log explains the store: every value an object has is what the last attempt on it
      wrote, and an object nobody attempted to write is what it was. */
  lemma {:induction false} AttemptsExplain(p: Pattern, left: seq<Id>, collected: seq<Id>, store: Store)
    requires Live(left, store) && Live(collected, store)
    ensures Explains(Attempts(p, left, collected, store), left, LeavesOf(p), store, MatchTree(p, left, collected, store))
    decreases p, 1, 0, 0
  {
    match p
    case Tip(leaf) =>
      LeafFails(leaf, left, collected, store);
      hide MatchLeaf;
      var log := Attempts(p, left, collected, store);
      if log != [] {
        var a := Attempt(leaf, left, collected, store);
        assert log == [a] && log[1..] == [] && Sane(a) && a.self in LeavesOf(p);
        assert Chain([], Result(a).store, Result(a).store);
        assert Chain(log, store, Result(a).store);
      }
    case Branch(Required, cs) => EachExplain(cs, left, collected, store);
    case Branch(OneOrMore, cs) =>
      if |cs| == 1 {
        RepeatExplain(cs[0], left, collected, store, [], true, 0);
        assert LeavesOfAll(cs) == LeavesOf(cs[0]) by { assert cs[1..] == []; }
      }
    case Branch(Either, cs) => BestExplain(cs, left, collected, store);
    case Branch(_, cs) => AnyExplain(cs, left, collected, store);
  }

  /** What a match leaves was left before. */
  lemma LeftBefore(p: Pattern, left: seq<Id>, collected: seq<Id>, store: Store)
    requires Live(left, store) && Live(collected, store) && MatchTree(p, left, collected, store).Match?
    ensures forall i :: i in MatchTree(p, left, collected, store).left ==> i in left
  {
    MatchIsFramed(p, left, collected, store);
    SubsequenceMembers(MatchTree(p, left, collected, store).left, left);
  }

  lemma {:induction false} EachExplain(cs: seq<Pattern>, left: seq<Id>, collected: seq<Id>, store: Store)
    requires Live(left, store) && Live(collected, store)
    ensures Explains(EachAttempts(cs, left, collected, store), left, LeavesOfAll(cs), store, MatchEach(cs, left, collected, store))
    decreases cs, 0, 0, 0
  {
    if cs != [] {
      AttemptsExplain(cs[0], left, collected, store);
      hide Chain, Attempts;
      var o := MatchTree(cs[0], left, collected, store);
      var log := Attempts(cs[0], left, collected, store);
      assert log + [] == log;
      if o.Match? && o.ok {
        LeftBefore(cs[0], left, collected, store);
        EachExplain(cs[1..], o.left, o.collected, o.store);
        ExplainsThen(log, EachAttempts(cs[1..], o.left, o.collected, o.store), left, o.left, LeavesOf(cs[0]),
                     LeavesOfAll(cs[1..]), LeavesOfAll(cs), store, o, MatchEach(cs[1..], o.left, o.collected, o.store));
      }
    }
  }

  lemma {:induction false} AnyExplain(cs: seq<Pattern>, left: seq<Id>, collected: seq<Id>, store: Store)
    requires Live(left, store) && Live(collected, store)
    ensures Explains(AnyAttempts(cs, left, collected, store), left, LeavesOfAll(cs), store, MatchAny(cs, left, collected, store))
    decreases cs, 0, 0, 0
  {
    if cs != [] {
      AttemptsExplain(cs[0], left, collected, store);
      hide Chain, Attempts;
      var o := MatchTree(cs[0], left, collected, store);
      if o.Match? {
        LeftBefore(cs[0], left, collected, store);
        AnyExplain(cs[1..], o.left, o.collected, o.store);
        ExplainsThen(Attempts(cs[0], left, collected, store), AnyAttempts(cs[1..], o.left, o.collected, o.store),
                     left, o.left, LeavesOf(cs[0]), LeavesOfAll(cs[1..]), LeavesOfAll(cs), store, o,
                     MatchAny(cs[1..], o.left, o.collected, o.store));
      }
    }
  }

  lemma {:induction false} BestExplain(cs: seq<Pattern>, left: seq<Id>, collected: seq<Id>, store: Store)
    requires Live(left, store) && Live(collected, store)
    ensures Explains(BestAttempts(cs, left, collected, store), left, LeavesOfAll(cs), store, Best(cs, left, collected, store))
    decreases cs, 0, 0, 0
  {
    if cs != [] {
      AttemptsExplain(cs[0], left, collected, store);
      hide Chain, Attempts;
      var o := MatchTree(cs[0], left, collected, store);
      if o.Match? {
        BestExplain(cs[1..], left, collected, o.store);
        ExplainsThen(Attempts(cs[0], left, collected, store), BestAttempts(cs[1..], left, collected, o.store),
                     left, left, LeavesOf(cs[0]), LeavesOfAll(cs[1..]), LeavesOfAll(cs), store, o,
                     Best(cs[1..], left, collected, o.store));
      }
    }
  }

  lemma {:induction false} RepeatExplain(child: Pattern, left: seq<Id>, collected: seq<Id>, store: Store,
                                         previous: seq<Id>, first: bool, times: nat)
    requires Live(left, store) && Live(collected, store)
    requires !first ==> previous == left
    ensures Explains(RepeatAttempts(child, left, collected, store, previous, first), left, LeavesOf(child), store,
                     Repeat(child, left, collected, store, previous, first, times))
    decreases child, 2, |left|, if first then 1 else 0
  {
    AttemptsExplain(child, left, collected, store);
    hide Chain, Attempts;
    var o := MatchTree(child, left, collected, store);
    var log := Attempts(child, left, collected, store);
    assert log + [] == log;
    if o.Match? && o.ok && (first || View(previous, o.store) != View(o.left, o.store)) {
      LeftBefore(child, left, collected, store);
      RepeatExplain(child, o.left, o.collected, o.store, o.left, false, times + 1);
      ExplainsThen(log, RepeatAttempts(child, o.left, o.collected, o.store, o.left, false), left, o.left,
                   LeavesOf(child), LeavesOf(child), LeavesOf(child), store, o,
                   Repeat(child, o.left, o.collected, o.store, o.left, false, times + 1));
    }
  }

  // ----- What one attempt writes ------------------------------------------------------------------------

  /** The object an attempt of an accumulating leaf assigns to: the first collected one of the
      name, else the matched one, which is a new object unless the leaf is an option. */
  function Target(a: Attempt): Id
    requires Sane(a) && SingleMatch(a.self, View(a.left, a.store)).At?
  {
    var same := FirstNamed(View(a.collected, a.store), a.self.name);
    if same < |a.collected| then a.collected[same]
    else if a.self.Option? then a.left[SingleMatch(a.self, View(a.left, a.store)).pos]
    else |a.store|
  }

  /** The guard of the assignments: the tree's own value is a number or a list. */
  predicate Hits(a: Attempt, i: Id) {
    Sane(a) && SingleMatch(a.self, View(a.left, a.store)).At? && Accumulates(a.self) && Target(a) == i
  }

  /** The value the matched object has when the leaf gets it. */
  function MatchedValue(a: Attempt): Value
    requires Sane(a) && SingleMatch(a.self, View(a.left, a.store)).At?
  {
    var found := SingleMatch(a.self, View(a.left, a.store));
    if a.self.Option? then a.store[a.left[found.pos]].value else found.leaf.value
  }

  /** An attempt changes no object but the one it hits, and that one as line 126 or 128 says. */
  lemma AttemptWrites(a: Attempt, i: Id)
    requires Sane(a) && Result(a).Match? && Result(a).ok && i < |a.store|
    ensures SameTag(Result(a).store[i], a.store[i])
    ensures !Hits(a, i) ==> Result(a).store[i] == a.store[i]
    ensures Hits(a, i) ==>
      var old', new', inc := a.store[i].value, Result(a).store[i].value, Increment(a.self, MatchedValue(a));
      (i in a.collected && Plus(old', inc) == Is(new'))
      || (i in a.left && a.self.Option? && MatchedValue(a) == old' && new' == inc)
  {
    var found := SingleMatch(a.self, View(a.left, a.store));
    var left := a.left[..found.pos] + a.left[found.pos + 1..];
    var store, id := a.store, |a.store|;
    if a.self.Option? {
      id := a.left[found.pos];
    } else {
      store := a.store + [found.leaf];
    }
    AcceptWrites(a.self, id, left, a.collected, store, i);
    assert View(a.collected, store) == View(a.collected, a.store);
    hide Accept, Plus, Increment, FirstNamed, SingleMatch;
  }

  lemma AcceptWrites(self: TreeLeaf, id: Id, left: seq<Id>, collected: seq<Id>, store: Store, i: Id)
    requires id < |store| && Live(left, store) && Live(collected, store) && i < |store|
    requires Accept(self, id, left, collected, store).Match?
    ensures var store' := Accept(self, id, left, collected, store).store;
      var same := FirstNamed(View(collected, store), self.name);
      var target := if same < |collected| then collected[same] else id;
      var inc := Increment(self, store[id].value);
      && SameTag(store'[i], store[i])
      && (!Accumulates(self) || i != target ==> store'[i] == store[i])
      && (Accumulates(self) && i == target && same == |collected| ==> store'[i].value == inc)
      && (Accumulates(self) && i == target && same < |collected| ==>
            Plus(store[i].value, inc).Is? && store'[i].value == Plus(store[i].value, inc).value)
  {
    hide Plus, Increment, FirstNamed, View;
  }

  // ----- A written value never comes back ------------------------------------------------------------------

  /** What the parser of the command line gives an object: a text, True, or nothing. */
  predicate IsPlain(v: Value) { v.NoValue? || v.Flag? || v.Text? }

  /** What accumulating makes of it: a positive count or a list that is not empty. */
  predicate IsHeap(v: Value) { (v.Count? && v.n >= 1) || (v.Many? && v.items != []) }

  /** A parsed command line: plain values, and where a leaf collects a list, the words for it. */
  ghost predicate CommandLine(left: seq<Id>, leaves: set<TreeLeaf>, store: Store) {
    && Live(left, store)
    && (forall i :: i in left ==> IsPlain(store[i].value))
    && (forall leaf, i :: leaf in leaves && leaf.value.Many? && i in left && Fits(leaf, store[i]) ==> store[i].value.Text?)
  }

  /** Strictly more: what adding a positive count or a list that is not empty gives. */
  predicate More(v: Value, w: Value) {
    (IsNumber(v) && w.Count? && Number(v) < w.n) || (v.Many? && w.Many? && |v.items| < |w.items|)
  }

  /** The object has been written to, seen from where the match started. */
  ghost predicate Changed(i: Id, left: seq<Id>, start: Store, store: Store)
    requires i < |start| <= |store|
  {
    if i in left then IsHeap(store[i].value) else More(start[i].value, store[i].value)
  }

  /** In the middle of a match: tags are as they were, objects on the command line hold their
      plain value or an accumulated one. */
  ghost predicate UnderWay(left: seq<Id>, start: Store, store: Store) {
    && |start| <= |store|
    && (forall i :: 0 <= i < |start| ==> SameTag(store[i], start[i]))
    && (forall i :: i in left ==> i < |start| && (store[i] == start[i] || IsHeap(store[i].value)))
  }

  lemma ChangedDiffers(i: Id, left: seq<Id>, leaves: set<TreeLeaf>, start: Store, store: Store)
    requires i < |start| <= |store| && CommandLine(left, leaves, start) && Changed(i, left, start, store)
    ensures store[i] != start[i]
  {
  }

  /** Every increment adds something. */
  lemma IncrementAdds(a: Attempt, left: seq<Id>, leaves: set<TreeLeaf>, start: Store)
    requires CommandLine(left, leaves, start) && UnderWay(left, start, a.store) && Within([a], left, leaves)
    requires Sane(a) && SingleMatch(a.self, View(a.left, a.store)).At? && Accumulates(a.self)
    ensures var inc := Increment(a.self, MatchedValue(a)); IsHeap(inc) || inc == Flag(true)
    ensures a.self.Option? ==> IsHeap(Increment(a.self, MatchedValue(a)))
  {
    var found := SingleMatch(a.self, View(a.left, a.store));
    var id := a.left[found.pos];
    assert [a][0].self in leaves && id in [a][0].left;
    assert SameTag(a.store[id], start[id]);
    assert Fits(a.self, a.store[id]) && Fits(a.self, start[id]);
    MatchedIs(a);
    hide SingleMatch, View, MatchedValue;
  }

  lemma MatchedIs(a: Attempt)
    requires Sane(a) && SingleMatch(a.self, View(a.left, a.store)).At?
    ensures var v := a.store[a.left[SingleMatch(a.self, View(a.left, a.store)).pos]].value;
      MatchedValue(a) == v || (a.self.Command? && MatchedValue(a) == Flag(true))
  {
  }

  lemma SumIsMore(v: Value, inc: Value)
    requires (IsHeap(inc) || inc == Flag(true)) && Plus(v, inc).Is?
    ensures More(v, Plus(v, inc).value)
    ensures IsPlain(v) || IsHeap(v) ==> IsHeap(Plus(v, inc).value)
  {
  }

  lemma MoreThenMore(u: Value, v: Value, w: Value)
    requires More(u, v) && More(v, w)
    ensures More(u, w)
  {
  }

  /** One attempt: what it hits has changed for good, what it does not hit is untouched. */
  lemma AttemptStep(a: Attempt, left: seq<Id>, leaves: set<TreeLeaf>, start: Store, i: Id)
    requires CommandLine(left, leaves, start) && UnderWay(left, start, a.store) && Within([a], left, leaves)
    requires Sane(a) && Result(a).Match? && Result(a).ok && i < |start|
    requires a.store[i] == start[i] || Changed(i, left, start, a.store)
    ensures |start| <= |Result(a).store|
    ensures if Hits(a, i) then Changed(i, left, start, Result(a).store) else Result(a).store[i] == a.store[i]
  {
    AttemptWrites(a, i);
    if Hits(a, i) {
      IncrementAdds(a, left, leaves, start);
      var inc := Increment(a.self, MatchedValue(a));
      var old', new' := a.store[i].value, Result(a).store[i].value;
      hide SingleMatch, View, MatchLeaf, Result, Target, MatchedValue, Increment, Hits, CommandLine;
      if Plus(old', inc) == Is(new') {
        SumIsMore(old', inc);
        if i !in left && More(start[i].value, old') {
          MoreThenMore(start[i].value, old', new');
        }
        PlainAtFirst(i, left, leaves, start);
      } else {
        assert [a][0] == a;
      }
    }
  }

  lemma PlainAtFirst(i: Id, left: seq<Id>, leaves: set<TreeLeaf>, start: Store)
    requires CommandLine(left, leaves, start)
    ensures i in left ==> i < |start| && IsPlain(start[i].value)
  {
  }

  lemma StillUnderWay(a: Attempt, left: seq<Id>, leaves: set<TreeLeaf>, start: Store)
    requires CommandLine(left, leaves, start) && UnderWay(left, start, a.store) && Within([a], left, leaves)
    requires Sane(a) && Result(a).Match? && Result(a).ok
    ensures UnderWay(left, start, Result(a).store)
  {
    forall i | 0 <= i < |start|
      ensures SameTag(Result(a).store[i], start[i])
      ensures i in left ==> Result(a).store[i] == start[i] || IsHeap(Result(a).store[i].value)
    {
      assert SameTag(a.store[i], start[i]);
      AttemptWrites(a, i);
      if i in left {
        AttemptStep(a, left, leaves, start, i);
      }
    }
  }

  /** Some attempt of the log hits the object. */
  predicate IsHit(i: Id, log: seq<Attempt>) {
    log != [] && (Hits(log[0], i) || IsHit(i, log[1..]))
  }

  /** The whole log: an object that some attempt hits has changed for good, every other one is
      untouched. */
  lemma {:induction false} ChainStep(log: seq<Attempt>, left: seq<Id>, leaves: set<TreeLeaf>, start: Store, store: Store,
                                     store': Store, i: Id)
    requires CommandLine(left, leaves, start) && UnderWay(left, start, store) && Within(log, left, leaves)
    requires Chain(log, store, store') && i < |start|
    requires store[i] == start[i] || Changed(i, left, start, store)
    ensures |start| <= |store'|
    ensures if IsHit(i, log) then Changed(i, left, start, store') else store'[i] == store[i]
    ensures Changed(i, left, start, store) ==> Changed(i, left, start, store')
    decreases |log|
  {
    if log != [] {
      var a, rest := log[0], log[1..];
      WithinParts(log, left, leaves);
      SanePart(log, store, store');
      hide CommandLine, UnderWay, Within, Hits, Result, Sane, Changed;
      TagOnly(left, start, store);
      StillUnderWay(a, left, leaves, start);
      AttemptStep(a, left, leaves, start, i);
      ChainStep(rest, left, leaves, start, Result(a).store, store', i);
    }
  }

  lemma WithinParts(log: seq<Attempt>, left: seq<Id>, leaves: set<TreeLeaf>)
    requires Within(log, left, leaves) && log != []
    ensures Within([log[0]], left, leaves) && Within(log[1..], left, leaves)
  {
  }

  lemma SanePart(log: seq<Attempt>, store: Store, store': Store)
    requires Chain(log, store, store') && log != []
    ensures Sane(log[0]) && log[0].store == store && Result(log[0]).Match? && Result(log[0]).ok
    ensures Chain(log[1..], Result(log[0]).store, store')
  {
  }

  lemma TagOnly(left: seq<Id>, start: Store, store: Store)
    requires UnderWay(left, start, store)
    ensures |start| <= |store|
  {
  }

  // ----- When values stay --------------------------------------------------------------------------------------

  /** For every tree and command line: an object keeps its value through a match if and only if
      no accumulating leaf was tried on it with success, whether the attempt was kept or not. */
  lemma ValueStays(p: Pattern, left: seq<Id>, collected: seq<Id>, store: Store, i: Id)
    requires Live(left, store) && Live(collected, store) && CommandLine(left, LeavesOf(p), store) && i < |store|
    requires MatchTree(p, left, collected, store).Match?
    ensures MatchTree(p, left, collected, store).store[i] == store[i]
       <==> !IsHit(i, Attempts(p, left, collected, store))
  {
    AttemptsExplain(p, left, collected, store);
    var log, o := Attempts(p, left, collected, store), MatchTree(p, left, collected, store);
    assert UnderWay(left, store, store);
    hide Attempts, MatchTree, IsHit;
    ChainStep(log, left, LeavesOf(p), store, store, o.store, i);
    if Changed(i, left, store, o.store) {
      ChangedDiffers(i, left, LeavesOf(p), store, o.store);
    }
  }

  /** Every object there was is what it was. */
  predicate Unchanged(store: Store, store': Store) {
    |store| <= |store'| && forall i :: 0 <= i < |store| ==> store'[i] == store[i]
  }

  predicate NoneHit(log: seq<Attempt>, store: Store) {
    forall i :: 0 <= i < |store| ==> !IsHit(i, log)
  }

  /** A match that fails gives back the same lists; the objects there were before it are the
      same too if and only if no accumulating leaf was tried with success on any of them. */
  lemma FailedMatch(p: Pattern, left: seq<Id>, collected: seq<Id>, store: Store)
    requires Live(left, store) && Live(collected, store) && CommandLine(left, LeavesOf(p), store)
    requires MatchTree(p, left, collected, store).Match? && !MatchTree(p, left, collected, store).ok
    ensures var o := MatchTree(p, left, collected, store);
      && o.left == left && o.collected == collected
      && (Unchanged(store, o.store) <==> NoneHit(Attempts(p, left, collected, store), store))
  {
    MatchIsClean(p, left, collected, store);
    AllStay(p, left, collected, store);
    hide Attempts, MatchTree, Unchanged, NoneHit;
  }

  /** The same for every match: it leaves all objects alone if and only if it hits none. */
  lemma AllStay(p: Pattern, left: seq<Id>, collected: seq<Id>, store: Store)
    requires Live(left, store) && Live(collected, store) && CommandLine(left, LeavesOf(p), store)
    requires MatchTree(p, left, collected, store).Match?
    ensures Unchanged(store, MatchTree(p, left, collected, store).store)
       <==> NoneHit(Attempts(p, left, collected, store), store)
  {
    var log, o := Attempts(p, left, collected, store), MatchTree(p, left, collected, store);
    forall i | 0 <= i < |store|
      ensures o.store[i] == store[i] <==> !IsHit(i, log)
    {
      ValueStays(p, left, collected, store, i);
    }
    hide Attempts, MatchTree, IsHit;
  }

  /** So a tree in which no leaf accumulates leaves every object alone, on every command line. */
  lemma NothingAccumulates(p: Pattern, left: seq<Id>, collected: seq<Id>, store: Store)
    requires Live(left, store) && Live(collected, store) && CommandLine(left, LeavesOf(p), store)
    requires MatchTree(p, left, collected, store).Match? && forall leaf :: leaf in LeavesOf(p) ==> !Accumulates(leaf)
    ensures Unchanged(store, MatchTree(p, left, collected, store).store)
  {
    var log := Attempts(p, left, collected, store);
    AllStay(p, left, collected, store);
    AttemptsExplain(p, left, collected, store);
    hide Attempts, MatchTree, Unchanged, Chain, IsHit, Accumulates;
    forall i | 0 <= i < |store| ensures !IsHit(i, log) {
      NoHits(log, i);
    }
  }

  lemma {:induction false} NoHits(log: seq<Attempt>, i: Id)
    requires forall k :: 0 <= k < |log| ==> !Accumulates(log[k].self)
    ensures !IsHit(i, log)
  {
    if log != [] {
      NoHits(log[1..], i);
    }
  }

  // ----- Attempts that were given up show in the result ---------------------------------------------------------

  const V: TreeLeaf := Option("-v", 0, Count(0))
  const X: TreeLeaf := Command("x", Flag(false))

  /** -v as the command line gives it, or counted. */
  function Verbose(v: Value): Leaf { Option("-v", 0, v) }

  predicate AllVerbose(ids: seq<Id>, store: Store) {
    Live(ids, store) && forall k :: 0 <= k < |ids| ==> store[ids[k]] == Verbose(store[ids[k]].value)
  }

  /** Matching -v: the first one starts the count, every later one adds to it. */
  lemma TakeV(left: seq<Id>, collected: seq<Id>, store: Store)
    requires left != [] && AllVerbose(left, store) && AllVerbose(collected, store)
    requires collected != [] ==> store[collected[0]].value.Count?
    ensures MatchLeaf(V, left, collected, store) ==
      if collected == [] then Match(true, left[1..], [left[0]], Write(store, left[0], Count(1)))
      else Match(true, left[1..], collected, Write(store, collected[0], Count(store[collected[0]].value.n + 1)))
  {
    assert View(left, store)[0].name == "-v";
    assert left[..0] + left[1..] == left[1..];
    assert collected != [] ==> View(collected, store)[0].name == "-v";
    assert [] + [left[0]] == [left[0]];
  }

  lemma {:induction false} NoArguments(leaves: seq<Leaf>)
    requires forall k :: 0 <= k < |leaves| ==> !leaves[k].Argument?
    ensures FirstArgument(leaves) == |leaves|
  {
    if leaves != [] {
      NoArguments(leaves[1..]);
    }
  }

  lemma NoX(left: seq<Id>, collected: seq<Id>, store: Store)
    requires AllVerbose(left, store) && Live(collected, store)
    ensures MatchLeaf(X, left, collected, store) == Match(false, left, collected, store)
  {
    NoArguments(View(left, store));
  }

  lemma NoV(collected: seq<Id>, store: Store)
    requires Live(collected, store)
    ensures MatchLeaf(V, [], collected, store) == Match(false, [], collected, store)
  {
  }

  /** A Required of two leaves, step by step. */
  lemma TwoRequired(a: TreeLeaf, b: TreeLeaf, left: seq<Id>, collected: seq<Id>, store: Store)
    requires Live(left, store) && Live(collected, store)
    ensures MatchTree(Branch(Required, [Tip(a), Tip(b)]), left, collected, store) ==
      var o := MatchLeaf(a, left, collected, store);
      if o.Raises? then Raises
      else if !o.ok then Match(false, left, collected, o.store)
      else
        var o' := MatchLeaf(b, o.left, o.collected, o.store);
        if o'.Match? && !o'.ok then Match(false, left, collected, o'.store) else o'
  {
    hide MatchLeaf;
    var cs := [Tip(a), Tip(b)];
    assert cs[1..] == [Tip(b)] && cs[1..][1..] == [];
    var o := MatchLeaf(a, left, collected, store);
    assert MatchTree(cs[0], left, collected, store) == o;
    if o.Match? && o.ok {
      var o' := MatchLeaf(b, o.left, o.collected, o.store);
      assert MatchTree(cs[1..][0], o.left, o.collected, o.store) == o';
      if o'.Match? && o'.ok {
        assert MatchEach([], o'.left, o'.collected, o'.store) == o';
      }
      assert MatchEach(cs[1..], o.left, o.collected, o.store) == o';
    }
  }

  /** Required of -v and x on the line -v fails, and the object on the line now says 1. */
  lemma FailureWrites()
    ensures MatchTree(Branch(Required, [Tip(V), Tip(X)]), [0], [], [Verbose(Flag(true))])
         == Match(false, [0], [], [Verbose(Count(1))])
  {
    var given := [Verbose(Flag(true))];
    TwoRequired(V, X, [0], [], given);
    TakeV([0], [], given);
    hide MatchLeaf;
    assert [0][1..] == [] && Write(given, 0, Count(1)) == [Verbose(Count(1))];
    NoX([], [0], [Verbose(Count(1))]);
  }

  /** An Either of two children, step by step. */
  lemma TwoEither(a: Pattern, b: Pattern, left: seq<Id>, collected: seq<Id>, store: Store)
    requires Live(left, store) && Live(collected, store)
    ensures MatchTree(Branch(Either, [a, b]), left, collected, store) ==
      var o := MatchTree(a, left, collected, store);
      if o.Raises? then Raises
      else
        var o' := MatchTree(b, left, collected, o.store);
        if o'.Raises? then Raises
        else if !o.ok && !o'.ok then Match(false, left, collected, o'.store)
        else if !o.ok || (o'.ok && |o'.left| < |o.left|) then o'
        else o.(store := o'.store)
  {
    var cs := [a, b];
    assert cs[1..] == [b] && [b][1..] == [];
    var o := MatchTree(a, left, collected, store);
    assert Best(cs, left, collected, store) == MatchTree(Branch(Either, [a, b]), left, collected, store);
    hide MatchTree;
    if o.Match? {
      OneEither(b, left, collected, o.store);
    }
  }

  lemma OneEither(b: Pattern, left: seq<Id>, collected: seq<Id>, store: Store)
    requires Live(left, store) && Live(collected, store)
    ensures var o := MatchTree(b, left, collected, store);
      Best([b], left, collected, store)
      == if o.Raises? then Raises else if !o.ok then Match(false, left, collected, o.store) else o
  {
    hide MatchTree;
    assert [b][1..] == [];
    var o := MatchTree(b, left, collected, store);
    if o.Match? {
      assert Best([], left, collected, o.store) == Match(false, left, collected, o.store);
    }
  }

  const VX: Pattern := Branch(Required, [Tip(V), Tip(X)])

  /** ((-v x) | -v): with nothing but -v on the line, both children match -v and one is kept. */
  lemma BothTakeV(left: seq<Id>, collected: seq<Id>, store: Store)
    requires left != [] && AllVerbose(left, store) && AllVerbose(collected, store)
    requires collected != [] ==> store[collected[0]].value.Count?
    ensures MatchTree(Branch(Either, [VX, Tip(V)]), left, collected, store) ==
      if collected == [] then Match(true, left[1..], [left[0]], Write(store, left[0], Count(1)))
      else Match(true, left[1..], collected, Write(store, collected[0], Count(store[collected[0]].value.n + 2)))
  {
    TakeV(left, collected, store);
    VXFails(left, collected, store);
    var store1 := MatchLeaf(V, left, collected, store).store;
    TakeV(left, collected, store1);
    TwoEither(VX, Tip(V), left, collected, store);
    TipMatches(V, left, collected, store1);
    hide MatchLeaf, MatchTree;
    if collected == [] {
      assert Write(store1, left[0], Count(1)) == store1;
    } else {
      assert Write(store1, collected[0], Count(store[collected[0]].value.n + 2))
          == Write(store, collected[0], Count(store[collected[0]].value.n + 2));
    }
  }

  lemma TipMatches(leaf: TreeLeaf, left: seq<Id>, collected: seq<Id>, store: Store)
    requires Live(left, store) && Live(collected, store)
    ensures MatchTree(Tip(leaf), left, collected, store) == MatchLeaf(leaf, left, collected, store)
  {
    hide MatchLeaf;
  }

  /** -v has matched and x has not: the lists come back, the count does not. */
  lemma VXFails(left: seq<Id>, collected: seq<Id>, store: Store)
    requires left != [] && AllVerbose(left, store) && AllVerbose(collected, store)
    requires collected != [] ==> store[collected[0]].value.Count?
    ensures MatchLeaf(V, left, collected, store).Match?
    ensures MatchTree(VX, left, collected, store)
         == Match(false, left, collected, MatchLeaf(V, left, collected, store).store)
  {
    hide MatchLeaf, MatchTree;
    TakeV(left, collected, store);
    var o := MatchLeaf(V, left, collected, store);
    assert AllVerbose(o.left, o.store);
    hide AllVerbose, Write;
    TwoRequired(V, X, left, collected, store);
    NoX(o.left, o.collected, o.store);
  }

  lemma NoneTakesV(collected: seq<Id>, store: Store)
    requires Live(collected, store)
    ensures MatchTree(Branch(Either, [VX, Tip(V)]), [], collected, store) == Match(false, [], collected, store)
  {
    NoV(collected, store);
    TwoRequired(V, X, [], collected, store);
    TwoEither(VX, Tip(V), [], collected, store);
    assert MatchTree(Tip(V), [], collected, store) == MatchLeaf(V, [], collected, store);
    hide MatchLeaf, MatchTree;
  }

  /** ((-v x) | -v)... on the line -v -v: two options are taken, and -v is counted three times. */
  lemma CountedThrice()
    ensures MatchTree(Branch(OneOrMore, [Branch(Either, [VX, Tip(V)])]), [0, 1], [], [Verbose(Flag(true)), Verbose(Flag(true))])
         == Match(true, [], [0], [Verbose(Count(3)), Verbose(Flag(true))])
  {
    var e := Branch(Either, [VX, Tip(V)]);
    var s0, s1, s3 := [Verbose(Flag(true)), Verbose(Flag(true))], [Verbose(Count(1)), Verbose(Flag(true))],
                      [Verbose(Count(3)), Verbose(Flag(true))];
    BothTakeV([0, 1], [], s0);
    assert [0, 1][1..] == [1] && Write(s0, 0, Count(1)) == s1;
    BothTakeV([1], [0], s1);
    assert [1][1..] == [] && Write(s1, 0, Count(3)) == s3;
    NoneTakesV([0], s3);
    hide MatchTree;
    assert Repeat(e, [], [0], s3, [], false, 2) == Match(true, [], [0], s3);
    assert View([1], s3) != View([], s3);
    assert Repeat(e, [1], [0], s1, [1], false, 1) == Repeat(e, [], [0], s3, [], false, 2);
    assert Repeat(e, [0, 1], [], s0, [], true, 0) == Repeat(e, [1], [0], s1, [1], false, 1);
    OneOrMoreIsRepeat(e, [0, 1], [], s0);
  }
}
