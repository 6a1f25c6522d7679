/**
  transform: the worklist that expands a pattern tree into one Either of flat cases.
 */
module DocoptTransform {
  import opened DocoptPatterns

  type Bag = multiset<Leaf>

  // ----- The meaning: one bag of leaves for every way to choose --------------------------------

  /** Every bag of `a` joined with every bag of `b`. */
  function Cross(a: seq<Bag>, b: seq<Bag>): seq<Bag> {
    if a == [] then [] else JoinAll(a[0], b) + Cross(a[1..], b)
  }

  function JoinAll(x: Bag, b: seq<Bag>): seq<Bag> {
    if b == [] then [] else [x + b[0]] + JoinAll(x, b[1..])
  }

  /** The cases of a pattern, choice by choice: an Either picks one child, everything else
      takes all its children, and OneOrMore takes them twice. */
  function Cases(p: Pattern): seq<Bag>
    decreases p, 1
  {
    match p
    case Tip(leaf) => [multiset{leaf}]
    case Branch(Either, cs) => CasesOfAny(cs)
    case Branch(OneOrMore, cs) => Cross(CasesOfAll(cs), CasesOfAll(cs))
    case Branch(_, cs) => CasesOfAll(cs)
  }

  function CasesOfAny(ps: seq<Pattern>): seq<Bag>
    decreases ps, 0
  {
    if ps == [] then [] else Cases(ps[0]) + CasesOfAny(ps[1..])
  }

  function CasesOfAll(ps: seq<Pattern>): seq<Bag>
    decreases ps, 0
  {
    if ps == [] then [multiset{}] else Cross(Cases(ps[0]), CasesOfAll(ps[1..]))
  }

  // ----- Laws of Cross ---------------------------------------------------------------------------

  lemma {:induction false} JoinAllConcat(x: Bag, a: seq<Bag>, b: seq<Bag>)
    ensures JoinAll(x, a + b) == JoinAll(x, a) + JoinAll(x, b)
  {
    if a == [] {
      assert a + b == b;
    } else {
      JoinAllConcat(x, a[1..], b);
      assert (a + b)[1..] == a[1..] + b;
    }
  }

  lemma {:induction false} CrossConcat(a: seq<Bag>, b: seq<Bag>, c: seq<Bag>)
    ensures Cross(a + b, c) == Cross(a, c) + Cross(b, c)
  {
    hide JoinAll;
    if a == [] {
      assert a + b == b;
    } else {
      CrossConcat(a[1..], b, c);
      assert (a + b)[1..] == a[1..] + b;
    }
  }

  lemma {:induction false} JoinAllTwice(x: Bag, y: Bag, b: seq<Bag>)
    ensures JoinAll(x, JoinAll(y, b)) == JoinAll(x + y, b)
  {
    if b != [] {
      JoinAllTwice(x, y, b[1..]);
      assert x + (y + b[0]) == x + y + b[0];
      assert JoinAll(y, b)[1..] == JoinAll(y, b[1..]);
    }
  }

  lemma {:induction false} CrossJoinAll(x: Bag, a: seq<Bag>, b: seq<Bag>)
    ensures Cross(JoinAll(x, a), b) == JoinAll(x, Cross(a, b))
  {
    if a != [] {
      CrossJoinAll(x, a[1..], b);
      JoinAllTwice(x, a[0], b);
      JoinAllConcat(x, JoinAll(a[0], b), Cross(a[1..], b));
      assert JoinAll(x, a)[1..] == JoinAll(x, a[1..]);
    }
  }

  lemma {:induction false} CrossAssociative(a: seq<Bag>, b: seq<Bag>, c: seq<Bag>)
    ensures Cross(Cross(a, b), c) == Cross(a, Cross(b, c))
  {
    if a != [] {
      CrossAssociative(a[1..], b, c);
      CrossConcat(JoinAll(a[0], b), Cross(a[1..], b), c);
      CrossJoinAll(a[0], b, c);
    }
  }

  lemma {:induction false} JoinNothing(b: seq<Bag>)
    ensures JoinAll(multiset{}, b) == b
  {
    if b != [] {
      JoinNothing(b[1..]);
      assert multiset{} + b[0] == b[0];
    }
  }

  /** A single bag can be joined before or after a choice. */
  lemma {:induction false} JoinAllCross(x: Bag, a: seq<Bag>, b: seq<Bag>)
    ensures JoinAll(x, Cross(a, b)) == Cross(a, JoinAll(x, b))
  {
    if a != [] {
      JoinAllCross(x, a[1..], b);
      JoinAllConcat(x, JoinAll(a[0], b), Cross(a[1..], b));
      JoinAllTwice(x, a[0], b);
      JoinAllTwice(a[0], x, b);
      assert x + a[0] == a[0] + x;
    }
  }

  lemma {:induction false} CasesOfAllConcat(ps: seq<Pattern>, qs: seq<Pattern>)
    ensures CasesOfAll(ps + qs) == Cross(CasesOfAll(ps), CasesOfAll(qs))
  {
    if ps == [] {
      assert ps + qs == qs;
      JoinNothing(CasesOfAll(qs));
      assert Cross([multiset{}], CasesOfAll(qs)) == JoinAll(multiset{}, CasesOfAll(qs)) + [];
    } else {
      assert (ps + qs)[1..] == ps[1..] + qs;
      CasesOfAllConcat(ps[1..], qs);
      CrossAssociative(Cases(ps[0]), CasesOfAll(ps[1..]), CasesOfAll(qs));
    }
  }

  // ----- Termination: what a group still has to expand ---------------------------------------------

  function Weight(p: Pattern): nat
    decreases p, 1
  {
    match p
    case Tip(_) => 1
    case Branch(Either, cs) => 1 + WeightOfAny(cs)
    case Branch(OneOrMore, cs) => 1 + WeightOfAll(cs) * WeightOfAll(cs)
    case Branch(_, cs) => 1 + WeightOfAll(cs)
  }

  function WeightOfAny(ps: seq<Pattern>): nat
    decreases ps, 0
  {
    if ps == [] then 0 else Weight(ps[0]) + WeightOfAny(ps[1..])
  }

  function WeightOfAll(ps: seq<Pattern>): nat
    decreases ps, 0
  {
    if ps == [] then 1 else Weight(ps[0]) * WeightOfAll(ps[1..])
  }

  function WeightOfGroups(groups: seq<seq<Pattern>>): nat {
    if groups == [] then 0 else WeightOfAll(groups[0]) + WeightOfGroups(groups[1..])
  }

  lemma {:induction false} WeightPositive(ps: seq<Pattern>)
    ensures WeightOfAll(ps) >= 1
  {
    if ps != [] {
      WeightPositive(ps[1..]);
      assert Weight(ps[0]) >= 1;
    }
  }

  lemma {:induction false} WeightConcat(ps: seq<Pattern>, qs: seq<Pattern>)
    ensures WeightOfAll(ps + qs) == WeightOfAll(ps) * WeightOfAll(qs)
  {
    if ps == [] {
      assert ps + qs == qs;
    } else {
      assert (ps + qs)[1..] == ps[1..] + qs;
      WeightConcat(ps[1..], qs);
      TimesAssociative(Weight(ps[0]), WeightOfAll(ps[1..]), WeightOfAll(qs));
    }
  }

  lemma TimesAssociative(a: int, b: int, c: int)
    ensures a * (b * c) == a * b * c
  {
  }

  lemma {:induction false} GroupsConcat(gs: seq<seq<Pattern>>, hs: seq<seq<Pattern>>)
    ensures WeightOfGroups(gs + hs) == WeightOfGroups(gs) + WeightOfGroups(hs)
    ensures CasesOfGroups(gs + hs) == CasesOfGroups(gs) + CasesOfGroups(hs)
  {
    if gs == [] {
      assert gs + hs == hs;
    } else {
      assert (gs + hs)[1..] == gs[1..] + hs;
      GroupsConcat(gs[1..], hs);
    }
  }

  // ----- One step of the worklist ---------------------------------------------------------------------

  function CasesOfGroups(groups: seq<seq<Pattern>>): seq<Bag> {
    if groups == [] then [] else CasesOfAll(groups[0]) + CasesOfGroups(groups[1..])
  }

  predicate AllTips(ps: seq<Pattern>) {
    forall i :: 0 <= i < |ps| ==> ps[i].Tip?
  }

  /** The groups that replace a group whose branch `child` was taken out. */
  function Replacement(child: Pattern, rest: seq<Pattern>): seq<seq<Pattern>>
    requires child.Branch?
  {
    match child.kind
    case Either => seq(|child.children|, i requires 0 <= i < |child.children| => [child.children[i]] + rest)
    case OneOrMore => [child.children + child.children + rest]
    case _ => [child.children + rest]
  }

  /** The leaves of a group that has no branch left. */
  function BagOf(ps: seq<Pattern>): Bag {
    if ps == [] then multiset{}
    else (if ps[0].Tip? then multiset{ps[0].leaf} else multiset{}) + BagOf(ps[1..])
  }

  lemma {:induction false} TipsHaveOneCase(ps: seq<Pattern>)
    requires AllTips(ps)
    ensures CasesOfAll(ps) == [BagOf(ps)] && WeightOfAll(ps) == 1
  {
    if ps != [] {
      TipsHaveOneCase(ps[1..]);
      var x := multiset{ps[0].leaf};
      assert JoinAll(x, [BagOf(ps[1..])]) == [x + BagOf(ps[1..])] + JoinAll(x, []);
      assert Cross([x], [BagOf(ps[1..])]) == JoinAll(x, [BagOf(ps[1..])]) + Cross([], [BagOf(ps[1..])]);
    }
  }

  /** Taking the first branch out to the front changes no case, not even their order. */
  lemma ChildToFront(tips: seq<Pattern>, child: Pattern, post: seq<Pattern>)
    requires AllTips(tips)
    ensures CasesOfAll(tips + [child] + post) == Cross(Cases(child), CasesOfAll(tips + post))
    ensures WeightOfAll(tips + [child] + post) == Weight(child) * WeightOfAll(tips + post)
  {
    TipsHaveOneCase(tips);
    var x := BagOf(tips);
    assert tips + [child] + post == tips + ([child] + post);
    CasesOfAllConcat(tips, [child] + post);
    CasesOfAllConcat(tips, post);
    WeightConcat(tips, [child] + post);
    WeightConcat(tips, post);
    assert ([child] + post)[1..] == post;
    CrossOne(x, CasesOfAll([child] + post));
    CrossOne(x, CasesOfAll(post));
    JoinAllCross(x, Cases(child), CasesOfAll(post));
  }

  lemma CrossOne(x: Bag, b: seq<Bag>)
    ensures Cross([x], b) == JoinAll(x, b)
  {
    assert [x][1..] == [];
  }

  lemma {:induction false} EitherStep(cs: seq<Pattern>, rest: seq<Pattern>)
    ensures var groups := Replacement(Branch(Either, cs), rest);
      && CasesOfGroups(groups) == Cross(CasesOfAny(cs), CasesOfAll(rest))
      && WeightOfGroups(groups) == WeightOfAny(cs) * WeightOfAll(rest)
  {
    hide Cases, Weight, Cross;
    var groups := Replacement(Branch(Either, cs), rest);
    if cs == [] {
      CrossOfNone(CasesOfAll(rest));
    } else {
      EitherStep(cs[1..], rest);
      assert groups[1..] == Replacement(Branch(Either, cs[1..]), rest);
      CrossConcat(Cases(cs[0]), CasesOfAny(cs[1..]), CasesOfAll(rest));
      FirstOfGroup(cs[0], rest);
      assert groups[0] == [cs[0]] + rest;
      Distribute(Weight(cs[0]), WeightOfAny(cs[1..]), WeightOfAll(rest));
    }
  }

  lemma CrossOfNone(b: seq<Bag>)
    ensures Cross([], b) == []
  {
  }

  lemma FirstOfGroup(p: Pattern, rest: seq<Pattern>)
    ensures CasesOfAll([p] + rest) == Cross(Cases(p), CasesOfAll(rest))
    ensures WeightOfAll([p] + rest) == Weight(p) * WeightOfAll(rest)
  {
    assert ([p] + rest)[1..] == rest;
  }

  lemma Distribute(a: int, b: int, c: int)
    ensures (a + b) * c == a * c + b * c
  {
  }

  lemma ConcatStep(cs: seq<Pattern>, rest: seq<Pattern>)
    ensures CasesOfGroups([cs + rest]) == Cross(CasesOfAll(cs), CasesOfAll(rest))
    ensures WeightOfGroups([cs + rest]) == WeightOfAll(cs) * WeightOfAll(rest)
  {
    CasesOfAllConcat(cs, rest);
    WeightConcat(cs, rest);
    OneGroup(cs + rest);
  }

  lemma OneMore(a: nat, c: nat)
    requires c >= 1
    ensures a * c < (1 + a) * c
  {
    Distribute(1, a, c);
  }

  /** The replacing groups have exactly the cases of the replaced one, and weigh less. */
  lemma ReplacementStep(child: Pattern, rest: seq<Pattern>)
    requires child.Branch?
    ensures CasesOfGroups(Replacement(child, rest)) == Cross(Cases(child), CasesOfAll(rest))
    ensures WeightOfGroups(Replacement(child, rest)) < Weight(child) * WeightOfAll(rest)
  {
    hide Cross, CasesOfAll, WeightOfAll, CasesOfAny, WeightOfAny, CasesOfGroups, WeightOfGroups;
    var cs := child.children;
    WeightPositive(rest);
    match child.kind {
      case Either =>
        EitherStep(cs, rest);
        OneMore(WeightOfAny(cs), WeightOfAll(rest));
      case OneOrMore =>
        ConcatStep(cs + cs, rest);
        CasesOfAllConcat(cs, cs);
        WeightConcat(cs, cs);
        OneMore(WeightOfAll(cs + cs), WeightOfAll(rest));
      case _ =>
        ConcatStep(cs, rest);
        OneMore(WeightOfAll(cs), WeightOfAll(rest));
    }
  }

  lemma OneGroup(group: seq<Pattern>)
    ensures CasesOfGroups([group]) == CasesOfAll(group)
    ensures WeightOfGroups([group]) == WeightOfAll(group)
  {
    assert [group][1..] == [];
  }

  // ----- The worklist -----------------------------------------------------------------------------------

  function BagsOf(cases: seq<seq<Pattern>>): seq<Bag> {
    if cases == [] then [] else BagsOf(cases[..|cases| - 1]) + [BagOf(cases[|cases| - 1])]
  }

  /** The index of the first branch, or the length if there is none. */
  method FirstBranch(children: seq<Pattern>) returns (k: nat)
    ensures k <= |children| && AllTips(children[..k])
    ensures k < |children| ==> children[k].Branch?
  {
    k := 0;
    while k < |children| && children[k].Tip?
      invariant k <= |children| && AllTips(children[..k])
    {
      k := k + 1;
    }
  }

  /** The loop over the children of an Either. */
  method ExpandEither(children: seq<Pattern>, rest: seq<Pattern>) returns (groups: seq<seq<Pattern>>)
    ensures groups == Replacement(Branch(Either, children), rest)
  {
    groups := [];
    var i := 0;
    while i < |children|
      invariant i <= |children| && |groups| == i
      invariant forall j :: 0 <= j < i ==> groups[j] == [children[j]] + rest
    {
      groups := groups + [[children[i]] + rest];
      i := i + 1;
    }
  }

  /** The loop body for a group with a branch: the branch is removed and expanded. */
  method Expand(group: seq<Pattern>, k: nat, groups: seq<seq<Pattern>>) returns (groups': seq<seq<Pattern>>)
    requires k < |group| && group[k].Branch? && AllTips(group[..k])
    ensures CasesOfGroups(groups') == CasesOfGroups(groups) + CasesOfAll(group)
    ensures WeightOfGroups(groups') < WeightOfGroups(groups) + WeightOfAll(group)
  {
    hide Cases, Weight, Cross, CasesOfAll, WeightOfAll, CasesOfGroups, WeightOfGroups;
    BranchStep(group, k, groups);
    var child := group[k];
    var children := group[..k] + group[k + 1..];
    if child.kind.Either? {
      var more := ExpandEither(child.children, children);
      groups' := groups + more;
    } else if child.kind.OneOrMore? {
      groups' := groups + [child.children + child.children + children];
    } else {
      groups' := groups + [child.children + children];
    }
  }

  predicate AllFlat(cases: seq<seq<Pattern>>) {
    forall i :: 0 <= i < |cases| ==> AllTips(cases[i])
  }

  /** An Either of Requireds of leaves. */
  predicate FlatEither(p: Pattern) {
    p.Branch? && p.kind.Either? &&
    forall i :: 0 <= i < |p.children| ==>
      p.children[i].Branch? && p.children[i].kind.Required? && AllTips(p.children[i].children)
  }

  function EitherOf(cases: seq<seq<Pattern>>): Pattern {
    Branch(Either, seq(|cases|, i requires 0 <= i < |cases| => Branch(Required, cases[i])))
  }

  /** Nothing is lost: finished cases and waiting groups together have the pattern's cases. */
  ghost predicate Balanced(pattern: Pattern, cases: seq<seq<Pattern>>, groups: seq<seq<Pattern>>) {
    AllFlat(cases) &&
    multiset(BagsOf(cases)) + multiset(CasesOfGroups(groups)) == multiset(Cases(pattern))
  }

  lemma FlatStep(pattern: Pattern, cases: seq<seq<Pattern>>, groups: seq<seq<Pattern>>)
    requires Balanced(pattern, cases, groups) && groups != [] && AllTips(groups[0])
    ensures Balanced(pattern, cases + [groups[0]], groups[1..])
  {
    FirstGroup(groups);
    BagsOfStep(cases, groups[0]);
    hide Cases, CasesOfAll, BagsOf, BagOf, AllTips, CasesOfGroups;
    MoveOver(BagsOf(cases), BagOf(groups[0]), CasesOfGroups(groups[1..]));
  }

  lemma FirstGroup(groups: seq<seq<Pattern>>)
    requires groups != [] && AllTips(groups[0])
    ensures CasesOfGroups(groups) == [BagOf(groups[0])] + CasesOfGroups(groups[1..])
    ensures WeightOfGroups(groups[1..]) < WeightOfGroups(groups)
  {
    TipsHaveOneCase(groups[0]);
    hide CasesOfAll, WeightOfAll, BagOf;
  }

  lemma MoveOver<T>(a: seq<T>, x: T, b: seq<T>)
    ensures multiset(a + [x]) + multiset(b) == multiset(a) + multiset([x] + b)
  {
  }

  lemma ExpandedStep(pattern: Pattern, cases: seq<seq<Pattern>>, groups: seq<seq<Pattern>>, groups': seq<seq<Pattern>>)
    requires Balanced(pattern, cases, groups) && groups != []
    requires CasesOfGroups(groups') == CasesOfGroups(groups[1..]) + CasesOfAll(groups[0])
    ensures Balanced(pattern, cases, groups')
  {
    hide Cases, CasesOfAll, BagsOf;
    assert CasesOfGroups(groups) == CasesOfAll(groups[0]) + CasesOfGroups(groups[1..]);
  }

  lemma Finished(pattern: Pattern, cases: seq<seq<Pattern>>)
    requires Balanced(pattern, cases, [])
    ensures FlatEither(EitherOf(cases))
    ensures multiset(Cases(EitherOf(cases))) == multiset(Cases(pattern))
  {
    CasesOfResult(cases);
  }

  /** transform: the cases that come out are the cases of the pattern, as often as it has
      them; only their order depends on the worklist. */
  method Transform(pattern: Pattern) returns (result: Pattern)
    ensures FlatEither(result)
    ensures multiset(Cases(result)) == multiset(Cases(pattern))
  {
    var cases: seq<seq<Pattern>> := [];
    var groups: seq<seq<Pattern>> := [[pattern]];
    SinglePattern(pattern);
    assert Balanced(pattern, cases, groups);
    hide Balanced, Cases, CasesOfAll, CasesOfGroups, WeightOfAll, FlatEither;
    while groups != []
      invariant Balanced(pattern, cases, groups)
      decreases WeightOfGroups(groups)
    {
      var children := groups[0];
      var k := FirstBranch(children);
      if k < |children| {
        var groups' := Expand(children, k, groups[1..]);
        ExpandedStep(pattern, cases, groups, groups');
        groups := groups';
      } else {
        assert children[..k] == children;
        FlatStep(pattern, cases, groups);
        FirstGroup(groups);
        cases := cases + [children];
        groups := groups[1..];
      }
    }
    result := EitherOf(cases);
    Finished(pattern, cases);
  }

  lemma BagsOfStep(cases: seq<seq<Pattern>>, tips: seq<Pattern>)
    ensures BagsOf(cases + [tips]) == BagsOf(cases) + [BagOf(tips)]
  {
    assert (cases + [tips])[..|cases|] == cases;
  }

  /** The loop body for a group with a branch at k. */
  lemma BranchStep(children: seq<Pattern>, k: nat, groups: seq<seq<Pattern>>)
    requires k < |children| && children[k].Branch? && AllTips(children[..k])
    ensures var rest := children[..k] + children[k + 1..];
      && CasesOfGroups(groups + Replacement(children[k], rest)) == CasesOfGroups(groups) + CasesOfAll(children)
      && WeightOfGroups(groups + Replacement(children[k], rest)) < WeightOfGroups(groups) + WeightOfAll(children)
  {
    assert children == children[..k] + [children[k]] + children[k + 1..];
    hide Cases, Weight, Cross, CasesOfAll, WeightOfAll, Replacement;
    var rest := children[..k] + children[k + 1..];
    ChildToFront(children[..k], children[k], children[k + 1..]);
    ReplacementStep(children[k], rest);
    GroupsConcat(groups, Replacement(children[k], rest));
  }

  lemma SinglePattern(p: Pattern)
    ensures CasesOfGroups([[p]]) == Cases(p)
  {
    OneGroup([p]);
    CrossNothing(Cases(p));
    assert [p][1..] == [];
  }

  lemma {:induction false} CrossNothing(a: seq<Bag>)
    ensures Cross(a, [multiset{}]) == a
  {
    if a != [] {
      CrossNothing(a[1..]);
      assert a[0] + multiset{} == a[0];
      assert JoinAll(a[0], [multiset{}]) == [a[0]] + JoinAll(a[0], []);
    }
  }

  lemma {:induction false} CasesOfResult(cases: seq<seq<Pattern>>)
    requires AllFlat(cases)
    ensures Cases(EitherOf(cases)) == CasesOfAny(EitherOf(cases).children) == BagsOf(cases)
  {
    var result := EitherOf(cases).children;
    if cases != [] {
      var n := |cases| - 1;
      CasesOfResult(cases[..n]);
      assert result == EitherOf(cases[..n]).children + [Branch(Required, cases[n])];
      CasesOfAnyConcat(result[..n], [result[n]]);
      TipsHaveOneCase(cases[n]);
      assert [result[n]][1..] == [];
    }
  }

  lemma {:induction false} CasesOfAnyConcat(ps: seq<Pattern>, qs: seq<Pattern>)
    ensures CasesOfAny(ps + qs) == CasesOfAny(ps) + CasesOfAny(qs)
  {
    if ps == [] {
      assert ps + qs == qs;
    } else {
      assert (ps + qs)[1..] == ps[1..] + qs;
      CasesOfAnyConcat(ps[1..], qs);
    }
  }
}
