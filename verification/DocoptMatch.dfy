/**
  match: how a pattern tree consumes the parsed command line.

  The lists hold objects.  An object is an index into the store, which holds the leaf it is
  at the moment; matching a leaf that accumulates writes there, and what is written stays
  when the attempt is given up.  The leaves of the tree are objects of their own: the parser
  of the command line makes new ones, so the tree is never written to.
 */
module DocoptMatch {
  import opened DocoptPatterns

  type Id = nat
  type Store = seq<Leaf>

  /** The triple match returns with the store it leaves, or an exception. */
  datatype Outcome = Match(ok: bool, left: seq<Id>, collected: seq<Id>, store: Store) | Raises

  datatype Found = NotFound | At(pos: nat, leaf: Leaf)

  predicate Live(ids: seq<Id>, store: Store) {
    forall k :: 0 <= k < |ids| ==> ids[k] < |store|
  }

  /** The leaves a list shows. */
  function View(ids: seq<Id>, store: Store): (leaves: seq<Leaf>)
    requires Live(ids, store)
    ensures |leaves| == |ids| && forall k :: 0 <= k < |ids| ==> leaves[k] == store[ids[k]]
  {
    seq(|ids|, k requires 0 <= k < |ids| => store[ids[k]])
  }

  // ----- Leaves ------------------------------------------------------------------------------

  function FirstNamed(left: seq<Leaf>, name: string): (k: nat)
    ensures k <= |left|
    ensures k < |left| ==> left[k].name == name
    ensures forall i :: 0 <= i < k ==> left[i].name != name
  {
    if left == [] || left[0].name == name then 0 else 1 + FirstNamed(left[1..], name)
  }

  function FirstArgument(left: seq<Leaf>): (k: nat)
    ensures k <= |left|
    ensures k < |left| ==> left[k].Argument?
    ensures forall i :: 0 <= i < k ==> !left[i].Argument?
  {
    if left == [] || left[0].Argument? then 0 else 1 + FirstArgument(left[1..])
  }

  /** What single_match looks for: an option of the name, or any positional argument. */
  predicate Fits(self: Leaf, x: Leaf) {
    if self.Option? then x.name == self.name else x.Argument?
  }

  /** single_match of the three leaf classes: only the first leaf that fits is looked at. */
  function SingleMatch(self: TreeLeaf, left: seq<Leaf>): (r: Found)
    ensures r.At? ==> r.pos < |left| && Fits(self, left[r.pos]) && r.leaf.name == self.name
    ensures r.At? && self.Argument? ==> r.leaf == Argument(self.name, left[r.pos].value)
    ensures r.At? && self.Command? ==> r.leaf == Command(self.name, Flag(true)) && left[r.pos].value == Text(self.name)
    ensures r.At? && self.Option? ==> r.leaf == left[r.pos]
    ensures r.At? ==> forall i :: 0 <= i < r.pos ==> !Fits(self, left[i])
    ensures r.NotFound? ==> forall i :: 0 <= i < |left| && Fits(self, left[i]) ==>
      self.Command? && (left[i].value != Text(self.name) || exists j :: 0 <= j < i && Fits(self, left[j]))
  {
    match self
    case Argument(name, _) =>
      var n := FirstArgument(left);
      if n == |left| then NotFound else At(n, Argument(name, left[n].value))
    case Command(name, _) =>
      var n := FirstArgument(left);
      if n == |left| || left[n].value != Text(name) then NotFound else At(n, Command(name, Flag(true)))
    case Option(name, _, _) =>
      var n := FirstNamed(left, name);
      if n == |left| then NotFound else At(n, left[n])
  }

  datatype Sum = Is(value: Value) | TypeError

  predicate IsNumber(v: Value) { v.Count? || v.Flag? }

  function Number(v: Value): int
    requires IsNumber(v)
  {
    if v.Count? then v.n else if v.on then 1 else 0
  }

  /** Python's += on the values that occur. */
  function Plus(v: Value, w: Value): Sum {
    if IsNumber(v) && IsNumber(w) then Is(Count(Number(v) + Number(w)))
    else if v.Many? && w.Many? then Is(Many(v.items + w.items))
    else if v.Text? && w.Text? then Is(Text(v.text + w.text))
    else TypeError
  }

  /** Numbers add up, with True as 1, and lists are joined in their order. */
  lemma PlusAdds(a: int, b: int, x: seq<string>, y: seq<string>)
    ensures Plus(Count(a), Count(b)) == Is(Count(a + b)) && Plus(Flag(true), Count(b)) == Is(Count(1 + b))
    ensures Plus(Many(x), Many(y)) == Is(Many(x + y))
  {
  }

  /** Assigning to the value of an object. */
  function Write(store: Store, id: Id, v: Value): (store': Store)
    requires id < |store|
    ensures |store'| == |store|
  {
    store[id := store[id].(value := v)]
  }

  predicate Accumulates(self: Leaf) { self.value.Count? || self.value.Many? }

  function Increment(self: Leaf, matched: Value): Value {
    if self.value.Count? then Count(1) else if matched.Text? then Many([matched.text]) else matched
  }

  /** What match of a leaf does with the object that single_match gave it. */
  function Accept(self: TreeLeaf, id: Id, left: seq<Id>, collected: seq<Id>, store: Store): (o: Outcome)
    requires id < |store| && Live(left, store) && Live(collected, store)
    ensures o.Match? ==> o.ok && o.left == left && Live(left, o.store) && Live(o.collected, o.store) && |o.store| == |store|
  {
    if !Accumulates(self) then Match(true, left, collected + [id], store)
    else
      var increment := Increment(self, store[id].value);
      var same := FirstNamed(View(collected, store), self.name);
      if same == |collected| then Match(true, left, collected + [id], Write(store, id, increment))
      else match Plus(store[collected[same]].value, increment)
        case TypeError => Raises
        case Is(v) => Match(true, left, collected, Write(store, collected[same], v))
  }

  /** Arguments and commands match with a new object, options with the one in the list. */
  function MatchLeaf(self: TreeLeaf, left: seq<Id>, collected: seq<Id>, store: Store): (o: Outcome)
    requires Live(left, store) && Live(collected, store)
    ensures Proper(o, left, store)
    ensures o.Match? ==> o.ok == SingleMatch(self, View(left, store)).At?
  {
    match SingleMatch(self, View(left, store))
    case NotFound => Match(false, left, collected, store)
    case At(pos, found) =>
      var left' := left[..pos] + left[pos + 1..];
      if self.Option? then Accept(self, left[pos], left', collected, store)
      else Accept(self, |store|, left', collected, store + [found])
  }

  // ----- Trees ---------------------------------------------------------------------------------

  /** The lists of an outcome are alive in its store, objects do not vanish, and the list of
      what is left is shorter or the very same. */
  predicate Proper(o: Outcome, left: seq<Id>, store: Store) {
    o.Match? ==>
      && Live(o.left, o.store) && Live(o.collected, o.store) && |store| <= |o.store|
      && (|o.left| < |left| || o.left == left)
  }

  function MatchTree(p: Pattern, left: seq<Id>, collected: seq<Id>, store: Store): (o: Outcome)
    requires Live(left, store) && Live(collected, store)
    ensures Proper(o, left, store)
    decreases p, 1, 0, 0
  {
    match p
    case Tip(leaf) => MatchLeaf(leaf, left, collected, store)
    case Branch(Required, cs) =>
      var o := MatchEach(cs, left, collected, store);
      if o.Match? && !o.ok then Match(false, left, collected, o.store) else o
    case Branch(OneOrMore, cs) =>
      if |cs| != 1 then Raises
      else
        var o := Repeat(cs[0], left, collected, store, [], true, 0);
        if o.Match? && !o.ok then Match(false, left, collected, o.store) else o
    case Branch(Either, cs) => Best(cs, left, collected, store)
    case Branch(_, cs) => MatchAny(cs, left, collected, store)
  }

  /** The loop of Required: stops at the first child that does not match. */
  function MatchEach(cs: seq<Pattern>, left: seq<Id>, collected: seq<Id>, store: Store): (o: Outcome)
    requires Live(left, store) && Live(collected, store)
    ensures Proper(o, left, store)
    decreases cs, 0, 0, 0
  {
    if cs == [] then Match(true, left, collected, store)
    else
      var o := MatchTree(cs[0], left, collected, store);
      if o.Raises? || !o.ok then o else MatchEach(cs[1..], o.left, o.collected, o.store)
  }

  /** The loop of Optional: takes what matches and always succeeds. */
  function MatchAny(cs: seq<Pattern>, left: seq<Id>, collected: seq<Id>, store: Store): (o: Outcome)
    requires Live(left, store) && Live(collected, store)
    ensures Proper(o, left, store)
    decreases cs, 0, 0, 0
  {
    if cs == [] then Match(true, left, collected, store)
    else
      var o := MatchTree(cs[0], left, collected, store);
      if o.Raises? then o else MatchAny(cs[1..], o.left, o.collected, o.store)
  }

  /** The loop of Either: the first child among those that leave least.  Every child starts
      from the same lists, but from the store its elder siblings left. */
  function Best(cs: seq<Pattern>, left: seq<Id>, collected: seq<Id>, store: Store): (o: Outcome)
    requires Live(left, store) && Live(collected, store)
    ensures Proper(o, left, store)
    decreases cs, 0, 0, 0
  {
    if cs == [] then Match(false, left, collected, store)
    else
      var o := MatchTree(cs[0], left, collected, store);
      if o.Raises? then Raises
      else
        var rest := Best(cs[1..], left, collected, o.store);
        if rest.Raises? then Raises
        else if !o.ok || (rest.ok && |rest.left| < |o.left|) then rest
        else o.(store := rest.store)
  }

  /** The loop of OneOrMore; `first` says that no previous list l_ has been kept yet.  The two
      lists are compared by what they show at that moment. */
  function Repeat(child: Pattern, left: seq<Id>, collected: seq<Id>, store: Store,
                  previous: seq<Id>, first: bool, times: nat): (o: Outcome)
    requires Live(left, store) && Live(collected, store)
    requires !first ==> previous == left
    ensures Proper(o, left, store)
    decreases child, 2, |left|, if first then 1 else 0
  {
    var o := MatchTree(child, left, collected, store);
    if o.Raises? then Raises
    else
      var times' := if o.ok then times + 1 else times;
      if (!first && View(previous, o.store) == View(o.left, o.store)) || !o.ok
      then Match(times' >= 1, o.left, o.collected, o.store)
      else Repeat(child, o.left, o.collected, o.store, o.left, false, times')
  }

  // ----- A failed match gives the lists back; a match that takes nothing collects nothing -------

  /** What every class of pattern keeps of the lists.  The values in the store are another matter. */
  predicate Clean(o: Outcome, left: seq<Id>, collected: seq<Id>) {
    && (o.Match? && !o.ok ==> o.left == left && o.collected == collected)
    && (o.Match? && o.left == left ==> o.collected == collected)
  }

  /** The code asks whether something that did not match can have changed the lists l and c. */
  lemma {:induction false} MatchIsClean(p: Pattern, left: seq<Id>, collected: seq<Id>, store: Store)
    requires Live(left, store) && Live(collected, store)
    ensures Clean(MatchTree(p, left, collected, store), left, collected)
    decreases p, 1, 0, 0
  {
    match p
    case Tip(leaf) =>
    case Branch(Required, cs) => MatchEachIsClean(cs, left, collected, store);
    case Branch(OneOrMore, cs) =>
      if |cs| == 1 {
        RepeatIsClean(cs[0], left, collected, store, [], true, 0);
      }
    case Branch(Either, cs) => BestIsClean(cs, left, collected, store);
    case Branch(_, cs) => MatchAnyIsClean(cs, left, collected, store);
  }

  lemma {:induction false} MatchEachIsClean(cs: seq<Pattern>, left: seq<Id>, collected: seq<Id>, store: Store)
    requires Live(left, store) && Live(collected, store)
    ensures var o := MatchEach(cs, left, collected, store); o.Match? && o.left == left ==> o.collected == collected
    decreases cs, 0, 0, 0
  {
    if cs != [] {
      MatchIsClean(cs[0], left, collected, store);
      var o := MatchTree(cs[0], left, collected, store);
      if o.Match? && o.ok {
        MatchEachIsClean(cs[1..], o.left, o.collected, o.store);
      }
    }
  }

  lemma {:induction false} MatchAnyIsClean(cs: seq<Pattern>, left: seq<Id>, collected: seq<Id>, store: Store)
    requires Live(left, store) && Live(collected, store)
    ensures Clean(MatchAny(cs, left, collected, store), left, collected)
    ensures MatchAny(cs, left, collected, store).Match? ==> MatchAny(cs, left, collected, store).ok
    decreases cs, 0, 0, 0
  {
    if cs != [] {
      MatchIsClean(cs[0], left, collected, store);
      var o := MatchTree(cs[0], left, collected, store);
      if o.Match? {
        MatchAnyIsClean(cs[1..], o.left, o.collected, o.store);
      }
    }
  }

  lemma {:induction false} BestIsClean(cs: seq<Pattern>, left: seq<Id>, collected: seq<Id>, store: Store)
    requires Live(left, store) && Live(collected, store)
    ensures Clean(Best(cs, left, collected, store), left, collected)
    decreases cs, 0, 0, 0
  {
    if cs != [] {
      MatchIsClean(cs[0], left, collected, store);
      var o := MatchTree(cs[0], left, collected, store);
      if o.Match? {
        BestIsClean(cs[1..], left, collected, o.store);
      }
    }
  }

  lemma {:induction false} RepeatIsClean(child: Pattern, left: seq<Id>, collected: seq<Id>, store: Store,
                                         previous: seq<Id>, first: bool, times: nat)
    requires Live(left, store) && Live(collected, store)
    requires !first ==> previous == left
    ensures var o := Repeat(child, left, collected, store, previous, first, times);
      o.Match? && o.left == left ==> o.collected == collected
    decreases child, 2, |left|, if first then 1 else 0
  {
    MatchIsClean(child, left, collected, store);
    var o := MatchTree(child, left, collected, store);
    if o.Match? && o.ok && (first || View(previous, o.store) != View(o.left, o.store)) {
      RepeatIsClean(child, o.left, o.collected, o.store, o.left, false, times + 1);
    }
  }

  // ----- What a match may do to lists and objects ------------------------------------------------

  predicate Subsequence(a: seq<Id>, b: seq<Id>)
    decreases |b|
  {
    a == [] || (b != [] && ((a[0] == b[0] && Subsequence(a[1..], b[1..])) || Subsequence(a, b[1..])))
  }

  lemma {:induction false} SubsequenceOfSelf(a: seq<Id>)
    ensures Subsequence(a, a)
  {
    if a != [] {
      SubsequenceOfSelf(a[1..]);
    }
  }

  lemma {:induction false} SubsequenceOfTail(a: seq<Id>, b: seq<Id>)
    requires a != [] && Subsequence(a, b)
    ensures Subsequence(a[1..], b)
    decreases |b|
  {
    if a[0] == b[0] && Subsequence(a[1..], b[1..]) {
    } else {
      SubsequenceOfTail(a, b[1..]);
    }
  }

  lemma {:induction false} SubsequenceTransitive(a: seq<Id>, b: seq<Id>, c: seq<Id>)
    requires Subsequence(a, b) && Subsequence(b, c)
    ensures Subsequence(a, c)
    decreases |c|, |b|
  {
    if a != [] && b != [] && c != [] {
      if b[0] == c[0] && Subsequence(b[1..], c[1..]) {
        if a[0] == b[0] && Subsequence(a[1..], b[1..]) {
          SubsequenceTransitive(a[1..], b[1..], c[1..]);
        } else {
          SubsequenceTransitive(a, b[1..], c[1..]);
        }
      } else {
        SubsequenceTransitive(a, b, c[1..]);
      }
    }
  }

  lemma {:induction false} WithoutOne(left: seq<Id>, pos: nat)
    requires pos < |left|
    ensures Subsequence(left[..pos] + left[pos + 1..], left)
  {
    var rest := left[..pos] + left[pos + 1..];
    if pos == 0 {
      SubsequenceOfSelf(left[1..]);
      assert rest == left[1..];
    } else {
      WithoutOne(left[1..], pos - 1);
      assert rest[1..] == left[1..][..pos - 1] + left[1..][pos..];
    }
  }

  lemma {:induction false} SubsequenceMembers(a: seq<Id>, b: seq<Id>)
    requires Subsequence(a, b)
    ensures forall x :: x in a ==> x in b
    decreases |b|
  {
    if a != [] {
      assert a == [a[0]] + a[1..];
      if a[0] == b[0] && Subsequence(a[1..], b[1..]) {
        SubsequenceMembers(a[1..], b[1..]);
      } else {
        SubsequenceMembers(a, b[1..]);
      }
    }
  }

  /** Class, name and arity of an object. */
  predicate SameTag(x: Leaf, y: Leaf) {
    x == y.(value := x.value)
  }

  /** Objects keep their tags, and only collected objects and those left with a name get new values. */
  ghost predicate StoreFrame(left: seq<Id>, collected: seq<Id>, store: Store, store': Store) {
    && |store| <= |store'|
    && (forall i :: 0 <= i < |store| ==> SameTag(store'[i], store[i]))
    && (forall i :: 0 <= i < |store| && store'[i] != store[i] ==> i in collected || (i in left && store[i].name != ""))
  }

  /** What is left is a subsequence; collected objects keep their places, and behind them stand
      named objects that were left and new ones, at most one for each object taken. */
  ghost predicate ListFrame(left: seq<Id>, collected: seq<Id>, store: Store, left': seq<Id>, collected': seq<Id>) {
    && Subsequence(left', left)
    && collected <= collected'
    && |collected'| + |left'| <= |collected| + |left|
    && (forall k :: |collected| <= k < |collected'| ==>
          collected'[k] >= |store| || (collected'[k] in left && store[collected'[k]].name != ""))
  }

  ghost predicate Framed(o: Outcome, left: seq<Id>, collected: seq<Id>, store: Store) {
    o.Match? ==> StoreFrame(left, collected, store, o.store) && ListFrame(left, collected, store, o.left, o.collected)
  }

  lemma NothingDone(left: seq<Id>, collected: seq<Id>, store: Store)
    ensures StoreFrame(left, collected, store, store) && ListFrame(left, collected, store, left, collected)
  {
    SubsequenceOfSelf(left);
  }

  /** One match after another, on the lists the first one returned. */
  lemma FramesCompose(left: seq<Id>, collected: seq<Id>, store: Store, left1: seq<Id>, collected1: seq<Id>, store1: Store,
                      left2: seq<Id>, collected2: seq<Id>, store2: Store)
    requires StoreFrame(left, collected, store, store1) && ListFrame(left, collected, store, left1, collected1)
    requires StoreFrame(left1, collected1, store1, store2) && ListFrame(left1, collected1, store1, left2, collected2)
    ensures StoreFrame(left, collected, store, store2) && ListFrame(left, collected, store, left2, collected2)
  {
    SubsequenceTransitive(left2, left1, left);
    SubsequenceMembers(left1, left);
    hide Subsequence;
    TagsCompose(store, store1, store2);
    forall i | 0 <= i < |store| && store2[i] != store[i]
      ensures i in collected || (i in left && store[i].name != "")
    {
      assert SameTag(store1[i], store[i]);
      if store1[i] == store[i] && i in collected1 {
        var k :| 0 <= k < |collected1| && collected1[k] == i;
        assert k < |collected| ==> collected[k] == i;
      }
    }
    forall k | |collected| <= k < |collected2|
      ensures collected2[k] >= |store| || (collected2[k] in left && store[collected2[k]].name != "")
    {
      if k < |collected1| {
        assert collected2[k] == collected1[k];
      } else if collected2[k] < |store| {
        assert SameTag(store1[collected2[k]], store[collected2[k]]);
      }
    }
  }

  lemma TagsCompose(store: Store, store1: Store, store2: Store)
    requires |store| <= |store1| <= |store2|
    requires forall i :: 0 <= i < |store| ==> SameTag(store1[i], store[i])
    requires forall i :: 0 <= i < |store1| ==> SameTag(store2[i], store1[i])
    ensures forall i :: 0 <= i < |store| ==> SameTag(store2[i], store[i])
  {
    forall i | 0 <= i < |store|
      ensures SameTag(store2[i], store[i])
    {
      assert SameTag(store1[i], store[i]) && SameTag(store2[i], store1[i]);
    }
  }

  /** One match after another, both on the same lists. */
  lemma StoresCompose(left: seq<Id>, collected: seq<Id>, store: Store, store1: Store, store2: Store)
    requires StoreFrame(left, collected, store, store1) && StoreFrame(left, collected, store1, store2)
    ensures StoreFrame(left, collected, store, store2)
  {
    TagsCompose(store, store1, store2);
    forall i | 0 <= i < |store| && store2[i] != store[i]
      ensures i in collected || (i in left && store[i].name != "")
    {
      assert SameTag(store1[i], store[i]);
    }
  }

  lemma ListsLater(left: seq<Id>, collected: seq<Id>, store: Store, store1: Store, left': seq<Id>, collected': seq<Id>)
    requires StoreFrame(left, collected, store, store1) && ListFrame(left, collected, store1, left', collected')
    ensures ListFrame(left, collected, store, left', collected')
  {
    hide Subsequence;
    forall k | |collected| <= k < |collected'| && collected'[k] < |store|
      ensures collected'[k] in left && store[collected'[k]].name != ""
    {
      assert SameTag(store1[collected'[k]], store[collected'[k]]);
    }
  }

  lemma WriteFrame(left: seq<Id>, collected: seq<Id>, store: Store, id: Id, v: Value)
    requires id < |store| && ((id in left && store[id].name != "") || id in collected)
    ensures StoreFrame(left, collected, store, Write(store, id, v))
  {
  }

  lemma NewFrame(left: seq<Id>, collected: seq<Id>, store: Store, x: Leaf)
    ensures StoreFrame(left, collected, store, store + [x])
  {
  }

  lemma OptionIsFramed(self: TreeLeaf, pos: nat, left: seq<Id>, collected: seq<Id>, store: Store)
    requires pos < |left| && Live(left, store) && Live(collected, store) && store[left[pos]].name != ""
    ensures Framed(Accept(self, left[pos], left[..pos] + left[pos + 1..], collected, store), left, collected, store)
  {
    hide Subsequence, StoreFrame, Plus, Increment, View, Write;
    WithoutOne(left, pos);
    NothingDone(left, collected, store);
    var o := Accept(self, left[pos], left[..pos] + left[pos + 1..], collected, store);
    if o.Match? && o.store != store {
      var increment := Increment(self, store[left[pos]].value);
      var same := FirstNamed(View(collected, store), self.name);
      if same == |collected| {
        WriteFrame(left, collected, store, left[pos], increment);
      } else {
        WriteFrame(left, collected, store, collected[same], Plus(store[collected[same]].value, increment).value);
      }
    }
  }

  lemma NewIsFramed(self: TreeLeaf, pos: nat, x: Leaf, left: seq<Id>, collected: seq<Id>, store: Store)
    requires pos < |left| && Live(left, store) && Live(collected, store)
    ensures Framed(Accept(self, |store|, left[..pos] + left[pos + 1..], collected, store + [x]), left, collected, store)
  {
    hide Subsequence, StoreFrame, Plus, Increment, View, Write;
    WithoutOne(left, pos);
    NewFrame(left, collected, store, x);
    var store1 := store + [x];
    var o := Accept(self, |store|, left[..pos] + left[pos + 1..], collected, store1);
    if o.Match? && o.store != store1 {
      var increment := Increment(self, store1[|store|].value);
      var same := FirstNamed(View(collected, store1), self.name);
      if same == |collected| {
        NewWritten(left, collected, store, x, increment);
      } else {
        WriteFrame(left, collected, store1, collected[same], Plus(store1[collected[same]].value, increment).value);
        StoresCompose(left, collected, store, store1, o.store);
      }
    }
  }

  lemma NewWritten(left: seq<Id>, collected: seq<Id>, store: Store, x: Leaf, v: Value)
    ensures StoreFrame(left, collected, store, Write(store + [x], |store|, v))
  {
  }

  lemma LeafIsFramed(self: TreeLeaf, left: seq<Id>, collected: seq<Id>, store: Store)
    requires Live(left, store) && Live(collected, store)
    ensures Framed(MatchLeaf(self, left, collected, store), left, collected, store)
  {
    hide Accept, Framed, View;
    var found := SingleMatch(self, View(left, store));
    if found.NotFound? {
      FailIsFramed(left, collected, store);
    } else if self.Option? {
      OptionIsFramed(self, found.pos, left, collected, store);
    } else {
      NewIsFramed(self, found.pos, found.leaf, left, collected, store);
    }
  }

  lemma FailIsFramed(left: seq<Id>, collected: seq<Id>, store: Store)
    ensures Framed(Match(false, left, collected, store), left, collected, store)
  {
    NothingDone(left, collected, store);
  }

  lemma {:induction false} MatchIsFramed(p: Pattern, left: seq<Id>, collected: seq<Id>, store: Store)
    requires Live(left, store) && Live(collected, store)
    ensures Framed(MatchTree(p, left, collected, store), left, collected, store)
    decreases p, 1, 0, 0
  {
    NothingDone(left, collected, store);
    hide StoreFrame, ListFrame;
    match p
    case Tip(leaf) => LeafIsFramed(leaf, left, collected, store);
    case Branch(Required, cs) => MatchEachIsFramed(cs, left, collected, store);
    case Branch(OneOrMore, cs) =>
      if |cs| == 1 {
        RepeatIsFramed(cs[0], left, collected, store, [], true, 0);
      }
    case Branch(Either, cs) => BestIsFramed(cs, left, collected, store);
    case Branch(_, cs) => MatchAnyIsFramed(cs, left, collected, store);
  }

  lemma {:induction false} MatchEachIsFramed(cs: seq<Pattern>, left: seq<Id>, collected: seq<Id>, store: Store)
    requires Live(left, store) && Live(collected, store)
    ensures Framed(MatchEach(cs, left, collected, store), left, collected, store)
    decreases cs, 0, 0, 0
  {
    NothingDone(left, collected, store);
    hide StoreFrame, ListFrame;
    if cs != [] {
      MatchIsFramed(cs[0], left, collected, store);
      var o := MatchTree(cs[0], left, collected, store);
      if o.Match? && o.ok {
        MatchEachIsFramed(cs[1..], o.left, o.collected, o.store);
        var o' := MatchEach(cs[1..], o.left, o.collected, o.store);
        if o'.Match? {
          FramesCompose(left, collected, store, o.left, o.collected, o.store, o'.left, o'.collected, o'.store);
        }
      }
    }
  }

  lemma {:induction false} MatchAnyIsFramed(cs: seq<Pattern>, left: seq<Id>, collected: seq<Id>, store: Store)
    requires Live(left, store) && Live(collected, store)
    ensures Framed(MatchAny(cs, left, collected, store), left, collected, store)
    decreases cs, 0, 0, 0
  {
    NothingDone(left, collected, store);
    hide StoreFrame, ListFrame;
    if cs != [] {
      MatchIsFramed(cs[0], left, collected, store);
      var o := MatchTree(cs[0], left, collected, store);
      if o.Match? {
        MatchAnyIsFramed(cs[1..], o.left, o.collected, o.store);
        var o' := MatchAny(cs[1..], o.left, o.collected, o.store);
        if o'.Match? {
          FramesCompose(left, collected, store, o.left, o.collected, o.store, o'.left, o'.collected, o'.store);
        }
      }
    }
  }

  lemma {:induction false} BestIsFramed(cs: seq<Pattern>, left: seq<Id>, collected: seq<Id>, store: Store)
    requires Live(left, store) && Live(collected, store)
    ensures Framed(Best(cs, left, collected, store), left, collected, store)
    decreases cs, 0, 0, 0
  {
    NothingDone(left, collected, store);
    hide StoreFrame, ListFrame;
    if cs != [] {
      MatchIsFramed(cs[0], left, collected, store);
      var o := MatchTree(cs[0], left, collected, store);
      if o.Match? {
        BestIsFramed(cs[1..], left, collected, o.store);
        var rest := Best(cs[1..], left, collected, o.store);
        if rest.Match? {
          StoresCompose(left, collected, store, o.store, rest.store);
          ListsLater(left, collected, store, o.store, rest.left, rest.collected);
        }
      }
    }
  }

  lemma {:induction false} RepeatIsFramed(child: Pattern, left: seq<Id>, collected: seq<Id>, store: Store,
                                          previous: seq<Id>, first: bool, times: nat)
    requires Live(left, store) && Live(collected, store)
    requires !first ==> previous == left
    ensures Framed(Repeat(child, left, collected, store, previous, first, times), left, collected, store)
    decreases child, 2, |left|, if first then 1 else 0
  {
    hide StoreFrame, ListFrame;
    MatchIsFramed(child, left, collected, store);
    var o := MatchTree(child, left, collected, store);
    if o.Match? && o.ok && (first || View(previous, o.store) != View(o.left, o.store)) {
      RepeatIsFramed(child, o.left, o.collected, o.store, o.left, false, times + 1);
      var o' := Repeat(child, o.left, o.collected, o.store, o.left, false, times + 1);
      if o'.Match? {
        FramesCompose(left, collected, store, o.left, o.collected, o.store, o'.left, o'.collected, o'.store);
      }
    }
  }

  // ----- Values never decide what is taken -----------------------------------------------------------

  /** Lists as the parser of the command line makes them: positional arguments have no name
      and are not collected, since they match with a new object. */
  ghost predicate Parsed(left: seq<Id>, collected: seq<Id>, store: Store) {
    && Live(left, store) && Live(collected, store)
    && forall k :: 0 <= k < |left| && !store[left[k]].Option? ==> store[left[k]].name == "" && left[k] !in collected
  }

  /** For single_match the objects of the list are the same in both stores. */
  ghost predicate SameToMatch(left: seq<Id>, store: Store, store': Store) {
    && Live(left, store) && Live(left, store')
    && forall k :: 0 <= k < |left| ==>
         SameTag(store[left[k]], store'[left[k]]) && (!store[left[k]].Option? ==> store[left[k]] == store'[left[k]])
  }

  function Names(ids: seq<Id>, store: Store): (names: seq<string>)
    requires Live(ids, store)
    ensures |names| == |ids| && forall k :: 0 <= k < |ids| ==> names[k] == store[ids[k]].name
  {
    seq(|ids|, k requires 0 <= k < |ids| => store[ids[k]].name)
  }

  lemma FrameKeepsParsed(left: seq<Id>, collected: seq<Id>, store: Store, o: Outcome)
    requires o.Match? && Proper(o, left, store) && Framed(o, left, collected, store) && Parsed(left, collected, store)
    ensures Parsed(o.left, o.collected, o.store) && Parsed(left, collected, o.store)
    ensures SameToMatch(left, store, o.store) && SameToMatch(o.left, store, o.store)
    ensures Names(collected, store) == Names(collected, o.store)
  {
    SubsequenceMembers(o.left, left);
    hide Subsequence;
    forall k | 0 <= k < |o.left|
      ensures o.left[k] in left && o.left[k] < |store|
    {
      assert o.left[k] in o.left;
    }
    forall k | 0 <= k < |o.left| && !o.store[o.left[k]].Option?
      ensures o.store[o.left[k]].name == "" && o.left[k] !in o.collected
    {
      var id := o.left[k];
      assert SameTag(o.store[id], store[id]);
      forall j | 0 <= j < |o.collected|
        ensures o.collected[j] != id
      {
        assert j < |collected| ==> o.collected[j] == collected[j];
      }
    }
    SameAfter(left, collected, store, o.store);
    SameAfter(o.left, collected, store, o.store);
    assert Names(collected, store) == Names(collected, o.store) by {
      assert forall k :: 0 <= k < |collected| ==> SameTag(o.store[collected[k]], store[collected[k]]);
    }
  }

  lemma SameAfter(left: seq<Id>, collected: seq<Id>, store: Store, store': Store)
    requires |store| <= |store'| && Live(left, store) && Live(collected, store)
    requires forall i :: 0 <= i < |store| ==> SameTag(store'[i], store[i])
    requires forall i :: 0 <= i < |store| && store'[i] != store[i] ==> i in collected || store[i].name != ""
    requires forall k :: 0 <= k < |left| && !store[left[k]].Option? ==> store[left[k]].name == "" && left[k] !in collected
    ensures SameToMatch(left, store, store') && Parsed(left, collected, store')
  {
    forall k | 0 <= k < |left|
      ensures SameTag(store[left[k]], store'[left[k]]) && (!store[left[k]].Option? ==> store[left[k]] == store'[left[k]])
    {
      assert SameTag(store'[left[k]], store[left[k]]);
    }
  }

  /** The leaf takes the same place in both stores. */
  lemma SingleMatchSame(self: TreeLeaf, left: seq<Id>, store: Store, store': Store)
    requires SameToMatch(left, store, store')
    ensures var r, r' := SingleMatch(self, View(left, store)), SingleMatch(self, View(left, store'));
      r.At? == r'.At? && (r.At? ==> r.pos == r'.pos)
  {
    var v, v' := View(left, store), View(left, store');
    FirstSame(v, v', self.name);
  }

  lemma {:induction false} FirstSame(v: seq<Leaf>, v': seq<Leaf>, name: string)
    requires |v| == |v'|
    requires forall k :: 0 <= k < |v| ==> SameTag(v[k], v'[k])
    ensures FirstNamed(v, name) == FirstNamed(v', name) && FirstArgument(v) == FirstArgument(v')
  {
    if v != [] {
      assert SameTag(v[0], v'[0]);
      FirstSame(v[1..], v'[1..], name);
    }
  }

  lemma FirstByName(v: seq<Leaf>, names: seq<string>, name: string)
    requires |v| == |names| && forall k :: 0 <= k < |v| ==> v[k].name == names[k]
    ensures FirstNamed(v, name) < |v| <==> name in names
  {
    var n := FirstNamed(v, name);
    if n < |v| {
      assert names[n] == name;
    }
  }

  /** Two configurations with the same objects left and the same names collected. */
  ghost predicate Alike(left: seq<Id>, c: seq<Id>, s: Store, c': seq<Id>, s': Store) {
    && Parsed(left, c, s) && Parsed(left, c', s') && SameToMatch(left, s, s') && Names(c, s) == Names(c', s')
  }

  /** What is left and the names of what is collected. */
  datatype Shape = NoShape | Shape(left: seq<Id>, names: seq<string>)

  function TakeLeaf(self: TreeLeaf, left: seq<Id>, names: seq<string>, store: Store): (r: Shape)
    requires Live(left, store)
    ensures r.Shape? ==> Live(r.left, store)
  {
    match SingleMatch(self, View(left, store))
    case NotFound => NoShape
    case At(pos, _) =>
      Shape(left[..pos] + left[pos + 1..], if Accumulates(self) && self.name in names then names else names + [self.name])
  }

  function ShapeOf(o: Outcome): Shape
    requires o.Match? ==> Live(o.collected, o.store)
  {
    if o.Raises? then NoShape else Shape(o.left, Names(o.collected, o.store))
  }

  lemma AcceptNames(self: TreeLeaf, id: Id, left: seq<Id>, collected: seq<Id>, store: Store)
    requires id < |store| && Live(left, store) && Live(collected, store) && store[id].name == self.name
    ensures var o := Accept(self, id, left, collected, store); var names := Names(collected, store);
      o.Match? ==> Names(o.collected, o.store)
                   == if Accumulates(self) && self.name in names then names else names + [self.name]
  {
    FirstByName(View(collected, store), Names(collected, store), self.name);
    hide FirstNamed, Increment, Plus;
    assert Names(collected + [id], store) == Names(collected, store) + [self.name];
  }

  /** Matching a leaf is taking it, whatever the values are. */
  lemma LeafTakes(self: TreeLeaf, left: seq<Id>, collected: seq<Id>, store: Store)
    requires Live(left, store) && Live(collected, store)
    ensures var o := MatchLeaf(self, left, collected, store);
      o.Match? && o.ok ==> ShapeOf(o) == TakeLeaf(self, left, Names(collected, store), store)
  {
    hide Accept, Names, SingleMatch, Accumulates;
    var found := SingleMatch(self, View(left, store));
    if found.At? {
      var left' := left[..found.pos] + left[found.pos + 1..];
      if self.Option? {
        AcceptNames(self, left[found.pos], left', collected, store);
      } else {
        SameNames(collected, store, found.leaf);
        AcceptNames(self, |store|, left', collected, store + [found.leaf]);
      }
    }
  }

  lemma SameNames(ids: seq<Id>, store: Store, x: Leaf)
    requires Live(ids, store)
    ensures Live(ids, store + [x]) && Names(ids, store + [x]) == Names(ids, store)
  {
  }

  lemma TakeSame(self: TreeLeaf, left: seq<Id>, names: seq<string>, store: Store, store': Store)
    requires SameToMatch(left, store, store')
    ensures TakeLeaf(self, left, names, store) == TakeLeaf(self, left, names, store')
    ensures var r := TakeLeaf(self, left, names, store); r.Shape? ==> SameToMatch(r.left, store, store')
  {
    SingleMatchSame(self, left, store, store');
  }

  lemma SameChain(left: seq<Id>, a: Store, b: Store, c: Store, d: Store)
    requires SameToMatch(left, a, b) && SameToMatch(left, a, c) && SameToMatch(left, b, d)
    ensures SameToMatch(left, c, d)
  {
    forall k | 0 <= k < |left|
      ensures SameTag(c[left[k]], d[left[k]]) && (!c[left[k]].Option? ==> c[left[k]] == d[left[k]])
    {
      assert SameTag(a[left[k]], b[left[k]]) && SameTag(a[left[k]], c[left[k]]) && SameTag(b[left[k]], d[left[k]]);
    }
  }

  lemma SameOnPart(part: seq<Id>, left: seq<Id>, a: Store, b: Store)
    requires SameToMatch(left, a, b) && Subsequence(part, left)
    ensures SameToMatch(part, a, b)
  {
    SubsequenceMembers(part, left);
    hide Subsequence;
    forall k | 0 <= k < |part|
      ensures part[k] < |a| && part[k] < |b|
      ensures SameTag(a[part[k]], b[part[k]]) && (!a[part[k]].Option? ==> a[part[k]] == b[part[k]])
    {
      assert part[k] in part;
      var j :| 0 <= j < |left| && left[j] == part[k];
    }
  }

  /** Both outcomes, if there are two, say the same and show the same. */
  ghost predicate Agree(o: Outcome, o': Outcome)
    requires o.Match? ==> Live(o.collected, o.store)
    requires o'.Match? ==> Live(o'.collected, o'.store)
  {
    o.Match? && o'.Match? ==> o.ok == o'.ok && ShapeOf(o) == ShapeOf(o')
  }

  /** Outcomes that agree leave the configurations alike, and so do the stores alone. */
  lemma StayAlike(left: seq<Id>, c: seq<Id>, s: Store, c': seq<Id>, s': Store, o: Outcome, o': Outcome)
    requires Alike(left, c, s, c', s') && o.Match? && o'.Match?
    requires Proper(o, left, s) && Framed(o, left, c, s) && Proper(o', left, s') && Framed(o', left, c', s')
    requires Agree(o, o')
    ensures Alike(o.left, o.collected, o.store, o'.collected, o'.store)
    ensures Alike(left, c, o.store, c', o'.store)
  {
    FrameKeepsParsed(left, c, s, o);
    FrameKeepsParsed(left, c', s', o');
    SameOnPart(o.left, left, s, s');
    hide Framed, Parsed, SameToMatch, Subsequence;
    SameChain(left, s, s', o.store, o'.store);
    SameChain(o.left, s, s', o.store, o'.store);
  }

  lemma NamesKept(left: seq<Id>, c: seq<Id>, s: Store, s1: Store)
    requires Live(c, s) && StoreFrame(left, c, s, s1)
    ensures Live(c, s1) && Names(c, s1) == Names(c, s)
  {
    assert forall k :: 0 <= k < |c| ==> SameTag(s1[c[k]], s[c[k]]);
  }

  /** What a match takes and what it returns depends on the lists alone, not on values that
      earlier attempts wrote; values only decide whether an addition fails. */
  lemma {:induction false} ListsDecide(p: Pattern, left: seq<Id>, c: seq<Id>, s: Store, c': seq<Id>, s': Store)
    requires Alike(left, c, s, c', s')
    ensures Agree(MatchTree(p, left, c, s), MatchTree(p, left, c', s'))
    decreases p, 1, 0, 0
  {
    MatchIsFramed(p, left, c, s);
    MatchIsFramed(p, left, c', s');
    var o, o' := MatchTree(p, left, c, s), MatchTree(p, left, c', s');
    if o.Match? && o'.Match? {
      NamesKept(left, c, s, o.store);
      NamesKept(left, c', s', o'.store);
    }
    hide Framed, MatchLeaf, TakeLeaf, SameToMatch, Names;
    match p
    case Tip(leaf) =>
      LeafTakes(leaf, left, c, s);
      LeafTakes(leaf, left, c', s');
      SingleMatchSame(leaf, left, s, s');
      TakeSame(leaf, left, Names(c, s), s, s');
      LeafFails(leaf, left, c, s);
      LeafFails(leaf, left, c', s');
    case Branch(Required, cs) => EachDecided(cs, left, c, s, c', s');
    case Branch(OneOrMore, cs) =>
      if |cs| == 1 {
        RepeatDecided(cs[0], left, c, s, c', s', [], true, 0);
      }
    case Branch(Either, cs) => BestDecided(cs, left, c, s, c', s');
    case Branch(_, cs) => AnyDecided(cs, left, c, s, c', s');
  }

  lemma LeafFails(self: TreeLeaf, left: seq<Id>, collected: seq<Id>, store: Store)
    requires Live(left, store) && Live(collected, store)
    ensures var o := MatchLeaf(self, left, collected, store);
      o.Match? && !o.ok ==> o == Match(false, left, collected, store)
  {
    hide Accept;
  }

  lemma {:induction false} EachDecided(cs: seq<Pattern>, left: seq<Id>, c: seq<Id>, s: Store, c': seq<Id>, s': Store)
    requires Alike(left, c, s, c', s')
    ensures Agree(MatchEach(cs, left, c, s), MatchEach(cs, left, c', s'))
    decreases cs, 0, 0, 0
  {
    if cs != [] {
      hide Framed, Parsed, SameToMatch, Names, Alike;
      AlikeIsLive(left, c, s, c', s');
      ListsDecide(cs[0], left, c, s, c', s');
      MatchIsFramed(cs[0], left, c, s);
      MatchIsFramed(cs[0], left, c', s');
      var o, o' := MatchTree(cs[0], left, c, s), MatchTree(cs[0], left, c', s');
      if o.Match? && o'.Match? && o.ok {
        StayAlike(left, c, s, c', s', o, o');
        EachDecided(cs[1..], o.left, o.collected, o.store, o'.collected, o'.store);
      }
    }
  }

  lemma AlikeIsLive(left: seq<Id>, c: seq<Id>, s: Store, c': seq<Id>, s': Store)
    requires Alike(left, c, s, c', s')
    ensures Live(left, s) && Live(c, s) && Live(left, s') && Live(c', s')
  {
  }

  lemma {:induction false} AnyDecided(cs: seq<Pattern>, left: seq<Id>, c: seq<Id>, s: Store, c': seq<Id>, s': Store)
    requires Alike(left, c, s, c', s')
    ensures Agree(MatchAny(cs, left, c, s), MatchAny(cs, left, c', s'))
    decreases cs, 0, 0, 0
  {
    if cs != [] {
      hide Framed, Parsed, SameToMatch, Names, Alike;
      AlikeIsLive(left, c, s, c', s');
      ListsDecide(cs[0], left, c, s, c', s');
      MatchIsFramed(cs[0], left, c, s);
      MatchIsFramed(cs[0], left, c', s');
      var o, o' := MatchTree(cs[0], left, c, s), MatchTree(cs[0], left, c', s');
      if o.Match? && o'.Match? {
        StayAlike(left, c, s, c', s', o, o');
        AnyDecided(cs[1..], o.left, o.collected, o.store, o'.collected, o'.store);
      }
    }
  }

  lemma {:induction false} BestDecided(cs: seq<Pattern>, left: seq<Id>, c: seq<Id>, s: Store, c': seq<Id>, s': Store)
    requires Alike(left, c, s, c', s')
    ensures Agree(Best(cs, left, c, s), Best(cs, left, c', s'))
    decreases cs, 0, 0, 0
  {
    if cs != [] {
      AlikeIsLive(left, c, s, c', s');
      ListsDecide(cs[0], left, c, s, c', s');
      MatchIsFramed(cs[0], left, c, s);
      MatchIsFramed(cs[0], left, c', s');
      var o, o' := MatchTree(cs[0], left, c, s), MatchTree(cs[0], left, c', s');
      if o.Match? && o'.Match? {
        hide Framed, Parsed, SameToMatch, Names, Alike;
        StayAlike(left, c, s, c', s', o, o');
        BestDecided(cs[1..], left, c, o.store, c', o'.store);
        KeptByRest(cs, left, c, s);
        KeptByRest(cs, left, c', s');
      }
    }
  }

  /** What the younger children of an Either write changes no name of what the eldest collected. */
  lemma KeptByRest(cs: seq<Pattern>, left: seq<Id>, collected: seq<Id>, store: Store)
    requires Live(left, store) && Live(collected, store) && cs != [] && MatchTree(cs[0], left, collected, store).Match?
    ensures var o := MatchTree(cs[0], left, collected, store); var rest := Best(cs[1..], left, collected, o.store);
      rest.Match? ==> Live(o.collected, rest.store) && Names(o.collected, rest.store) == Names(o.collected, o.store)
  {
    var o := MatchTree(cs[0], left, collected, store);
    BestIsFramed(cs[1..], left, collected, o.store);
    var rest := Best(cs[1..], left, collected, o.store);
    if rest.Match? {
      assert forall k :: 0 <= k < |o.collected| ==> SameTag(rest.store[o.collected[k]], o.store[o.collected[k]]);
    }
  }

  /** The comparison that ends the loop of OneOrMore is one of lengths. */
  lemma SameView(previous: seq<Id>, left: seq<Id>, store: Store)
    requires Live(previous, store) && Live(left, store) && (left == previous || |left| < |previous|)
    ensures View(previous, store) == View(left, store) <==> left == previous
  {
  }

  /** One turn of the loop of OneOrMore. */
  lemma RepeatTurn(child: Pattern, left: seq<Id>, c: seq<Id>, s: Store, previous: seq<Id>, first: bool, times: nat)
    requires Live(left, s) && Live(c, s) && (!first ==> previous == left)
    ensures var o := MatchTree(child, left, c, s); var r := Repeat(child, left, c, s, previous, first, times);
      if o.Raises? then r.Raises?
      else if o.ok && (first || o.left != previous)
      then r == Repeat(child, o.left, o.collected, o.store, o.left, false, times + 1)
      else r == Match(if o.ok then times + 1 >= 1 else times >= 1, o.left, o.collected, o.store)
  {
    var o := MatchTree(child, left, c, s);
    if o.Match? && !first {
      SameView(previous, o.left, o.store);
    }
    hide MatchTree;
  }

  lemma {:induction false} RepeatDecided(child: Pattern, left: seq<Id>, c: seq<Id>, s: Store, c': seq<Id>, s': Store,
                                         previous: seq<Id>, first: bool, times: nat)
    requires Alike(left, c, s, c', s')
    requires !first ==> previous == left
    ensures Agree(Repeat(child, left, c, s, previous, first, times), Repeat(child, left, c', s', previous, first, times))
    decreases child, 2, |left|, if first then 1 else 0
  {
    hide Framed, Parsed, SameToMatch, Names, Alike, Repeat, MatchTree, View;
    AlikeIsLive(left, c, s, c', s');
    ListsDecide(child, left, c, s, c', s');
    MatchIsFramed(child, left, c, s);
    MatchIsFramed(child, left, c', s');
    RepeatTurn(child, left, c, s, previous, first, times);
    RepeatTurn(child, left, c', s', previous, first, times);
    var o, o' := MatchTree(child, left, c, s), MatchTree(child, left, c', s');
    if o.Match? && o'.Match? && o.ok && (first || o.left != previous) {
      StayAlike(left, c, s, c', s', o, o');
      RepeatDecided(child, o.left, o.collected, o.store, o'.collected, o'.store, o.left, false, times + 1);
    }
  }

  // ----- Every match takes what some leaves take ------------------------------------------------------

  function LeavesOf(p: Pattern): set<TreeLeaf>
    decreases p
  {
    match p
    case Tip(leaf) => {leaf}
    case Branch(_, cs) => LeavesOfAll(cs)
  }

  function LeavesOfAll(cs: seq<Pattern>): set<TreeLeaf>
    decreases cs
  {
    if cs == [] then {} else LeavesOf(cs[0]) + LeavesOfAll(cs[1..])
  }

  /** The ways to match a pattern, as the leaves that are taken: Required all its children in
      turn, Optional each child or not, Either one of them, OneOrMore its child again and again. */
  ghost predicate InLanguage(steps: seq<TreeLeaf>, p: Pattern)
    decreases p, 1, 0
  {
    match p
    case Tip(leaf) => steps == [leaf]
    case Branch(Required, cs) => InSequence(steps, cs, false)
    case Branch(OneOrMore, cs) => |cs| == 1 && exists n :: n >= 1 && InRounds(steps, cs[0], n)
    case Branch(Either, cs) => InSome(steps, cs)
    case Branch(_, cs) => InSequence(steps, cs, true)
  }

  ghost predicate InSequence(steps: seq<TreeLeaf>, cs: seq<Pattern>, optional: bool)
    decreases cs, 0, 0
  {
    if cs == [] then steps == []
    else exists k :: 0 <= k <= |steps| && (InLanguage(steps[..k], cs[0]) || (optional && k == 0))
                     && InSequence(steps[k..], cs[1..], optional)
  }

  ghost predicate InSome(steps: seq<TreeLeaf>, cs: seq<Pattern>)
    decreases cs, 0, 0
  {
    cs != [] && (InLanguage(steps, cs[0]) || InSome(steps, cs[1..]))
  }

  ghost predicate InRounds(steps: seq<TreeLeaf>, child: Pattern, n: nat)
    decreases child, 2, n
  {
    if n == 0 then steps == []
    else exists k :: 0 <= k <= |steps| && InLanguage(steps[..k], child) && InRounds(steps[k..], child, n - 1)
  }

  lemma SequenceFirst(a: seq<TreeLeaf>, b: seq<TreeLeaf>, cs: seq<Pattern>, optional: bool)
    requires cs != [] && (InLanguage(a, cs[0]) || (optional && a == [])) && InSequence(b, cs[1..], optional)
    ensures InSequence(a + b, cs, optional)
  {
    hide InLanguage;
    assert (a + b)[..|a|] == a && (a + b)[|a|..] == b;
  }

  lemma RoundFirst(a: seq<TreeLeaf>, b: seq<TreeLeaf>, child: Pattern, n: nat)
    requires InLanguage(a, child) && InRounds(b, child, n)
    ensures InRounds(a + b, child, n + 1)
  {
    hide InLanguage;
    assert (a + b)[..|a|] == a && (a + b)[|a|..] == b;
  }

  lemma ParsedIsLive(left: seq<Id>, collected: seq<Id>, store: Store)
    requires Parsed(left, collected, store)
    ensures Live(left, store) && Live(collected, store)
  {
  }

  lemma NoRound(child: Pattern)
    ensures InRounds([], child, 0)
  {
  }

  lemma OneRound(a: seq<TreeLeaf>, child: Pattern)
    requires InLanguage(a, child)
    ensures InRounds(a, child, 1)
  {
    hide InLanguage;
    RoundFirst(a, [], child, 0);
    assert a + [] == a;
  }

  /** Leaves taken one after the other. */
  function Replay(steps: seq<TreeLeaf>, left: seq<Id>, names: seq<string>, store: Store): Shape
    requires Live(left, store)
    decreases |steps|
  {
    if steps == [] then Shape(left, names)
    else match TakeLeaf(steps[0], left, names, store)
      case NoShape => NoShape
      case Shape(left', names') => Replay(steps[1..], left', names', store)
  }

  /** What an outcome leaves, and the names it collects, is what taking these leaves gives. */
  ghost predicate Replays(steps: seq<TreeLeaf>, leaves: set<TreeLeaf>, left: seq<Id>, collected: seq<Id>, store: Store, o: Outcome)
    requires Live(left, store) && Live(collected, store) && (o.Match? ==> Live(o.collected, o.store))
  {
    o.Match? && (forall x :: x in steps ==> x in leaves)
    && Replay(steps, left, Names(collected, store), store) == ShapeOf(o)
  }

  lemma {:induction false} ReplaySame(steps: seq<TreeLeaf>, left: seq<Id>, names: seq<string>, store: Store, store': Store)
    requires SameToMatch(left, store, store')
    ensures Replay(steps, left, names, store) == Replay(steps, left, names, store')
    decreases |steps|
  {
    hide SameToMatch, TakeLeaf;
    SameIsLive(left, store, store');
    if steps != [] {
      TakeSame(steps[0], left, names, store, store');
      var r := TakeLeaf(steps[0], left, names, store);
      if r.Shape? {
        ReplaySame(steps[1..], r.left, r.names, store, store');
      }
    }
  }

  lemma SameIsLive(left: seq<Id>, store: Store, store': Store)
    requires SameToMatch(left, store, store')
    ensures Live(left, store) && Live(left, store')
  {
  }

  lemma {:induction false} ReplayConcat(a: seq<TreeLeaf>, b: seq<TreeLeaf>, left: seq<Id>, names: seq<string>, store: Store)
    requires Live(left, store) && Replay(a, left, names, store).Shape?
    ensures var r := Replay(a, left, names, store);
      Live(r.left, store) && Replay(a + b, left, names, store) == Replay(b, r.left, r.names, store)
    decreases |a|
  {
    hide TakeLeaf;
    if a == [] {
      assert a + b == b;
    } else {
      assert (a + b)[0] == a[0] && (a + b)[1..] == a[1..] + b;
      var r := TakeLeaf(a[0], left, names, store);
      ReplayConcat(a[1..], b, r.left, r.names, store);
    }
  }

  /** One match after the other, the second on the lists and the store of the first. */
  lemma ReplaysThen(a: seq<TreeLeaf>, b: seq<TreeLeaf>, x: set<TreeLeaf>, y: set<TreeLeaf>,
                    left: seq<Id>, collected: seq<Id>, store: Store, o: Outcome, o': Outcome)
    requires Parsed(left, collected, store) && Proper(o, left, store) && Framed(o, left, collected, store)
    requires o'.Match? ==> Live(o'.collected, o'.store)
    requires Replays(a, x, left, collected, store, o) && Replays(b, y, o.left, o.collected, o.store, o')
    ensures Replays(a + b, x + y, left, collected, store, o')
  {
    FrameKeepsParsed(left, collected, store, o);
    hide Framed, Parsed, Replay;
    ReplayConcat(a, b, left, Names(collected, store), store);
    ReplaySame(b, o.left, Names(o.collected, o.store), store, o.store);
  }

  /** Objects are taken, and names collected, as leaves of the tree do it one after the other in
      one of the ways the pattern allows; a match that fails takes nothing and collects nothing,
      and neither do the attempts that were given up on the way. */
  lemma {:induction false} MatchReplays(p: Pattern, left: seq<Id>, collected: seq<Id>, store: Store)
    returns (steps: seq<TreeLeaf>)
    requires Parsed(left, collected, store) && MatchTree(p, left, collected, store).Match?
    ensures Replays(steps, LeavesOf(p), left, collected, store, MatchTree(p, left, collected, store))
    ensures if MatchTree(p, left, collected, store).ok then InLanguage(steps, p) else steps == []
    decreases p, 1, 0, 0
  {
    var o := MatchTree(p, left, collected, store);
    steps := [];
    if !o.ok {
      MatchIsClean(p, left, collected, store);
      MatchIsFramed(p, left, collected, store);
      FrameKeepsParsed(left, collected, store, o);
    } else {
      hide MatchLeaf, TakeLeaf, Framed;
      match p
      case Tip(leaf) =>
        steps := [leaf];
        LeafTakes(leaf, left, collected, store);
        assert steps[1..] == [];
        assert Replay(steps, left, Names(collected, store), store) == TakeLeaf(leaf, left, Names(collected, store), store);
      case Branch(Required, cs) => steps := EachReplays(cs, left, collected, store);
      case Branch(OneOrMore, cs) =>
        var n;
        steps, n := RepeatReplays(cs[0], left, collected, store, [], true, 0);
        assert LeavesOfAll(cs) == LeavesOf(cs[0]) by { assert cs[1..] == []; }
      case Branch(Either, cs) => steps := BestReplays(cs, left, collected, store);
      case Branch(_, cs) => steps := AnyReplays(cs, left, collected, store);
    }
  }

  lemma {:induction false} EachReplays(cs: seq<Pattern>, left: seq<Id>, collected: seq<Id>, store: Store)
    returns (steps: seq<TreeLeaf>)
    requires Parsed(left, collected, store) && MatchEach(cs, left, collected, store).Match?
    ensures Replays(steps, LeavesOfAll(cs), left, collected, store, MatchEach(cs, left, collected, store))
    ensures MatchEach(cs, left, collected, store).ok ==> InSequence(steps, cs, false)
    decreases cs, 0, 0, 0
  {
    steps := [];
    if cs != [] {
      steps := MatchReplays(cs[0], left, collected, store);
      var o := MatchTree(cs[0], left, collected, store);
      if o.ok {
        MatchIsFramed(cs[0], left, collected, store);
        FrameKeepsParsed(left, collected, store, o);
        var rest := EachReplays(cs[1..], o.left, o.collected, o.store);
        hide Framed, Parsed, Replays;
        ReplaysThen(steps, rest, LeavesOf(cs[0]), LeavesOfAll(cs[1..]), left, collected, store, o,
                    MatchEach(cs[1..], o.left, o.collected, o.store));
        hide InLanguage, InSequence;
        if MatchEach(cs, left, collected, store).ok {
          SequenceFirst(steps, rest, cs, false);
        }
        steps := steps + rest;
      } else {
        MoreLeaves(steps, cs, left, collected, store, o);
      }
    }
  }

  lemma MoreLeaves(steps: seq<TreeLeaf>, cs: seq<Pattern>, left: seq<Id>, collected: seq<Id>, store: Store, o: Outcome)
    requires Live(left, store) && Live(collected, store) && (o.Match? ==> Live(o.collected, o.store))
    requires cs != [] && Replays(steps, LeavesOf(cs[0]), left, collected, store, o)
    ensures Replays(steps, LeavesOfAll(cs), left, collected, store, o)
  {
    hide Replay;
  }

  lemma {:induction false} AnyReplays(cs: seq<Pattern>, left: seq<Id>, collected: seq<Id>, store: Store)
    returns (steps: seq<TreeLeaf>)
    requires Parsed(left, collected, store) && MatchAny(cs, left, collected, store).Match?
    ensures Replays(steps, LeavesOfAll(cs), left, collected, store, MatchAny(cs, left, collected, store))
    ensures InSequence(steps, cs, true)
    decreases cs, 0, 0, 0
  {
    steps := [];
    if cs != [] {
      steps := MatchReplays(cs[0], left, collected, store);
      var o := MatchTree(cs[0], left, collected, store);
      MatchIsFramed(cs[0], left, collected, store);
      FrameKeepsParsed(left, collected, store, o);
      var rest := AnyReplays(cs[1..], o.left, o.collected, o.store);
      hide Framed, Parsed, Replays;
      ReplaysThen(steps, rest, LeavesOf(cs[0]), LeavesOfAll(cs[1..]), left, collected, store, o,
                  MatchAny(cs[1..], o.left, o.collected, o.store));
      hide InLanguage, InSequence;
      SequenceFirst(steps, rest, cs, true);
      steps := steps + rest;
    }
  }

  lemma {:induction false} BestReplays(cs: seq<Pattern>, left: seq<Id>, collected: seq<Id>, store: Store)
    returns (steps: seq<TreeLeaf>)
    requires Parsed(left, collected, store) && Best(cs, left, collected, store).Match?
    ensures Replays(steps, LeavesOfAll(cs), left, collected, store, Best(cs, left, collected, store))
    ensures Best(cs, left, collected, store).ok ==> InSome(steps, cs)
    decreases cs, 0, 0, 0
  {
    steps := [];
    if cs != [] {
      var o := MatchTree(cs[0], left, collected, store);
      MatchIsFramed(cs[0], left, collected, store);
      FrameKeepsParsed(left, collected, store, o);
      var rest := Best(cs[1..], left, collected, o.store);
      if !o.ok || (rest.ok && |rest.left| < |o.left|) {
        steps := BestReplays(cs[1..], left, collected, o.store);
        hide Framed, Parsed;
        ReplaySame(steps, left, Names(collected, store), store, o.store);
      } else {
        steps := MatchReplays(cs[0], left, collected, store);
        KeptByRest(cs, left, collected, store);
        MoreLeaves(steps, cs, left, collected, store, o);
        hide Framed, Parsed, Replay;
      }
    }
  }

  lemma ReplaysLists(steps: seq<TreeLeaf>, leaves: set<TreeLeaf>, left: seq<Id>, collected: seq<Id>, store: Store,
                     o: Outcome, ok: bool)
    requires Live(left, store) && Live(collected, store) && o.Match? && Live(o.collected, o.store)
    requires Replays(steps, leaves, left, collected, store, o)
    ensures Replays(steps, leaves, left, collected, store, Match(ok, o.left, o.collected, o.store))
  {
    hide Replay;
  }

  lemma RoundThen(child: Pattern, steps: seq<TreeLeaf>, rest: seq<TreeLeaf>, m: nat,
                  left: seq<Id>, collected: seq<Id>, store: Store, o: Outcome, o': Outcome)
    requires Parsed(left, collected, store) && Proper(o, left, store) && Framed(o, left, collected, store)
    requires (o'.Match? ==> Live(o'.collected, o'.store)) && InLanguage(steps, child) && InRounds(rest, child, m)
    requires Replays(steps, LeavesOf(child), left, collected, store, o)
    requires Replays(rest, LeavesOf(child), o.left, o.collected, o.store, o')
    ensures Replays(steps + rest, LeavesOf(child), left, collected, store, o') && InRounds(steps + rest, child, m + 1)
  {
    RoundFirst(steps, rest, child, m);
    ReplaysThen(steps, rest, LeavesOf(child), LeavesOf(child), left, collected, store, o, o');
    assert LeavesOf(child) + LeavesOf(child) == LeavesOf(child);
    hide InLanguage, InRounds, Replays, Framed, Parsed;
  }

  lemma {:induction false} RepeatReplays(child: Pattern, left: seq<Id>, collected: seq<Id>, store: Store,
                                         previous: seq<Id>, first: bool, times: nat)
    returns (steps: seq<TreeLeaf>, n: nat)
    requires Parsed(left, collected, store) && (!first ==> previous == left)
    requires Repeat(child, left, collected, store, previous, first, times).Match?
    ensures Replays(steps, LeavesOf(child), left, collected, store,
                    Repeat(child, left, collected, store, previous, first, times))
    ensures InRounds(steps, child, n) && (Repeat(child, left, collected, store, previous, first, times).ok <==> times + n >= 1)
    decreases child, 2, |left|, if first then 1 else 0
  {
    hide InLanguage, InRounds, MatchTree, Repeat, Replays, Framed, LeavesOf;
    ParsedIsLive(left, collected, store);
    hide Parsed;
    RepeatTurn(child, left, collected, store, previous, first, times);
    steps := MatchReplays(child, left, collected, store);
    var o := MatchTree(child, left, collected, store);
    n := if o.ok then 1 else 0;
    NoRound(child);
    ReplaysLists(steps, LeavesOf(child), left, collected, store, o, true);
    ReplaysLists(steps, LeavesOf(child), left, collected, store, o, false);
    if o.ok {
      OneRound(steps, child);
    }
    if o.ok && (first || o.left != previous) {
      MatchIsFramed(child, left, collected, store);
      FrameKeepsParsed(left, collected, store, o);
      var rest, m := RepeatReplays(child, o.left, o.collected, o.store, o.left, false, times + 1);
      RoundThen(child, steps, rest, m, left, collected, store, o,
                Repeat(child, o.left, o.collected, o.store, o.left, false, times + 1));
      steps, n := steps + rest, m + 1;
    }
  }

  // ----- What the branches achieve ------------------------------------------------------------------

  /** The outcome after i children have been matched in turn, each on what its elders left. */
  function AfterTurns(cs: seq<Pattern>, i: nat, left: seq<Id>, collected: seq<Id>, store: Store): (o: Outcome)
    requires i <= |cs| && Live(left, store) && Live(collected, store)
    ensures o.Match? ==> Live(o.left, o.store) && Live(o.collected, o.store)
    decreases i
  {
    if i == 0 then Match(true, left, collected, store)
    else
      var o := AfterTurns(cs, i - 1, left, collected, store);
      if o.Raises? then Raises else MatchTree(cs[i - 1], o.left, o.collected, o.store)
  }

  lemma {:induction false} FirstTurn(cs: seq<Pattern>, i: nat, left: seq<Id>, collected: seq<Id>, store: Store)
    requires 1 <= i <= |cs| && Live(left, store) && Live(collected, store)
    ensures var o := MatchTree(cs[0], left, collected, store);
      AfterTurns(cs, i, left, collected, store)
      == if i == 1 || o.Raises? then o else AfterTurns(cs[1..], i - 1, o.left, o.collected, o.store)
    decreases i
  {
    hide MatchTree;
    if i > 1 {
      FirstTurn(cs, i - 1, left, collected, store);
    } else {
      assert AfterTurns(cs, 0, left, collected, store) == Match(true, left, collected, store);
    }
  }

  /** The first i children matched, each on what its elders left. */
  predicate AllMatch(cs: seq<Pattern>, i: nat, left: seq<Id>, collected: seq<Id>, store: Store)
    requires i <= |cs| && Live(left, store) && Live(collected, store)
  {
    forall j :: 0 <= j <= i ==>
      var o := AfterTurns(cs, j, left, collected, store); o.Match? && o.ok
  }

  lemma EarlierMatch(cs: seq<Pattern>, i: nat, left: seq<Id>, collected: seq<Id>, store: Store)
    requires cs != [] && 1 <= i <= |cs| && Live(left, store) && Live(collected, store)
    requires AllMatch(cs, i, left, collected, store)
    ensures var o := MatchTree(cs[0], left, collected, store);
      o.Match? && o.ok && AllMatch(cs[1..], i - 1, o.left, o.collected, o.store)
  {
    hide MatchTree, AfterTurns;
    var o := MatchTree(cs[0], left, collected, store);
    TurnMatches(cs, 1, i, left, collected, store);
    FirstTurn(cs, 1, left, collected, store);
    NoTurn(cs[1..], o);
    forall j | 1 <= j <= i - 1
      ensures var p := AfterTurns(cs[1..], j, o.left, o.collected, o.store); p.Match? && p.ok
    {
      TurnMatches(cs, j + 1, i, left, collected, store);
      FirstTurn(cs, j + 1, left, collected, store);
    }
  }

  lemma NoTurn(cs: seq<Pattern>, o: Outcome)
    requires o.Match? && Live(o.left, o.store) && Live(o.collected, o.store)
    ensures AfterTurns(cs, 0, o.left, o.collected, o.store) == Match(true, o.left, o.collected, o.store)
  {
  }

  lemma TurnMatches(cs: seq<Pattern>, j: nat, i: nat, left: seq<Id>, collected: seq<Id>, store: Store)
    requires j <= i <= |cs| && Live(left, store) && Live(collected, store) && AllMatch(cs, i, left, collected, store)
    ensures var o := AfterTurns(cs, j, left, collected, store); o.Match? && o.ok
  {
    hide AfterTurns;
  }

  /** Required matches if and only if all its children match in turn, and then does what they
      do; the first child that does not match, or raises, ends it. */
  lemma {:induction false} RequiredIsAll(cs: seq<Pattern>, i: nat, left: seq<Id>, collected: seq<Id>, store: Store)
    requires i <= |cs| && Live(left, store) && Live(collected, store) && AllMatch(cs, i, left, collected, store)
    ensures i == |cs| ==> MatchEach(cs, left, collected, store) == AfterTurns(cs, i, left, collected, store)
    ensures i < |cs| && EndsAt(cs, i + 1, left, collected, store) ==>
      MatchEach(cs, left, collected, store) == AfterTurns(cs, i + 1, left, collected, store)
    decreases i
  {
    if cs == [] {
      NoTurn(cs, Match(true, left, collected, store));
    } else {
      EachStep(cs, left, collected, store);
      hide MatchTree, AllMatch, AfterTurns, MatchEach;
      var o := MatchTree(cs[0], left, collected, store);
      FirstTurn(cs, if i < |cs| then i + 1 else i, left, collected, store);
      if i > 0 {
        EarlierMatch(cs, i, left, collected, store);
        NoTurn(cs[1..], o);
        RequiredIsAll(cs[1..], i - 1, o.left, o.collected, o.store);
      }
    }
  }

  lemma EachStep(cs: seq<Pattern>, left: seq<Id>, collected: seq<Id>, store: Store)
    requires cs != [] && Live(left, store) && Live(collected, store)
    ensures var o := MatchTree(cs[0], left, collected, store);
      MatchEach(cs, left, collected, store)
      == if o.Raises? || !o.ok then o else MatchEach(cs[1..], o.left, o.collected, o.store)
    ensures MatchEach([], left, collected, store) == Match(true, left, collected, store)
  {
    hide MatchTree;
  }

  /** The i-th child does not match where its turn comes, or raises. */
  predicate EndsAt(cs: seq<Pattern>, i: nat, left: seq<Id>, collected: seq<Id>, store: Store)
    requires i <= |cs| && Live(left, store) && Live(collected, store)
  {
    var o := AfterTurns(cs, i, left, collected, store); o.Raises? || !o.ok
  }

  /** Optional tries every child on what its elders left, takes what each one takes, and
      matches whatever they do. */
  lemma {:induction false} OptionalTakesAll(cs: seq<Pattern>, left: seq<Id>, collected: seq<Id>, store: Store)
    requires Live(left, store) && Live(collected, store)
    ensures var o := AfterTurns(cs, |cs|, left, collected, store);
      MatchAny(cs, left, collected, store) == if o.Raises? then Raises else o.(ok := true)
    decreases |cs|
  {
    if cs == [] {
      NoTurn(cs, Match(true, left, collected, store));
    } else {
      hide MatchTree, AfterTurns;
      var o := MatchTree(cs[0], left, collected, store);
      FirstTurn(cs, |cs|, left, collected, store);
      if o.Match? {
        OptionalTakesAll(cs[1..], o.left, o.collected, o.store);
        NoTurn(cs[1..], o);
      }
    }
  }

  /** The store the i-th child of an Either starts from: its elder siblings have been tried. */
  function StoreAt(cs: seq<Pattern>, i: nat, left: seq<Id>, collected: seq<Id>, store: Store): (s: Store)
    requires i <= |cs| && Live(left, store) && Live(collected, store)
    ensures |store| <= |s|
    decreases i
  {
    if i == 0 then store
    else
      var o := MatchTree(cs[0], left, collected, store);
      if o.Raises? then store else StoreAt(cs[1..], i - 1, left, collected, o.store)
  }

  /** The i-th child tried on the lists of the Either. */
  function ChildOutcome(cs: seq<Pattern>, i: nat, left: seq<Id>, collected: seq<Id>, store: Store): Outcome
    requires i < |cs| && Live(left, store) && Live(collected, store)
  {
    MatchTree(cs[i], left, collected, StoreAt(cs, i, left, collected, store))
  }

  /** Either tries every child, on the same lists; the lists it returns are a child's, no other
      matching child leaves less, and it fails only if every child does.  The store it leaves
      is the one all its children together have written. */
  lemma {:induction false} EitherIsShortest(cs: seq<Pattern>, left: seq<Id>, collected: seq<Id>, store: Store)
    requires Live(left, store) && Live(collected, store) && Best(cs, left, collected, store).Match?
    ensures var o := Best(cs, left, collected, store);
      && o.store == StoreAt(cs, |cs|, left, collected, store)
      && (forall i :: 0 <= i < |cs| ==> ChildOutcome(cs, i, left, collected, store).Match?)
      && (forall i :: 0 <= i < |cs| ==>
            var c := ChildOutcome(cs, i, left, collected, store); c.ok ==> o.ok && |o.left| <= |c.left|)
      && (o.ok ==> exists i :: 0 <= i < |cs| && (var c := ChildOutcome(cs, i, left, collected, store);
            c.ok && c.left == o.left && c.collected == o.collected))
    decreases |cs|
  {
    if cs != [] {
      var first := MatchTree(cs[0], left, collected, store);
      EitherIsShortest(cs[1..], left, collected, first.store);
      hide MatchTree;
      forall i | 0 <= i < |cs|
        ensures ChildOutcome(cs, i, left, collected, store)
             == if i == 0 then first else ChildOutcome(cs[1..], i - 1, left, collected, first.store)
      {
      }
      var o, rest := Best(cs, left, collected, store), Best(cs[1..], left, collected, first.store);
      if o.ok && !(first.ok && o.left == first.left && o.collected == first.collected) {
        var i :| 0 <= i < |cs[1..]| && (var c := ChildOutcome(cs[1..], i, left, collected, first.store);
                   c.ok && c.left == rest.left && c.collected == rest.collected);
        assert ChildOutcome(cs, i + 1, left, collected, store).left == o.left;
      } else if o.ok {
        assert ChildOutcome(cs, 0, left, collected, store).left == o.left;
      }
    }
  }

  /** OneOrMore stops only where one more match of its child would take and collect nothing,
      whatever it still writes. */
  lemma {:induction false} RepeatIsExhaustive(child: Pattern, left: seq<Id>, collected: seq<Id>, store: Store,
                                              previous: seq<Id>, first: bool, times: nat)
    requires Parsed(left, collected, store) && (!first ==> previous == left)
    requires Repeat(child, left, collected, store, previous, first, times).Match?
    ensures var o := Repeat(child, left, collected, store, previous, first, times);
      var again := MatchTree(child, o.left, o.collected, o.store);
      again.Match? ==> again.left == o.left && again.collected == o.collected
    decreases child, 2, |left|, if first then 1 else 0
  {
    MatchIsClean(child, left, collected, store);
    MatchIsFramed(child, left, collected, store);
    var o := MatchTree(child, left, collected, store);
    FrameKeepsParsed(left, collected, store, o);
    if !first {
      SameView(previous, o.left, o.store);
    }
    if o.ok && (first || o.left != previous) {
      RepeatIsExhaustive(child, o.left, o.collected, o.store, o.left, false, times + 1);
    } else {
      ListsDecide(child, left, collected, store, collected, o.store);
      MatchIsClean(child, o.left, o.collected, o.store);
    }
  }

  lemma OneOrMoreNeedsOne(child: Pattern, left: seq<Id>, collected: seq<Id>, store: Store)
    requires Live(left, store) && Live(collected, store)
    requires MatchTree(Branch(OneOrMore, [child]), left, collected, store).Match?
    ensures var first := MatchTree(child, left, collected, store);
      first.Match? && (MatchTree(Branch(OneOrMore, [child]), left, collected, store).ok <==> first.ok)
  {
    OneOrMoreIsRepeat(child, left, collected, store);
    hide MatchTree, Repeat, View;
    RepeatTurn(child, left, collected, store, [], true, 0);
    var o := MatchTree(child, left, collected, store);
    if o.Match? && o.ok {
      RepeatCounts(child, o.left, o.collected, o.store, o.left, false, 1);
    }
  }

  lemma {:induction false} RepeatCounts(child: Pattern, left: seq<Id>, collected: seq<Id>, store: Store,
                                        previous: seq<Id>, first: bool, times: nat)
    requires Live(left, store) && Live(collected, store)
    requires (!first ==> previous == left) && times >= 1
    ensures var o := Repeat(child, left, collected, store, previous, first, times); o.Match? ==> o.ok
    decreases child, 2, |left|, if first then 1 else 0
  {
    hide MatchTree, Repeat, View;
    RepeatTurn(child, left, collected, store, previous, first, times);
    var o := MatchTree(child, left, collected, store);
    if o.Match? && o.ok && (first || o.left != previous) {
      RepeatCounts(child, o.left, o.collected, o.store, o.left, false, times + 1);
    }
  }

  // ----- The matchers in the code's own form -----------------------------------------------------------

  /** The objects of one match of a command line, written in place. */
  class Objects {
    var store: Store

    constructor (store: Store)
      ensures this.store == store
    {
      this.store := store;
    }

    /** A new Argument or Command. */
    method New(x: Leaf) returns (id: Id)
      modifies this
      ensures id == |old(store)| && store == old(store) + [x]
    {
      id := |store|;
      store := store + [x];
    }

    method SetValue(id: Id, v: Value)
      requires id < |store|
      modifies this
      ensures store == Write(old(store), id, v)
    {
      store := store[id := store[id].(value := v)];
    }
  }

  /** What match returns or raises; what it wrote is in the objects. */
  datatype Returned = Raised | Returned(ok: bool, left: seq<Id>, collected: seq<Id>)

  /** A call has done what the outcome says, to its lists and to the objects. */
  ghost predicate Did(r: Returned, objects: Objects, o: Outcome)
    reads objects
  {
    match o
    case Raises => r == Raised
    case Match(ok, left, collected, store) => r == Returned(ok, left, collected) && objects.store == store
  }

  /** match of a leaf: the two assignments to value are the only ones. */
  method RunLeaf(self: TreeLeaf, left: seq<Id>, collected: seq<Id>, objects: Objects) returns (r: Returned)
    requires Live(left, objects.store) && Live(collected, objects.store)
    modifies objects
    ensures Did(r, objects, MatchLeaf(self, left, collected, old(objects.store)))
  {
    hide SingleMatch, FirstNamed, Plus, Increment;
    var found := SingleMatch(self, View(left, objects.store));
    if found.NotFound? {
      return Returned(false, left, collected);
    }
    var rest := left[..found.pos] + left[found.pos + 1..];
    var id := left[found.pos];
    if !self.Option? {
      id := objects.New(found.leaf);
    }
    if Accumulates(self) {
      var increment := Increment(self, objects.store[id].value);
      var same := FirstNamed(View(collected, objects.store), self.name);
      if same == |collected| {
        objects.SetValue(id, increment);
        return Returned(true, rest, collected + [id]);
      }
      var sum := Plus(objects.store[collected[same]].value, increment);
      if sum.TypeError? {
        return Raised;
      }
      objects.SetValue(collected[same], sum.value);
      return Returned(true, rest, collected);
    }
    r := Returned(true, rest, collected + [id]);
  }

  method Run(p: Pattern, left: seq<Id>, collected: seq<Id>, objects: Objects) returns (r: Returned)
    requires Live(left, objects.store) && Live(collected, objects.store)
    modifies objects
    ensures Did(r, objects, MatchTree(p, left, collected, old(objects.store)))
    decreases p, 0
  {
    hide MatchLeaf;
    match p {
      case Tip(leaf) => r := RunLeaf(leaf, left, collected, objects);
      case Branch(Required, cs) => r := RunRequired(cs, left, collected, objects);
      case Branch(OneOrMore, cs) =>
        if |cs| != 1 {
          return Raised;
        }
        r := RunOneOrMore(cs[0], left, collected, objects);
        assert cs == [cs[0]];
      case Branch(Either, cs) => r := RunEither(cs, left, collected, objects);
      case Branch(_, cs) => r := RunOptional(cs, left, collected, objects);
    }
  }

  method RunRequired(cs: seq<Pattern>, left: seq<Id>, collected: seq<Id>, objects: Objects) returns (r: Returned)
    requires Live(left, objects.store) && Live(collected, objects.store)
    modifies objects
    ensures Did(r, objects, MatchTree(Branch(Required, cs), left, collected, old(objects.store)))
    decreases cs, 0
  {
    ghost var start := objects.store;
    var l, c := left, collected;
    var i := 0;
    while i < |cs|
      invariant i <= |cs| && Live(l, objects.store) && Live(c, objects.store) && |start| <= |objects.store|
      invariant MatchEach(cs, left, collected, start) == MatchEach(cs[i..], l, c, objects.store)
    {
      assert cs[i..][0] == cs[i] && cs[i..][1..] == cs[i + 1..];
      var m := Run(cs[i], l, c, objects);
      if m.Raised? {
        return Raised;
      }
      l, c := m.left, m.collected;
      if !m.ok {
        return Returned(false, left, collected);
      }
      i := i + 1;
    }
    r := Returned(true, l, c);
  }

  method RunOptional(cs: seq<Pattern>, left: seq<Id>, collected: seq<Id>, objects: Objects) returns (r: Returned)
    requires Live(left, objects.store) && Live(collected, objects.store)
    modifies objects
    ensures Did(r, objects, MatchAny(cs, left, collected, old(objects.store)))
    decreases cs, 0
  {
    ghost var start := objects.store;
    var l, c := left, collected;
    var i := 0;
    while i < |cs|
      invariant i <= |cs| && Live(l, objects.store) && Live(c, objects.store)
      invariant MatchAny(cs, left, collected, start) == MatchAny(cs[i..], l, c, objects.store)
    {
      assert cs[i..][0] == cs[i] && cs[i..][1..] == cs[i + 1..];
      var m := Run(cs[i], l, c, objects);
      if m.Raised? {
        return Raised;
      }
      l, c := m.left, m.collected;
      i := i + 1;
    }
    r := Returned(true, l, c);
  }

  lemma OneOrMoreIsRepeat(child: Pattern, left: seq<Id>, collected: seq<Id>, store: Store)
    requires Live(left, store) && Live(collected, store)
    ensures MatchTree(Branch(OneOrMore, [child]), left, collected, store) ==
      var o := Repeat(child, left, collected, store, [], true, 0);
      if o.Match? && !o.ok then Match(false, left, collected, o.store) else o
  {
  }

  method RunOneOrMore(child: Pattern, left: seq<Id>, collected: seq<Id>, objects: Objects) returns (r: Returned)
    requires Live(left, objects.store) && Live(collected, objects.store)
    modifies objects
    ensures Did(r, objects, MatchTree(Branch(OneOrMore, [child]), left, collected, old(objects.store)))
    decreases child, 1
  {
    ghost var start := objects.store;
    OneOrMoreIsRepeat(child, left, collected, start);
    hide MatchTree;
    var l, c := left, collected;
    var previous, first := [], true;
    var times := 0;
    while true
      invariant Live(l, objects.store) && Live(c, objects.store) && (!first ==> previous == l)
      invariant |start| <= |objects.store|
      invariant Repeat(child, left, collected, start, [], true, 0)
             == Repeat(child, l, c, objects.store, previous, first, times)
      decreases |l|, if first then 1 else 0
    {
      var m := Run(child, l, c, objects);
      if m.Raised? {
        return Raised;
      }
      l, c := m.left, m.collected;
      if m.ok {
        times := times + 1;
      }
      if !first && View(previous, objects.store) == View(l, objects.store) {
        break;
      }
      previous, first := l, false;
      if !m.ok {
        break;
      }
    }
    if times >= 1 {
      return Returned(true, l, c);
    }
    r := Returned(false, left, collected);
  }

  // ----- Either: outcomes collected, then the first shortest ----------------------------------------------

  /** The lists of an outcome that matched. */
  datatype Lists = Lists(left: seq<Id>, collected: seq<Id>)

  /** The outcomes Either collects from the children that match. */
  function Matching(cs: seq<Pattern>, left: seq<Id>, collected: seq<Id>, store: Store): seq<Lists>
    requires Live(left, store) && Live(collected, store)
  {
    if cs == [] then []
    else
      var o := MatchTree(cs[0], left, collected, store);
      if o.Raises? then []
      else (if o.ok then [Lists(o.left, o.collected)] else []) + Matching(cs[1..], left, collected, o.store)
  }

  predicate SomeRaises(cs: seq<Pattern>, left: seq<Id>, collected: seq<Id>, store: Store)
    requires Live(left, store) && Live(collected, store)
  {
    cs != [] &&
      var o := MatchTree(cs[0], left, collected, store);
      o.Raises? || SomeRaises(cs[1..], left, collected, o.store)
  }

  /** Python's min: the first of the shortest. */
  function Shortest(outcomes: seq<Lists>): Lists
    requires outcomes != []
  {
    if |outcomes| == 1 then outcomes[0]
    else
      var rest := Shortest(outcomes[1..]);
      if |rest.left| < |outcomes[0].left| then rest else outcomes[0]
  }

  lemma {:induction false} BestIsShortest(cs: seq<Pattern>, left: seq<Id>, collected: seq<Id>, store: Store)
    requires Live(left, store) && Live(collected, store)
    ensures var o := Best(cs, left, collected, store); var outcomes := Matching(cs, left, collected, store);
      && (o.Raises? <==> SomeRaises(cs, left, collected, store))
      && (o.Match? ==>
            && o.store == StoreAt(cs, |cs|, left, collected, store)
            && (o.ok <==> outcomes != [])
            && Lists(o.left, o.collected) == if outcomes == [] then Lists(left, collected) else Shortest(outcomes))
    decreases |cs|
  {
    if cs != [] {
      var o := MatchTree(cs[0], left, collected, store);
      hide MatchTree;
      if o.Match? {
        BestIsShortest(cs[1..], left, collected, o.store);
        var rest := Matching(cs[1..], left, collected, o.store);
        if o.ok {
          assert Matching(cs, left, collected, store)[1..] == rest;
        } else {
          assert Matching(cs, left, collected, store) == rest;
          BestFailsClean(cs[1..], left, collected, o.store);
        }
      }
    }
  }

  lemma BestFailsClean(cs: seq<Pattern>, left: seq<Id>, collected: seq<Id>, store: Store)
    requires Live(left, store) && Live(collected, store)
    ensures Clean(Best(cs, left, collected, store), left, collected)
  {
    BestIsClean(cs, left, collected, store);
  }

  /** It leaves least, and every one before it leaves more. */
  lemma {:induction false} ShortestIsFirst(outcomes: seq<Lists>) returns (i: nat)
    requires outcomes != []
    ensures i < |outcomes| && Shortest(outcomes) == outcomes[i]
    ensures forall j :: 0 <= j < |outcomes| ==> |outcomes[i].left| <= |outcomes[j].left|
    ensures forall j :: 0 <= j < i ==> |outcomes[i].left| < |outcomes[j].left|
  {
    i := 0;
    if |outcomes| > 1 {
      var k := ShortestIsFirst(outcomes[1..]);
      if |outcomes[1..][k].left| < |outcomes[0].left| {
        i := k + 1;
      }
      assert forall j :: 1 <= j < |outcomes| ==> outcomes[j] == outcomes[1..][j - 1];
    }
  }

  method MinByLeft(outcomes: seq<Lists>) returns (best: Lists)
    requires outcomes != []
    ensures best == Shortest(outcomes)
  {
    best := outcomes[0];
    var i := 1;
    assert [best] + outcomes[1..] == outcomes;
    while i < |outcomes|
      invariant 1 <= i <= |outcomes| && Shortest([best] + outcomes[i..]) == Shortest(outcomes)
    {
      assert [best] + outcomes[i..] == [best, outcomes[i]] + outcomes[i + 1..];
      ShortestStep(best, outcomes[i], outcomes[i + 1..]);
      if |outcomes[i].left| < |best.left| {
        best := outcomes[i];
      }
      i := i + 1;
    }
  }

  lemma ShortestStep(a: Lists, b: Lists, rest: seq<Lists>)
    ensures Shortest([a, b] + rest) == Shortest([if |b.left| < |a.left| then b else a] + rest)
  {
    assert ([a, b] + rest)[1..] == [b] + rest;
    ShortestOfCons(a, rest);
    ShortestOfCons(b, rest);
  }

  lemma ShortestOfCons(a: Lists, rest: seq<Lists>)
    ensures Shortest([a] + rest) ==
      if rest == [] then a else if |Shortest(rest).left| < |a.left| then Shortest(rest) else a
  {
    assert ([a] + rest)[1..] == rest;
  }

  /** The outcomes collected after i children, none of which has raised, and the store by then. */
  ghost predicate Collected(cs: seq<Pattern>, i: nat, left: seq<Id>, collected: seq<Id>, start: Store,
                            outcomes: seq<Lists>, store: Store) {
    && i <= |cs| && Live(left, start) && Live(collected, start) && |start| <= |store|
    && SomeRaises(cs, left, collected, start) == SomeRaises(cs[i..], left, collected, store)
    && Matching(cs, left, collected, start) == outcomes + Matching(cs[i..], left, collected, store)
    && StoreAt(cs, |cs|, left, collected, start) == StoreAt(cs[i..], |cs| - i, left, collected, store)
  }

  lemma NothingCollected(cs: seq<Pattern>, left: seq<Id>, collected: seq<Id>, start: Store)
    requires Live(left, start) && Live(collected, start)
    ensures Collected(cs, 0, left, collected, start, [], start)
  {
    assert cs[0..] == cs;
    assert [] + Matching(cs, left, collected, start) == Matching(cs, left, collected, start);
    hide MatchTree, SomeRaises, Matching, StoreAt;
  }

  lemma CollectedStep(cs: seq<Pattern>, i: nat, left: seq<Id>, collected: seq<Id>, start: Store,
                      outcomes: seq<Lists>, store: Store)
    requires Collected(cs, i, left, collected, start, outcomes, store) && i < |cs|
    ensures var o := MatchTree(cs[i], left, collected, store);
      if o.Raises? then SomeRaises(cs, left, collected, start)
      else Collected(cs, i + 1, left, collected, start,
                     if o.ok then outcomes + [Lists(o.left, o.collected)] else outcomes, o.store)
  {
    hide MatchTree;
    assert cs[i..][0] == cs[i] && cs[i..][1..] == cs[i + 1..];
  }

  lemma AllCollected(cs: seq<Pattern>, left: seq<Id>, collected: seq<Id>, start: Store, outcomes: seq<Lists>, store: Store)
    requires Collected(cs, |cs|, left, collected, start, outcomes, store)
    ensures !SomeRaises(cs, left, collected, start) && outcomes == Matching(cs, left, collected, start)
    ensures store == StoreAt(cs, |cs|, left, collected, start)
  {
    assert cs[|cs|..] == [];
    assert outcomes + [] == outcomes;
  }

  /** Collects the outcomes of the children that match, then takes the first shortest. */
  method RunEither(cs: seq<Pattern>, left: seq<Id>, collected: seq<Id>, objects: Objects) returns (r: Returned)
    requires Live(left, objects.store) && Live(collected, objects.store)
    modifies objects
    ensures Did(r, objects, Best(cs, left, collected, old(objects.store)))
    decreases cs, 0
  {
    hide MatchTree, Best, Shortest, Collected, SomeRaises, Matching, StoreAt;
    ghost var start := objects.store;
    BestIsShortest(cs, left, collected, start);
    NothingCollected(cs, left, collected, start);
    var outcomes: seq<Lists> := [];
    var i := 0;
    while i < |cs|
      invariant i <= |cs| && Live(left, objects.store) && Live(collected, objects.store)
      invariant Collected(cs, i, left, collected, start, outcomes, objects.store)
    {
      CollectedStep(cs, i, left, collected, start, outcomes, objects.store);
      var m := Run(cs[i], left, collected, objects);
      if m.Raised? {
        return Raised;
      }
      if m.ok {
        outcomes := outcomes + [Lists(m.left, m.collected)];
      }
      i := i + 1;
    }
    AllCollected(cs, left, collected, start, outcomes, objects.store);
    if outcomes != [] {
      var best := MinByLeft(outcomes);
      return Returned(true, best.left, best.collected);
    }
    r := Returned(false, left, collected);
  }
}
