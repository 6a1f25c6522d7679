/**
  What repeated leaves collect: a repeated argument all words of the command line in their
  order, a repeated option the number of its occurrences.
 */
module DocoptCollect {
  import opened DocoptPatterns
  import opened DocoptMatch

  // ----- The words and the options of a command line -------------------------------------------------

  /** The texts of the positional arguments, in their order. */
  function WordsOf(left: seq<Id>, store: Store): seq<string>
    requires Live(left, store)
  {
    if left == [] then []
    else
      var x := store[left[0]];
      (if x.Argument? && x.value.Text? then [x.value.text] else []) + WordsOf(left[1..], store)
  }

  /** The objects that are no positional arguments. */
  function OptionsOf(left: seq<Id>, store: Store): seq<Id>
    requires Live(left, store)
  {
    if left == [] then []
    else (if store[left[0]].Argument? then [] else [left[0]]) + OptionsOf(left[1..], store)
  }

  /** Positional arguments are words. */
  predicate WordsOnly(left: seq<Id>, store: Store)
    requires Live(left, store)
  {
    forall k :: 0 <= k < |left| && store[left[k]].Argument? ==> store[left[k]].value.Text?
  }

  lemma ConsWords(x: Id, tail: seq<Id>, store: Store)
    requires x < |store| && Live([x] + tail, store) && Live(tail, store)
    ensures WordsOf([x] + tail, store)
         == (if store[x].Argument? && store[x].value.Text? then [store[x].value.text] else []) + WordsOf(tail, store)
    ensures OptionsOf([x] + tail, store) == (if store[x].Argument? then [] else [x]) + OptionsOf(tail, store)
  {
    assert ([x] + tail)[1..] == tail;
  }

  /** The list without its k-th object. */
  function Drop(left: seq<Id>, k: nat): seq<Id>
    requires k < |left|
  {
    left[..k] + left[k + 1..]
  }

  lemma DropBehind(left: seq<Id>, k: nat)
    requires 0 < k < |left|
    ensures left == [left[0]] + left[1..] && Drop(left, k) == [left[0]] + Drop(left[1..], k - 1)
  {
  }

  lemma FirstArgumentBehind(left: seq<Id>, store: Store)
    requires left != [] && Live(left, store)
    ensures FirstArgument(View(left, store))
         == if store[left[0]].Argument? then 0 else 1 + FirstArgument(View(left[1..], store))
  {
    assert View(left, store)[1..] == View(left[1..], store);
  }

  /** The first word is at k, and the others are those of the list without it. */
  ghost predicate WordAt(left: seq<Id>, store: Store, k: nat)
    requires Live(left, store)
  {
    if k == |left| then WordsOf(left, store) == [] && OptionsOf(left, store) == left
    else
      && k < |left| && store[left[k]].value.Text? && Live(Drop(left, k), store)
      && WordsOf(left, store) == [store[left[k]].value.text] + WordsOf(Drop(left, k), store)
      && OptionsOf(left, store) == OptionsOf(Drop(left, k), store)
  }

  lemma NoWord(left: seq<Id>, store: Store)
    requires left == []
    ensures FirstArgument(View(left, store)) == 0 && WordAt(left, store, 0)
  {
  }

  lemma WordAtOnce(left: seq<Id>, store: Store)
    requires left != [] && Live(left, store) && store[left[0]].Argument? && store[left[0]].value.Text?
    ensures WordAt(left, store, 0)
  {
    assert Drop(left, 0) == left[1..];
  }

  lemma WordAtLater(left: seq<Id>, store: Store, k: nat)
    requires left != [] && Live(left, store) && !store[left[0]].Argument? && WordAt(left[1..], store, k)
    ensures WordAt(left, store, k + 1)
  {
    hide WordsOf, OptionsOf;
    assert left == [left[0]] + left[1..];
    ConsWords(left[0], left[1..], store);
    if k < |left[1..]| {
      DropBehind(left, k + 1);
      ConsWords(left[0], Drop(left[1..], k), store);
    }
  }

  lemma {:induction false} FirstWord(left: seq<Id>, store: Store)
    requires Live(left, store) && WordsOnly(left, store)
    ensures WordAt(left, store, FirstArgument(View(left, store)))
  {
    hide WordAt, FirstArgument;
    if left == [] {
      NoWord(left, store);
    } else {
      FirstArgumentBehind(left, store);
      if store[left[0]].Argument? {
        WordAtOnce(left, store);
      } else {
        FirstWord(left[1..], store);
        WordAtLater(left, store, FirstArgument(View(left[1..], store)));
      }
    }
  }

  lemma {:induction false} SameWords(left: seq<Id>, store: Store, store': Store)
    requires Live(left, store) && Live(left, store') && forall k :: 0 <= k < |left| ==> store'[left[k]] == store[left[k]]
    ensures WordsOf(left, store') == WordsOf(left, store) && OptionsOf(left, store') == OptionsOf(left, store)
  {
    if left != [] {
      assert forall k :: 0 <= k < |left[1..]| ==> left[1..][k] == left[k + 1];
      SameWords(left[1..], store, store');
    }
  }

  // ----- One turn ------------------------------------------------------------------------------------

  /** Nothing of this name has been collected yet. */
  predicate NewName(name: string, collected: seq<Id>, store: Store)
    requires Live(collected, store)
  {
    forall k :: 0 <= k < |collected| ==> store[collected[k]].name != name
  }

  lemma FirstNamedIs(v: seq<Leaf>, name: string, k: nat)
    requires k <= |v| && (forall i :: 0 <= i < k ==> v[i].name != name) && (k < |v| ==> v[k].name == name)
    ensures FirstNamed(v, name) == k
  {
  }

  /** The first word makes a new object with a list of its own. */
  lemma FirstWordIsTaken(self: TreeLeaf, left: seq<Id>, collected: seq<Id>, store: Store)
    requires self.Argument? && self.value.Many? && Live(left, store) && Live(collected, store)
    requires WordsOnly(left, store) && NewName(self.name, collected, store)
    ensures var k := FirstArgument(View(left, store)); var o := MatchLeaf(self, left, collected, store);
      if k == |left| then o == Match(false, left, collected, store)
      else o == Match(true, Drop(left, k), collected + [|store|],
                      store + [Argument(self.name, Many([store[left[k]].value.text]))])
  {
    var k := FirstArgument(View(left, store));
    if k < |left| {
      var x := Argument(self.name, store[left[k]].value);
      FirstNamedIs(View(collected, store + [x]), self.name, |collected|);
    }
  }

  /** A word has gone to the end of the list that object id holds. */
  ghost predicate TookWord(left: seq<Id>, k: nat, collected: seq<Id>, id: Id, store: Store, o: Outcome)
    requires Live(left, store) && id < |store| && k < |left|
  {
    && store[id].value.Many? && store[left[k]].value.Text?
    && o.Match? && o.ok && o.left == Drop(left, k) && o.collected == collected + [id]
    && OnlyAt(id, store, o.store)
    && o.store[id] == store[id].(value := Many(store[id].value.items + [store[left[k]].value.text]))
  }

  lemma NextWordIsTaken(self: TreeLeaf, left: seq<Id>, collected: seq<Id>, id: Id, store: Store)
    requires self.Argument? && self.value.Many? && Live(left, store) && Live(collected, store) && id < |store|
    requires WordsOnly(left, store) && NewName(self.name, collected, store)
    requires store[id].name == self.name && store[id].value.Many?
    ensures var k := FirstArgument(View(left, store)); var o := MatchLeaf(self, left, collected + [id], store);
      if k == |left| then o == Match(false, left, collected + [id], store) else TookWord(left, k, collected, id, store, o)
  {
    var k := FirstArgument(View(left, store));
    if k < |left| {
      var x := Argument(self.name, store[left[k]].value);
      FirstNamedIs(View(collected + [id], store + [x]), self.name, |collected|);
    }
  }

  lemma OneTurn(leaf: TreeLeaf, left: seq<Id>, c: seq<Id>, s: Store, previous: seq<Id>, first: bool, times: nat)
    requires Live(left, s) && Live(c, s) && (!first ==> previous == left)
    requires var o := MatchLeaf(leaf, left, c, s); o.Match? && (o.ok ==> |o.left| < |left|)
    ensures var o := MatchLeaf(leaf, left, c, s);
      Repeat(Tip(leaf), left, c, s, previous, first, times)
      == if o.ok then Repeat(Tip(leaf), o.left, o.collected, o.store, o.left, false, times + 1)
         else Match(times >= 1, o.left, o.collected, o.store)
  {
    hide MatchLeaf;
    assert MatchTree(Tip(leaf), left, c, s) == MatchLeaf(leaf, left, c, s);
    RepeatTurn(Tip(leaf), left, c, s, previous, first, times);
  }

  // ----- Repeated arguments --------------------------------------------------------------------------

  /** From store to store' only the object id has changed, of those there were. */
  ghost predicate OnlyAt(id: Id, store: Store, store': Store) {
    |store| <= |store'| && forall i :: 0 <= i < |store| && i != id ==> store'[i] == store[i]
  }

  /** All words have gone to the end of the list that object id holds, and the options are left. */
  ghost predicate TookWords(left: seq<Id>, collected: seq<Id>, id: Id, store: Store, o: Outcome)
    requires Live(left, store) && id < |store|
  {
    && store[id].value.Many?
    && o.Match? && o.ok && o.left == OptionsOf(left, store) && o.collected == collected + [id]
    && OnlyAt(id, store, o.store)
    && o.store[id] == store[id].(value := Many(store[id].value.items + WordsOf(left, store)))
  }

  /** What stays the same when the object id is written to. */
  lemma OthersStay(self: TreeLeaf, left: seq<Id>, collected: seq<Id>, id: Id, store: Store, store': Store)
    requires Live(left, store) && Live(collected, store) && id < |store| && OnlyAt(id, store, store')
    requires id !in left && id !in collected && WordsOnly(left, store) && NewName(self.name, collected, store)
    ensures Live(left, store') && Live(collected, store') && WordsOnly(left, store') && NewName(self.name, collected, store')
    ensures WordsOf(left, store') == WordsOf(left, store) && OptionsOf(left, store') == OptionsOf(left, store)
  {
    assert forall i :: 0 <= i < |left| ==> left[i] in left;
    assert forall i :: 0 <= i < |collected| ==> collected[i] in collected;
    SameWords(left, store, store');
  }

  lemma DropFromWords(left: seq<Id>, k: nat, store: Store)
    requires k < |left| && Live(left, store) && WordsOnly(left, store)
    ensures Live(Drop(left, k), store) && WordsOnly(Drop(left, k), store) && forall i :: i in Drop(left, k) ==> i in left
  {
    var rest := Drop(left, k);
    assert forall i :: 0 <= i < |rest| ==> rest[i] == left[if i < k then i else i + 1];
  }

  lemma WordThenWords(left: seq<Id>, k: nat, collected: seq<Id>, id: Id, store: Store, o: Outcome, o': Outcome)
    requires Live(left, store) && id < |store| && k < |left| && TookWord(left, k, collected, id, store, o)
    requires Live(o.left, store) && Live(o.left, o.store) && id < |o.store| && TookWords(o.left, collected, id, o.store, o')
    requires WordsOf(left, store) == [store[left[k]].value.text] + WordsOf(o.left, o.store)
    requires OptionsOf(left, store) == OptionsOf(o.left, o.store)
    ensures TookWords(left, collected, id, store, o')
  {
    hide WordsOf, OptionsOf, Drop;
    Regroup(store[id].value.items, store[left[k]].value.text, WordsOf(o.left, o.store));
  }

  lemma Regroup(items: seq<string>, word: string, rest: seq<string>)
    ensures items + [word] + rest == items + ([word] + rest)
  {
  }

  lemma TookNone(left: seq<Id>, collected: seq<Id>, id: Id, store: Store)
    requires Live(left, store) && id < |store| && store[id].value.Many?
    requires WordsOf(left, store) == [] && OptionsOf(left, store) == left
    ensures TookWords(left, collected, id, store, Match(true, left, collected + [id], store))
  {
    assert store[id].value.items + [] == store[id].value.items;
  }

  lemma {:induction false} MoreWords(self: TreeLeaf, left: seq<Id>, collected: seq<Id>, id: Id, store: Store, times: nat)
    requires self.Argument? && self.value.Many? && Live(left, store) && Live(collected, store) && id < |store| && times >= 1
    requires id !in left && id !in collected && WordsOnly(left, store) && NewName(self.name, collected, store)
    requires store[id].name == self.name && store[id].value.Many?
    ensures TookWords(left, collected, id, store, Repeat(Tip(self), left, collected + [id], store, left, false, times))
    decreases |left|
  {
    hide MatchLeaf, FirstArgument, Repeat, WordsOf, OptionsOf, WordsOnly, NewName, SingleMatch;
    var k := FirstArgument(View(left, store));
    FirstWord(left, store);
    NextWordIsTaken(self, left, collected, id, store);
    var o := MatchLeaf(self, left, collected + [id], store);
    OneTurn(self, left, collected + [id], store, left, false, times);
    if k < |left| {
      DropFromWords(left, k, store);
      OthersStay(self, o.left, collected, id, store, o.store);
      MoreWords(self, o.left, collected, id, o.store, times + 1);
      WordThenWords(left, k, collected, id, store, o,
                    Repeat(Tip(self), o.left, collected + [id], o.store, o.left, false, times + 1));
    } else {
      TookNone(left, collected, id, store);
    }
  }

  /** <file>... collects the words of the command line, all of them and in their order, in one
      object of its own, and leaves the options; it matches if and only if there is a word. */
  lemma RepeatedArgument(self: TreeLeaf, left: seq<Id>, collected: seq<Id>, store: Store)
    requires self.Argument? && self.value.Many? && Live(left, store) && Live(collected, store)
    requires WordsOnly(left, store) && NewName(self.name, collected, store)
    ensures var o := MatchTree(Branch(OneOrMore, [Tip(self)]), left, collected, store);
      var words := WordsOf(left, store);
      if words == [] then o == Match(false, left, collected, store)
      else
        && o.Match? && o.ok && o.left == OptionsOf(left, store) && o.collected == collected + [|store|]
        && store < o.store && o.store[|store|] == Argument(self.name, Many(words))
  {
    hide MatchLeaf, FirstArgument, Repeat, MatchTree, WordsOf, OptionsOf, WordsOnly, NewName, SingleMatch;
    var k := FirstArgument(View(left, store));
    FirstWord(left, store);
    OneOrMoreIsRepeat(Tip(self), left, collected, store);
    FirstWordIsTaken(self, left, collected, store);
    var o := MatchLeaf(self, left, collected, store);
    OneTurn(self, left, collected, store, [], true, 0);
    if k < |left| {
      DropFromWords(left, k, store);
      NewObject(self, o.left, collected, store, o.store);
      MoreWords(self, o.left, collected, |store|, o.store, 1);
    }
  }

  lemma NewObject(self: TreeLeaf, left: seq<Id>, collected: seq<Id>, store: Store, store': Store)
    requires Live(left, store) && Live(collected, store) && store < store'
    requires WordsOnly(left, store) && NewName(self.name, collected, store)
    ensures Live(left, store') && Live(collected, store') && WordsOnly(left, store') && NewName(self.name, collected, store')
    ensures WordsOf(left, store') == WordsOf(left, store) && OptionsOf(left, store') == OptionsOf(left, store)
    ensures |store| !in left && |store| !in collected
  {
    SameWords(left, store, store');
  }

  // ----- Repeated options ----------------------------------------------------------------------------

  /** How often the option is given, and what else there is. */
  function Occurrences(name: string, left: seq<Id>, store: Store): nat
    requires Live(left, store)
  {
    if left == [] then 0 else (if store[left[0]].name == name then 1 else 0) + Occurrences(name, left[1..], store)
  }

  function Without(name: string, left: seq<Id>, store: Store): seq<Id>
    requires Live(left, store)
  {
    if left == [] then []
    else (if store[left[0]].name == name then [] else [left[0]]) + Without(name, left[1..], store)
  }

  lemma ConsOccurrences(name: string, x: Id, tail: seq<Id>, store: Store)
    requires x < |store| && Live([x] + tail, store) && Live(tail, store)
    ensures Occurrences(name, [x] + tail, store) == (if store[x].name == name then 1 else 0) + Occurrences(name, tail, store)
    ensures Without(name, [x] + tail, store) == (if store[x].name == name then [] else [x]) + Without(name, tail, store)
  {
    assert ([x] + tail)[1..] == tail;
  }

  lemma {:induction false} FirstOccurrence(name: string, left: seq<Id>, store: Store, k: nat)
    requires Live(left, store) && k == FirstNamed(View(left, store), name)
    ensures k == |left| ==> Occurrences(name, left, store) == 0 && Without(name, left, store) == left
    ensures k < |left| ==>
      && Live(Drop(left, k), store)
      && Occurrences(name, left, store) == 1 + Occurrences(name, Drop(left, k), store)
      && Without(name, left, store) == Without(name, Drop(left, k), store)
  {
    if left != [] {
      var tail := left[1..];
      assert View(left, store)[1..] == View(tail, store);
      assert left == [left[0]] + tail;
      ConsOccurrences(name, left[0], tail, store);
      if k > 0 {
        assert store[left[0]].name != name;
        FirstOccurrence(name, tail, store, k - 1);
        hide Occurrences, Without, FirstNamed;
        if k < |left| {
          DropBehind(left, k);
          ConsOccurrences(name, left[0], Drop(tail, k - 1), store);
        }
      } else {
        assert Drop(left, 0) == tail;
      }
    }
  }

  lemma {:induction false} SameOccurrences(name: string, left: seq<Id>, store: Store, store': Store)
    requires Live(left, store) && Live(left, store')
    requires forall k :: 0 <= k < |left| ==> store'[left[k]].name == store[left[k]].name
    ensures Occurrences(name, left, store') == Occurrences(name, left, store)
    ensures Without(name, left, store') == Without(name, left, store)
  {
    if left != [] {
      assert forall k :: 0 <= k < |left[1..]| ==> left[1..][k] == left[k + 1];
      SameOccurrences(name, left[1..], store, store');
    }
  }

  lemma OptionIsTaken(self: TreeLeaf, left: seq<Id>, collected: seq<Id>, store: Store)
    requires self.Option? && self.value.Count? && Live(left, store) && Live(collected, store)
    requires NewName(self.name, collected, store)
    ensures var k := FirstNamed(View(left, store), self.name); var o := MatchLeaf(self, left, collected, store);
      if k == |left| then o == Match(false, left, collected, store)
      else o == Match(true, Drop(left, k), collected + [left[k]], Write(store, left[k], Count(1)))
  {
    FirstNamedIs(View(collected, store), self.name, |collected|);
  }

  lemma OptionIsCounted(self: TreeLeaf, left: seq<Id>, collected: seq<Id>, id: Id, store: Store)
    requires self.Option? && self.value.Count? && Live(left, store) && Live(collected, store) && id < |store|
    requires NewName(self.name, collected, store) && store[id].name == self.name && store[id].value.Count?
    ensures var k := FirstNamed(View(left, store), self.name); var o := MatchLeaf(self, left, collected + [id], store);
      if k == |left| then o == Match(false, left, collected + [id], store)
      else o == Match(true, Drop(left, k), collected + [id], Write(store, id, Count(store[id].value.n + 1)))
  {
    FirstNamedIs(View(collected + [id], store), self.name, |collected|);
  }

  /** Only the value of one object that was collected has changed. */
  lemma NamesStay(name: string, left: seq<Id>, collected: seq<Id>, id: Id, v: Value, store: Store)
    requires Live(left, store) && Live(collected, store) && id < |store| && NewName(name, collected, store)
    ensures var store' := Write(store, id, v);
      && Live(left, store') && Live(collected, store') && NewName(name, collected, store')
      && store'[id] == store[id].(value := v)
      && Occurrences(name, left, store') == Occurrences(name, left, store)
      && Without(name, left, store') == Without(name, left, store)
      && forall w :: Write(store', id, w) == Write(store, id, w)
  {
    SameOccurrences(name, left, store, Write(store, id, v));
  }

  /** The outcome that counts all that is left on top of n. */
  function Counted(name: string, left: seq<Id>, collected: seq<Id>, id: Id, store: Store, n: int): Outcome
    requires Live(left, store) && id < |store|
  {
    Match(true, Without(name, left, store), collected + [id], Write(store, id, Count(n + Occurrences(name, left, store))))
  }

  lemma {:induction false} MoreOccurrences(self: TreeLeaf, left: seq<Id>, collected: seq<Id>, id: Id, store: Store, times: nat)
    requires self.Option? && self.value.Count? && Live(left, store) && Live(collected, store) && id < |store| && times >= 1
    requires NewName(self.name, collected, store) && store[id].name == self.name && store[id].value.Count?
    ensures Repeat(Tip(self), left, collected + [id], store, left, false, times)
         == Counted(self.name, left, collected, id, store, store[id].value.n)
    decreases |left|
  {
    hide MatchLeaf, FirstNamed, Repeat, Occurrences, Without, NewName, Write, SingleMatch;
    var k := FirstNamed(View(left, store), self.name);
    FirstOccurrence(self.name, left, store, k);
    OptionIsCounted(self, left, collected, id, store);
    var o := MatchLeaf(self, left, collected + [id], store);
    OneTurn(self, left, collected + [id], store, left, false, times);
    if k < |left| {
      NamesStay(self.name, o.left, collected, id, Count(store[id].value.n + 1), store);
      MoreOccurrences(self, o.left, collected, id, o.store, times + 1);
    } else {
      WriteSame(store, id);
    }
  }

  lemma WriteSame(store: Store, id: Id)
    requires id < |store|
    ensures Write(store, id, store[id].value) == store
  {
  }

  /** -v... takes every -v, in the place of the first, and counts them; nothing else changes. */
  lemma RepeatedOption(self: TreeLeaf, left: seq<Id>, collected: seq<Id>, store: Store, k: nat)
    requires self.Option? && self.value.Count? && Live(left, store) && Live(collected, store)
    requires NewName(self.name, collected, store) && k == FirstNamed(View(left, store), self.name)
    ensures MatchTree(Branch(OneOrMore, [Tip(self)]), left, collected, store)
         == if k == |left| then Match(false, left, collected, store)
            else Counted(self.name, left, collected, left[k], store, 0)
  {
    hide MatchLeaf, FirstNamed, Repeat, MatchTree, Occurrences, Without, NewName, Write, SingleMatch;
    OneOrMoreIsRepeat(Tip(self), left, collected, store);
    OptionIsTaken(self, left, collected, store);
    var o := MatchLeaf(self, left, collected, store);
    OneTurn(self, left, collected, store, [], true, 0);
    if k < |left| {
      CountsOn(self, left, collected, store, k, o);
    }
  }

  lemma CountsOn(self: TreeLeaf, left: seq<Id>, collected: seq<Id>, store: Store, k: nat, o: Outcome)
    requires self.Option? && self.value.Count? && Live(left, store) && Live(collected, store)
    requires NewName(self.name, collected, store) && k == FirstNamed(View(left, store), self.name) < |left|
    requires o == Match(true, Drop(left, k), collected + [left[k]], Write(store, left[k], Count(1)))
    ensures Live(o.left, o.store) && Live(o.collected, o.store)
    ensures Repeat(Tip(self), o.left, o.collected, o.store, o.left, false, 1)
         == Counted(self.name, left, collected, left[k], store, 0)
  {
    hide MatchLeaf, FirstNamed, Repeat, MatchTree, Occurrences, Without, NewName, Write, SingleMatch;
    assert View(left, store)[k].name == self.name;
    FirstOccurrence(self.name, left, store, k);
    NamesStay(self.name, o.left, collected, left[k], Count(1), store);
    MoreOccurrences(self, o.left, collected, left[k], o.store, 1);
  }
}
