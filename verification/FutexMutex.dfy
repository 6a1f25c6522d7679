/**
  The futex mutex and its counting client, as a step system over any number of threads.

  One thread step is one atomic action of the code: the exchange of TryLock, the
  compare-and-park of the futex system call, the reload in the wait loop, the load and the
  store of the shared counter, and the three actions of Unlock.  A parked thread may wake
  at any time for no reason.  Memory is sequentially consistent.
 */
module FutexMutex {

  const UNLOCKED: nat := 0
  const LOCKED: nat := 1

  /** Where a contender stands.  Each name is the action the thread takes next. */
  datatype Pc =
    | Idle                       // top of the client loop: next iteration, or finished
    | Exchange                   // TryLock: state.exchange(Locked)
    | SysWait                    // the futex call: compare with Locked, then park
    | Parked                     // asleep in the kernel queue
    | Reload                     // the wait loop: load the state, compare with Locked
    | ReadCs                     // lock taken: load the counter
    | WriteCs(local: nat)        // store the counter incremented
    | Prepare                    // Unlock: PrepareWake
    | Store                      // Unlock: state.store(Unlocked)
    | Wake                       // Unlock: WakeOne

  /** `rounds` counts the increments this thread has stored. */
  datatype Thread = Thread(pc: Pc, rounds: nat)

  datatype System = System(word: nat, cs: nat, threads: seq<Thread>)

  /** `woken` is the kernel's choice; it matters only when the running thread does WakeOne. */
  datatype Step = Run(t: nat, woken: nat) | Spurious(t: nat)

  predicate InCritical(pc: Pc) {
    pc.ReadCs? || pc.WriteCs? || pc.Prepare? || pc.Store?
  }

  /** Threads that will look at the state word again without being woken. */
  predicate WillLook(pc: Pc) {
    pc.Exchange? || pc.SysWait? || pc.Reload?
  }

  /** Inside an iteration whose increment is not yet stored. */
  predicate BeforeIncrement(pc: Pc) {
    WillLook(pc) || pc.Parked? || pc.ReadCs? || pc.WriteCs?
  }

  predicate IsParked(s: System, t: nat) {
    t < |s.threads| && s.threads[t].pc.Parked?
  }

  predicate Finished(th: Thread, k: nat) {
    th.pc.Idle? && th.rounds >= k
  }

  predicate Final(s: System, k: nat) {
    forall t :: 0 <= t < |s.threads| ==> Finished(s.threads[t], k)
  }

  function Init(n: nat): System {
    System(UNLOCKED, 0, seq(n, _ => Thread(Idle, 0)))
  }

  ghost predicate Enabled(s: System, step: Step, k: nat) {
    match step
    case Spurious(t) => IsParked(s, t)
    case Run(t, woken) =>
      && t < |s.threads|
      && !s.threads[t].pc.Parked?
      && !Finished(s.threads[t], k)
      && (s.threads[t].pc.Wake? && (exists u: nat :: IsParked(s, u)) ==> IsParked(s, woken))
  }

  function SetPc(s: System, t: nat, pc: Pc): System
    requires t < |s.threads|
  {
    s.(threads := s.threads[t := s.threads[t].(pc := pc)])
  }

  /** The state after one step.  WakeOne takes exactly one thread off the queue if there is any. */
  ghost function Apply(s: System, step: Step, k: nat): System
    requires Enabled(s, step, k)
  {
    match step
    case Spurious(t) => SetPc(s, t, Reload)
    case Run(t, woken) =>
      match s.threads[t].pc
      case Idle => SetPc(s, t, Exchange)
      case Exchange =>
        SetPc(s, t, if s.word == UNLOCKED then ReadCs else SysWait).(word := LOCKED)
      case SysWait => SetPc(s, t, if s.word == LOCKED then Parked else Reload)
      case Reload => SetPc(s, t, if s.word == LOCKED then SysWait else Exchange)
      case ReadCs => SetPc(s, t, WriteCs(s.cs))
      case WriteCs(local) =>
        System(s.word, local + 1, s.threads[t := Thread(Prepare, s.threads[t].rounds + 1)])
      case Prepare => SetPc(s, t, Store)
      case Store => SetPc(s, t, Wake).(word := UNLOCKED)
      case Wake =>
        var awake := if IsParked(s, woken) then SetPc(s, woken, Reload) else s;
        SetPc(awake, t, Idle)
      case Parked => s
  }

  /** A schedule that can be followed from `s`. */
  ghost predicate Legal(s: System, steps: seq<Step>, k: nat)
    decreases steps
  {
    steps == [] || (Enabled(s, steps[0], k) && Legal(Apply(s, steps[0], k), steps[1..], k))
  }

  ghost function After(s: System, steps: seq<Step>, k: nat): System
    requires Legal(s, steps, k)
    decreases steps
  {
    if steps == [] then s else After(Apply(s, steps[0], k), steps[1..], k)
  }

  // ----- Sums over threads ------------------------------------------------------------

  function Rounds(ths: seq<Thread>): nat {
    if ths == [] then 0 else Rounds(ths[..|ths| - 1]) + ths[|ths| - 1].rounds
  }

  lemma {:induction false} RoundsUpdate(ths: seq<Thread>, t: nat, th: Thread)
    requires t < |ths|
    ensures Rounds(ths[t := th]) == Rounds(ths) - ths[t].rounds + th.rounds
  {
    var n := |ths| - 1;
    if t < n {
      RoundsUpdate(ths[..n], t, th);
      assert ths[t := th][..n] == ths[..n][t := th];
    } else {
      assert ths[t := th][..n] == ths[..n];
    }
  }

  lemma {:induction false} RoundsAllEqual(ths: seq<Thread>, k: nat)
    requires forall t :: 0 <= t < |ths| ==> ths[t].rounds == k
    ensures Rounds(ths) == |ths| * k
  {
    if ths != [] {
      var init := ths[..|ths| - 1];
      RoundsAllEqual(init, k);
      assert |ths| * k == |init| * k + k;
    }
  }

  // ----- The invariant ----------------------------------------------------------------

  /** Mutual exclusion: the word is Locked exactly while one thread is between its
      successful exchange and its store, and there is never a second such thread. */
  ghost predicate MutualExclusion(s: System) {
    && (s.word == UNLOCKED || s.word == LOCKED)
    && (s.word == LOCKED <==> exists t :: 0 <= t < |s.threads| && InCritical(s.threads[t].pc))
    && forall t, u | 0 <= t < |s.threads| && 0 <= u < |s.threads| ::
         InCritical(s.threads[t].pc) && InCritical(s.threads[u].pc) ==> t == u
  }

  /** If the word is Unlocked and somebody sleeps, an unlocker still owes its WakeOne or
      an awake thread is about to look at the word. */
  ghost predicate NoLostWakeup(s: System) {
    s.word == UNLOCKED && (exists u: nat :: IsParked(s, u)) ==>
      exists t :: 0 <= t < |s.threads| && (s.threads[t].pc.Wake? || WillLook(s.threads[t].pc))
  }

  ghost predicate CounterExact(s: System) {
    && s.cs == Rounds(s.threads)
    && (forall t :: 0 <= t < |s.threads| && s.threads[t].pc.WriteCs? ==> s.threads[t].pc.local == s.cs)
  }

  ghost predicate WithinRounds(s: System, k: nat) {
    forall t :: 0 <= t < |s.threads| ==>
      && s.threads[t].rounds <= k
      && (BeforeIncrement(s.threads[t].pc) ==> s.threads[t].rounds < k)
  }

  ghost predicate Inv(s: System, k: nat) {
    MutualExclusion(s) && NoLostWakeup(s) && CounterExact(s) && WithinRounds(s, k)
  }

  lemma InitInv(n: nat, k: nat)
    ensures Inv(Init(n), k)
  {
    RoundsAllEqual(Init(n).threads, 0);
  }

  /** How a thread can have come to each place of the code, for the word it found. */
  predicate CameTo(pc: Pc, word: nat, cs: nat, pc': Pc) {
    match pc'
    case Idle => pc.Wake?
    case Exchange => pc.Idle? || (pc.Reload? && word != LOCKED)
    case SysWait => (pc.Exchange? && word != UNLOCKED) || (pc.Reload? && word == LOCKED)
    case Parked => pc.SysWait? && word == LOCKED
    case Reload => pc.Parked? || (pc.SysWait? && word != LOCKED)
    case ReadCs => pc.Exchange? && word == UNLOCKED
    case WriteCs(local) => pc.ReadCs? && local == cs
    case Prepare => pc.WriteCs?
    case Store => pc.Prepare?
    case Wake => pc.Store?
  }

  /** A step moves its own thread, and nobody else but the one sleeper that a WakeOne takes off
      the queue, if there is any; the counter and the rounds change with the store of the counter. */
  lemma EveryMove(s: System, step: Step, k: nat)
    requires Enabled(s, step, k)
    ensures var s' := Apply(s, step, k); var t := step.t;
      var wakes := step.Run? && s.threads[t].pc.Wake? && exists u: nat :: IsParked(s, u);
      && |s'.threads| == |s.threads| && t < |s.threads|
      && CameTo(s.threads[t].pc, s.word, s.cs, s'.threads[t].pc)
      && (wakes ==> step.woken < |s.threads| && s.threads[step.woken].pc.Parked? && s'.threads[step.woken].pc.Reload?)
      && (forall u :: 0 <= u < |s.threads| && u != t && !(wakes && u == step.woken) ==> s'.threads[u] == s.threads[u])
      && s'.cs == (if step.Run? && s.threads[t].pc.WriteCs? then s.threads[t].pc.local + 1 else s.cs)
      && forall u :: 0 <= u < |s.threads| ==>
           s'.threads[u].rounds == s.threads[u].rounds + if u == t && step.Run? && s.threads[t].pc.WriteCs? then 1 else 0
  {
  }

  /** The one way into the critical section is an exchange that finds Unlocked, the one way out the store. */
  lemma EnterAndLeave(s: System, step: Step, k: nat)
    requires Enabled(s, step, k)
    ensures var s' := Apply(s, step, k);
      var pc := s.threads[step.t].pc;
      var enters, leaves := step.Run? && pc.Exchange? && s.word == UNLOCKED, step.Run? && pc.Store?;
      && |s'.threads| == |s.threads| && step.t < |s.threads|
      && s'.word == (if step.Run? && pc.Exchange? then LOCKED else if leaves then UNLOCKED else s.word)
      && (leaves ==> InCritical(pc))
      && forall u :: 0 <= u < |s.threads| ==>
        (InCritical(s'.threads[u].pc) <==> if u == step.t then enters || (InCritical(pc) && !leaves)
                                           else InCritical(s.threads[u].pc))
  {
  }

  lemma StepKeepsMutualExclusion(s: System, step: Step, k: nat)
    requires MutualExclusion(s) && Enabled(s, step, k)
    ensures MutualExclusion(Apply(s, step, k))
  {
    EnterAndLeave(s, step, k);
    hide Apply, Enabled, InCritical;
    var s' := Apply(s, step, k);
    if s'.word == LOCKED {
      if s.word == UNLOCKED {
        assert InCritical(s'.threads[step.t].pc);
      } else {
        var h :| 0 <= h < |s.threads| && InCritical(s.threads[h].pc);
        assert InCritical(s'.threads[h].pc);
      }
    }
  }

  lemma StepKeepsNoLostWakeup(s: System, step: Step, k: nat)
    requires Inv(s, k) && Enabled(s, step, k)
    ensures NoLostWakeup(Apply(s, step, k))
  {
    var s' := Apply(s, step, k);
    if s'.word == UNLOCKED && exists u: nat :: IsParked(s', u) {
      var u :| IsParked(s', u);
      if step.Run? && s.threads[step.t].pc.Wake? {
        // Somebody was parked, so one thread has been taken off the queue.
        assert IsParked(s, u);
        assert s'.threads[step.woken].pc.Reload?;
      } else if step.Spurious? || s.word == LOCKED || s.threads[step.t].pc.SysWait?
             || s.threads[step.t].pc.Reload? || s.threads[step.t].pc.Idle? {
        assert s'.threads[step.t].pc.Wake? || WillLook(s'.threads[step.t].pc);
      }
    }
  }

  lemma StepKeepsCounter(s: System, step: Step, k: nat)
    requires Inv(s, k) && Enabled(s, step, k)
    ensures CounterExact(Apply(s, step, k)) && WithinRounds(Apply(s, step, k), k)
  {
    var s' := Apply(s, step, k);
    var t := step.t;
    if step.Run? && s.threads[t].pc.Wake? && IsParked(s, step.woken) {
      var mid := SetPc(s, step.woken, Reload);
      RoundsUpdate(s.threads, step.woken, mid.threads[step.woken]);
      RoundsUpdate(mid.threads, t, s'.threads[t]);
    } else {
      RoundsUpdate(s.threads, t, s'.threads[t]);
    }
  }

  lemma StepKeepsInv(s: System, step: Step, k: nat)
    requires Inv(s, k) && Enabled(s, step, k)
    ensures Inv(Apply(s, step, k), k) && |Apply(s, step, k).threads| == |s.threads|
  {
    StepKeepsMutualExclusion(s, step, k);
    StepKeepsNoLostWakeup(s, step, k);
    StepKeepsCounter(s, step, k);
  }

  lemma {:induction false} RunKeepsInv(s: System, steps: seq<Step>, k: nat)
    requires Inv(s, k) && Legal(s, steps, k)
    ensures Inv(After(s, steps, k), k) && |After(s, steps, k).threads| == |s.threads|
    decreases steps
  {
    if steps != [] {
      StepKeepsInv(s, steps[0], k);
      RunKeepsInv(Apply(s, steps[0], k), steps[1..], k);
    }
  }

  // ----- Main results, over every schedule of n threads with k rounds each --------------

  lemma MutexIsExclusive(n: nat, k: nat, steps: seq<Step>)
    requires Legal(Init(n), steps, k)
    ensures MutualExclusion(After(Init(n), steps, k))
  {
    InitInv(n, k);
    RunKeepsInv(Init(n), steps, k);
  }

  lemma NoWakeupIsLost(n: nat, k: nat, steps: seq<Step>)
    requires Legal(Init(n), steps, k)
    ensures NoLostWakeup(After(Init(n), steps, k))
  {
    InitInv(n, k);
    RunKeepsInv(Init(n), steps, k);
  }

  /** The client's count: whatever the schedule, when all threads are done the counter is n * k. */
  lemma CountersAddUp(n: nat, k: nat, steps: seq<Step>)
    requires Legal(Init(n), steps, k)
    requires Final(After(Init(n), steps, k), k)
    ensures After(Init(n), steps, k).cs == n * k
  {
    InitInv(n, k);
    RunKeepsInv(Init(n), steps, k);
    RoundsAllEqual(After(Init(n), steps, k).threads, k);
  }

  // ----- No schedule runs for ever -----------------------------------------------------

  /** Writes of the state word this thread still has ahead of it: two for each round. */
  function Writes(th: Thread, k: nat): int {
    2 * (k - th.rounds) +
    (if th.pc.ReadCs? || th.pc.WriteCs? then -1 else if th.pc.Prepare? || th.pc.Store? then 1 else 0)
  }

  /** Steps a thread can take by itself before the word has to change. */
  function Patience(pc: Pc, word: nat): nat {
    match pc
    case Parked => 0
    case Store => 0
    case Prepare => 1
    case WriteCs(_) => 2
    case ReadCs => 3
    case Idle => 4
    case Wake => 7
    case SysWait => if word == LOCKED then 1 else 3
    case Reload => 2
    case Exchange => if word == LOCKED then 2 else 1
  }

  function Share(th: Thread, word: nat, g: nat, k: nat): int {
    g * Writes(th, k) + Patience(th.pc, word)
  }

  function Shares(ths: seq<Thread>, word: nat, g: nat, k: nat): int {
    if ths == [] then 0
    else Shares(ths[..|ths| - 1], word, g, k) + Share(ths[|ths| - 1], word, g, k)
  }

  /** A write of the word may give every thread new patience, so it weighs nine per thread. */
  function Potential(s: System, k: nat): int {
    Shares(s.threads, s.word, 9 * |s.threads|, k)
  }

  lemma {:induction false} SharesUpdate(ths: seq<Thread>, t: nat, th: Thread, word: nat, g: nat, k: nat)
    requires t < |ths|
    ensures Shares(ths[t := th], word, g, k)
         == Shares(ths, word, g, k) - Share(ths[t], word, g, k) + Share(th, word, g, k)
  {
    var n := |ths| - 1;
    if t < n {
      SharesUpdate(ths[..n], t, th, word, g, k);
      assert ths[t := th][..n] == ths[..n][t := th];
    } else {
      assert ths[t := th][..n] == ths[..n];
    }
  }

  lemma {:induction false} SharesOtherWord(ths: seq<Thread>, word: nat, word': nat, g: nat, k: nat)
    ensures Shares(ths, word', g, k) <= Shares(ths, word, g, k) + 2 * |ths|
  {
    if ths != [] {
      SharesOtherWord(ths[..|ths| - 1], word, word', g, k);
    }
  }

  lemma {:induction false} SharesNonNegative(ths: seq<Thread>, word: nat, g: nat, k: nat)
    requires forall t :: 0 <= t < |ths| ==> Writes(ths[t], k) >= 0
    ensures Shares(ths, word, g, k) >= 0
  {
    if ths != [] {
      SharesNonNegative(ths[..|ths| - 1], word, g, k);
      assert g * Writes(ths[|ths| - 1], k) >= 0;
    }
  }

  lemma {:induction false} SharesAtStart(n: nat, g: nat, k: nat)
    ensures Shares(Init(n).threads, UNLOCKED, g, k) == n * (2 * g * k + 4)
  {
    if n > 0 {
      assert Init(n).threads[..n - 1] == Init(n - 1).threads;
      SharesAtStart(n - 1, g, k);
      assert g * (2 * (k - 0)) == 2 * g * k;
      assert n * (2 * g * k + 4) == (n - 1) * (2 * g * k + 4) + (2 * g * k + 4);
    }
  }

  lemma PotentialNonNegative(s: System, k: nat)
    requires Inv(s, k)
    ensures Potential(s, k) >= 0
  {
    SharesNonNegative(s.threads, s.word, 9 * |s.threads|, k);
  }

  lemma QuietStepPays(s: System, step: Step, k: nat)
    requires Enabled(s, step, k) && Apply(s, step, k).word == s.word
    requires step.Run? ==> !s.threads[step.t].pc.Store?
    requires Inv(s, k)
    ensures Potential(Apply(s, step, k), k) <= Potential(s, k) + (if step.Run? then -1 else 2)
  {
    var s' := Apply(s, step, k);
    var t, g := step.t, 9 * |s.threads|;
    if step.Run? && s.threads[t].pc.Wake? && IsParked(s, step.woken) {
      var mid := SetPc(s, step.woken, Reload);
      SharesUpdate(s.threads, step.woken, mid.threads[step.woken], s.word, g, k);
      SharesUpdate(mid.threads, t, s'.threads[t], s.word, g, k);
    } else {
      SharesUpdate(s.threads, t, s'.threads[t], s.word, g, k);
      assert Writes(s'.threads[t], k) == Writes(s.threads[t], k);
    }
  }

  lemma WritingStepPays(s: System, step: Step, k: nat)
    requires Enabled(s, step, k) && step.Run? && Inv(s, k)
    requires s.threads[step.t].pc.Store? || (s.threads[step.t].pc.Exchange? && s.word == UNLOCKED)
    ensures Potential(Apply(s, step, k), k) < Potential(s, k)
  {
    var s' := Apply(s, step, k);
    var t, g := step.t, 9 * |s.threads|;
    SharesUpdate(s.threads, t, s'.threads[t], s.word, g, k);
    SharesOtherWord(s'.threads, s.word, s'.word, g, k);
    WriteCosts(s.threads[t], s'.threads[t], s.word, g, k);
  }

  lemma WriteCosts(before: Thread, after: Thread, word: nat, g: nat, k: nat)
    requires Writes(before, k) == Writes(after, k) + 1
    ensures Share(after, word, g, k) <= Share(before, word, g, k) - g + Patience(after.pc, word)
  {
    var w := Writes(after, k);
    assert g * (w + 1) == g * w + g;
  }

  lemma StepPays(s: System, step: Step, k: nat)
    requires Enabled(s, step, k) && Inv(s, k)
    ensures Potential(Apply(s, step, k), k) <= Potential(s, k) + (if step.Run? then -1 else 2)
  {
    if step.Run? && (s.threads[step.t].pc.Store? || (s.threads[step.t].pc.Exchange? && s.word == UNLOCKED)) {
      WritingStepPays(s, step, k);
    } else {
      QuietStepPays(s, step, k);
    }
  }

  function SpuriousCount(steps: seq<Step>): nat {
    if steps == [] then 0 else (if steps[0].Spurious? then 1 else 0) + SpuriousCount(steps[1..])
  }

  lemma {:induction false} RunPays(s: System, steps: seq<Step>, k: nat)
    requires Inv(s, k) && Legal(s, steps, k)
    ensures |steps| + Potential(After(s, steps, k), k) <= Potential(s, k) + 3 * SpuriousCount(steps)
    decreases steps
  {
    if steps != [] {
      StepPays(s, steps[0], k);
      StepKeepsInv(s, steps[0], k);
      RunPays(Apply(s, steps[0], k), steps[1..], k);
    }
  }

  /** Termination with no fairness assumption: a schedule of n threads with k rounds each has
      at most n * (18 n k + 4) steps, and at most three more for each spurious wake-up in it. */
  lemma EveryScheduleIsBounded(n: nat, k: nat, steps: seq<Step>)
    requires Legal(Init(n), steps, k)
    ensures |steps| <= n * (2 * (9 * n) * k + 4) + 3 * SpuriousCount(steps)
  {
    InitInv(n, k);
    RunKeepsInv(Init(n), steps, k);
    RunPays(Init(n), steps, k);
    PotentialNonNegative(After(Init(n), steps, k), k);
    SharesAtStart(n, 9 * n, k);
  }

  // ----- No state is stuck, so every run can be completed --------------------------------

  lemma SomeoneCanRun(s: System, k: nat) returns (step: Step)
    requires Inv(s, k) && !Final(s, k)
    ensures step.Run? && Enabled(s, step, k)
  {
    var t: nat :| t < |s.threads| && !Finished(s.threads[t], k);
    if s.threads[t].pc.Parked? {
      assert IsParked(s, t);
      if s.word == LOCKED {
        t :| 0 <= t < |s.threads| && InCritical(s.threads[t].pc);
      } else {
        t :| 0 <= t < |s.threads| && (s.threads[t].pc.Wake? || WillLook(s.threads[t].pc));
      }
    }
    var woken: nat := if exists u: nat :: IsParked(s, u) then var u: nat :| IsParked(s, u); u else 0;
    step := Run(t, woken);
  }

  /** No reachable state is stuck: unless all threads are done, somebody can take a step
      that is not a spurious wake-up. */
  lemma NeverDeadlocked(n: nat, k: nat, steps: seq<Step>)
    requires Legal(Init(n), steps, k)
    requires !Final(After(Init(n), steps, k), k)
    ensures exists t, w :: Enabled(After(Init(n), steps, k), Run(t, w), k)
  {
    InitInv(n, k);
    RunKeepsInv(Init(n), steps, k);
    var step := SomeoneCanRun(After(Init(n), steps, k), k);
    assert Enabled(After(Init(n), steps, k), Run(step.t, step.woken), k);
  }

  lemma {:induction false} FinishFrom(s: System, k: nat) returns (steps: seq<Step>)
    requires Inv(s, k)
    ensures Legal(s, steps, k) && Final(After(s, steps, k), k)
    decreases Potential(s, k)
  {
    PotentialNonNegative(s, k);
    if Final(s, k) {
      steps := [];
    } else {
      var step := SomeoneCanRun(s, k);
      StepPays(s, step, k);
      StepKeepsInv(s, step, k);
      var rest := FinishFrom(Apply(s, step, k), k);
      steps := [step] + rest;
      assert steps[1..] == rest;
    }
  }

  lemma {:induction false} AfterConcat(s: System, first: seq<Step>, second: seq<Step>, k: nat)
    requires Legal(s, first, k) && Legal(After(s, first, k), second, k)
    ensures Legal(s, first + second, k)
    ensures After(s, first + second, k) == After(After(s, first, k), second, k)
    decreases first
  {
    if first == [] {
      assert first + second == second;
    } else {
      assert (first + second)[1..] == first[1..] + second;
      AfterConcat(Apply(s, first[0], k), first[1..], second, k);
    }
  }

  /** Every schedule, however unlucky so far, extends to one in which all threads finish
      with the counter at n * k. */
  lemma EveryRunCanFinish(n: nat, k: nat, steps: seq<Step>)
    requires Legal(Init(n), steps, k)
    ensures exists more ::
      && Legal(Init(n), steps + more, k)
      && Final(After(Init(n), steps + more, k), k)
      && After(Init(n), steps + more, k).cs == n * k
  {
    InitInv(n, k);
    RunKeepsInv(Init(n), steps, k);
    var more := FinishFrom(After(Init(n), steps, k), k);
    AfterConcat(Init(n), steps, more, k);
    CountersAddUp(n, k, steps + more);
  }
}
