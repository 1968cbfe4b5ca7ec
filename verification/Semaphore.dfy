/**
 The lightweight semaphore: an atomic count in front of a kernel semaphore, one waiter, one signaller.
 Each atomic operation and each kernel call is one step.
 */
module Semaphore {

  /** How long a wait may block: not at all, or as `wait(timeout_usecs)` with a negative, zero or positive timeout. */
  datatype Patience = TryOnly | Forever | Poll | Timed

  const SPIN := 1024

  /** Program points of `tryWait`, `wait` and `waitWithPartialSpinning`. */
  datatype Waiter =
    | WIdle
    | WTryLoad(p: Patience)
    | WTryTake
    | WSpin(p: Patience, spin: nat)
    | WSpinTake
    | WGrab(p: Patience)
    | WSleep(p: Patience)
    | WUndo
    | WRegrab
    | WRetry
    | WDone(ok: bool)

  /** Program points of `signal`. */
  datatype Signaller = SIdle | SAdd(n: nat) | SPost

  /**
   `count` is m_count, `kernel` the kernel semaphore's value.  History variables: `signalled` sums the counts
   signalled so far, `waits` counts the waits that succeeded, `asserts` is whether every assertion held.
   */
  datatype State = State(
    count: int, kernel: nat, waiter: Waiter, signaller: Signaller, signalled: nat, waits: nat, asserts: bool)

  datatype Action =
    | CallWait(p: Patience)
    | Wait(wake: bool)        // the waiter's next step; wake: a blocking kernel wait succeeds rather than times out
    | CallSignal(n: nat)
    | Signal                  // the signaller's next step

  function Init(initial: nat): State {
    State(initial, 0, WIdle, SIdle, initial, 0, true)
  }

  predicate Enabled(s: State, a: Action) {
    match a
    case CallWait(_) => s.waiter.WIdle?
    case Wait(wake) => !s.waiter.WIdle? && (s.waiter.WSleep? && wake ==> s.kernel > 0)
    case CallSignal(_) => s.signaller.SIdle?
    case Signal => !s.signaller.SIdle?
  }

  function Succeed(s: State): State {
    s.(waiter := WDone(true), waits := s.waits + 1)
  }

  function WaitStep(s: State, wake: bool): State
    requires Enabled(s, Wait(wake))
  {
    match s.waiter
    case WIdle => s
    case WTryLoad(p) =>
      s.(waiter := if s.count > 0 then WTryTake else if p.TryOnly? then WDone(false) else WSpin(p, SPIN))
    case WTryTake => Succeed(s.(count := s.count - 1))
    case WSpin(p, spin) =>
      s.(waiter := if spin == 0 then WGrab(p) else if s.count > 0 then WSpinTake else WSpin(p, spin - 1))
    case WSpinTake => Succeed(s.(count := s.count - 1))
    case WGrab(p) =>
      if s.count > 0 then Succeed(s.(count := s.count - 1))
      else s.(count := s.count - 1, waiter := if p.Forever? || p.Timed? then WSleep(p) else WUndo)
    case WSleep(p) => if wake then Succeed(s.(kernel := s.kernel - 1)) else s.(waiter := WUndo)
    case WUndo => s.(count := s.count + 1, waiter := if s.count < 0 then WDone(false) else WRegrab)
    case WRegrab => s.(count := s.count - 1, waiter := if s.count > 0 then WRetry else WUndo)
    case WRetry => if s.kernel > 0 then Succeed(s.(kernel := s.kernel - 1)) else s.(waiter := WUndo)
    case WDone(_) => s.(waiter := WIdle)
  }

  function SignalStep(s: State): State {
    match s.signaller
    case SIdle => s
    case SAdd(n) =>
      s.(count := s.count + n, signaller := if s.count < 0 then SPost else SIdle,
         signalled := s.signalled + n, asserts := s.asserts && s.count >= -1)
    case SPost => s.(kernel := s.kernel + 1, signaller := SIdle)
  }

  function Apply(s: State, a: Action): State
    requires Enabled(s, a)
  {
    match a
    case CallWait(p) => s.(waiter := WTryLoad(p))
    case Wait(wake) => WaitStep(s, wake)
    case CallSignal(n) => s.(signaller := SAdd(n))
    case Signal => SignalStep(s)
  }

  /** The waiter has taken one off the count without having been given a signal for it yet. */
  predicate Owing(w: Waiter) {
    w.WSleep? || w.WUndo? || w.WRetry?
  }

  /** Kernel signals posted or about to be posted. */
  function Posts(s: State): nat {
    s.kernel + if s.signaller.SPost? then 1 else 0
  }

  /**
   The count is the number of signals not yet waited for, less one while the waiter owes one.
   A kernel signal is on its way exactly when the waiter owes one and a signal has come in since.
   */
  ghost predicate Inv(s: State) {
    && s.asserts
    && s.signalled - s.waits == s.count + (if Owing(s.waiter) then 1 else 0) >= 0
    && (if Owing(s.waiter) || s.waiter.WRegrab? then Posts(s) == if s.count >= 0 then 1 else 0 else Posts(s) == 0)
    && (s.waiter.WTryTake? || s.waiter.WSpinTake? || s.waiter.WRegrab? ==> s.count > 0)
  }

  /** Every step keeps the invariant, as long as no one signals a count of zero. */
  lemma StepKeeps(s: State, a: Action)
    requires Inv(s) && Enabled(s, a) && (a.Signal? && s.signaller.SAdd? ==> s.signaller.n > 0)
    ensures Inv(Apply(s, a))
  {
  }

  ghost predicate Moves(s: State, a: Action, s': State) {
    Enabled(s, a) && s' == Apply(s, a)
  }

  ghost predicate IsRun(states: seq<State>, actions: seq<Action>) {
    && |states| == |actions| + 1
    && forall i | 0 <= i < |actions| :: Moves(states[i], actions[i], states[i + 1])
  }

  /** A run in which every signal has a positive count. */
  ghost predicate PositiveSignals(actions: seq<Action>) {
    forall i | 0 <= i < |actions| && actions[i].CallSignal? :: actions[i].n > 0
  }

  /** A run from s on in which all further signals are positive. */
  ghost predicate Continues(s: State, states: seq<State>, actions: seq<Action>) {
    IsRun(states, actions) && PositiveSignals(actions) && states[0] == s
  }

  lemma {:induction false} ContinuationKeeps(s: State, states: seq<State>, actions: seq<Action>, i: nat)
    requires Inv(s) && (s.signaller.SAdd? ==> s.signaller.n > 0) && Continues(s, states, actions) && i < |states|
    ensures Inv(states[i]) && (states[i].signaller.SAdd? ==> states[i].signaller.n > 0)
  {
    if i > 0 {
      ContinuationKeeps(s, states, actions, i - 1);
      assert Moves(states[i - 1], actions[i - 1], states[i - 1 + 1]);
      StepKeeps(states[i - 1], actions[i - 1]);
    }
  }

  lemma RunKeeps(states: seq<State>, actions: seq<Action>, initial: nat, i: nat)
    requires IsRun(states, actions) && PositiveSignals(actions) && states[0] == Init(initial) && i < |states|
    ensures Inv(states[i]) && (states[i].signaller.SAdd? ==> states[i].signaller.n > 0)
  {
    ContinuationKeeps(Init(initial), states, actions, i);
  }

  /**
   In every run with positive signals: successful waits never exceed signals, `oldCount >= -1` holds at each
   signal, and between calls the count is exactly the number of signals left, none being in the kernel:
   a wait that timed out has neither consumed nor lost one.
   */
  lemma WaitsNeverExceedSignals(states: seq<State>, actions: seq<Action>, initial: nat, i: nat)
    requires IsRun(states, actions) && PositiveSignals(actions) && states[0] == Init(initial) && i < |states|
    ensures var s := states[i];
            && s.waits <= s.signalled && s.asserts
            && (s.waiter.WIdle? || s.waiter.WDone? ==> s.count == s.signalled - s.waits && s.kernel == 0)
  {
    RunKeeps(states, actions, initial, i);
  }

  /** No wake-up is lost: a waiter asleep while signals are left has a kernel signal there or on its way. */
  lemma NoLostWakeup(states: seq<State>, actions: seq<Action>, initial: nat, i: nat)
    requires IsRun(states, actions) && PositiveSignals(actions) && states[0] == Init(initial) && i < |states|
    requires states[i].waiter.WSleep?
    ensures states[i].signalled > states[i].waits <==> (states[i].kernel > 0 || states[i].signaller.SPost?)
  {
    RunKeeps(states, actions, initial, i);
  }

  // ----- Waits that fail -----

  /** The wait may sleep in the kernel. */
  predicate Patient(p: Patience) {
    p.Forever? || p.Timed?
  }

  /** Where a wait of the given kind can be: a try never spins, other waits at most 1024 times, and only a patient
      wait sleeps. */
  predicate Within(w: Waiter, p: Patience) {
    match w
    case WIdle => true
    case WTryLoad(q) => q == p
    case WTryTake => true
    case WSpin(q, spin) => q == p && !p.TryOnly? && spin <= 1024
    case WSpinTake => !p.TryOnly?
    case WGrab(q) => q == p && !p.TryOnly?
    case WSleep(q) => q == p && Patient(p)
    case WUndo => !p.TryOnly?
    case WRegrab => !p.TryOnly?
    case WRetry => !p.TryOnly?
    case WDone(_) => true
  }

  /** A patient wait that takes its place in the count back, or has failed. */
  predicate Disappointed(w: Waiter, p: Patience) {
    Patient(p) && (w.WUndo? || w.WRegrab? || w.WRetry? || w == WDone(false))
  }

  /** Every signal has been waited for. */
  predicate Exhausted(s: State) {
    s.signalled == s.waits
  }

  /** A wait comes to fail only while there is no signal left, and a patient one gives up only on a kernel time-out. */
  lemma WaitMoves(s: State, a: Action, p: Patience)
    requires Inv(s) && Enabled(s, a) && !a.CallWait? && Within(s.waiter, p)
    ensures
      var s' := Apply(s, a);
      && Within(s'.waiter, p)
      && (s'.waiter == WDone(false) && s.waiter != WDone(false) ==> Exhausted(s))
      && (Disappointed(s'.waiter, p) && !Disappointed(s.waiter, p) ==> a == Wait(false) && s.waiter.WSleep?)
  {
  }

  /** Action i calls for the waiter, and it does not call again before instant j. */
  ghost predicate InWait(actions: seq<Action>, i: nat, j: nat) {
    i < j <= |actions| && actions[i].CallWait? && forall k | i < k < j :: !actions[k].CallWait?
  }

  ghost predicate ExhaustedBetween(states: seq<State>, i: nat, j: nat) {
    exists k: nat :: i < k < j && k < |states| && Exhausted(states[k])
  }

  predicate TimesOut(states: seq<State>, actions: seq<Action>, k: nat) {
    k < |actions| && k < |states| && actions[k] == Wait(false) && states[k].waiter.WSleep?
  }

  ghost predicate TimedOutBetween(states: seq<State>, actions: seq<Action>, i: nat, j: nat) {
    exists k: nat :: i < k < j && TimesOut(states, actions, k)
  }

  /**
   In every run a wait, or try, reports failure only if at an instant of that call every signal had been waited for; one
   that may sleep, only after the kernel wait timed out; and one that may not sleep never does.
   */
  lemma {:induction false} FailedWait(states: seq<State>, actions: seq<Action>, initial: nat, i: nat, j: nat)
    requires IsRun(states, actions) && PositiveSignals(actions) && states[0] == Init(initial) && InWait(actions, i, j)
    ensures
      var w, p := states[j].waiter, actions[i].p;
      && Within(w, p)
      && (w == WDone(false) ==> ExhaustedBetween(states, i, j))
      && (Disappointed(w, p) ==> TimedOutBetween(states, actions, i, j))
    decreases j
  {
    assert Moves(states[j - 1], actions[j - 1], states[j - 1 + 1]);
    if j > i + 1 {
      FailedWait(states, actions, initial, i, j - 1);
      RunKeeps(states, actions, initial, j - 1);
      WaitMoves(states[j - 1], actions[j - 1], actions[i].p);
      assert Exhausted(states[j - 1]) ==> ExhaustedBetween(states, i, j);
      assert TimesOut(states, actions, j - 1) ==> TimedOutBetween(states, actions, i, j);
    }
  }

  // ----- Signals of zero -----

  /** Waits exceed signals, or an assertion has failed. */
  predicate Broken(s: State) {
    s.waits > s.signalled || !s.asserts
  }

  /** A run that breaks the promise can follow. */
  ghost predicate CanBreak(s: State) {
    exists states, actions :: Breaks(s, states, actions)
  }

  ghost predicate Breaks(s: State, states: seq<State>, actions: seq<Action>) {
    Continues(s, states, actions) && Broken(states[|actions|])
  }

  lemma BrokenNow(s: State)
    requires Broken(s)
    ensures CanBreak(s)
  {
    assert Breaks(s, [s], []);
  }

  lemma Preceded(s: State, a: Action, states: seq<State>, actions: seq<Action>)
    requires IsRun(states, actions) && Moves(s, a, states[0])
    ensures IsRun([s] + states, [a] + actions)
  {
    var states', actions' := [s] + states, [a] + actions;
    forall i | 0 <= i < |actions'| ensures Moves(states'[i], actions'[i], states'[i + 1]) {
      assert i > 0 ==> Moves(states[i - 1], actions[i - 1], states[i]);
    }
  }

  /** One step before a run that breaks the promise. */
  lemma StepsTo(s: State, a: Action)
    requires Enabled(s, a) && (a.CallSignal? ==> a.n > 0) && CanBreak(Apply(s, a))
    ensures CanBreak(s)
  {
    var states, actions :| Breaks(Apply(s, a), states, actions);
    Preceded(s, a, states, actions);
    assert PositiveSignals([a] + actions);
    assert ([s] + states)[|[a] + actions|] == states[|actions|];
    assert Breaks(s, [s] + states, [a] + actions);
  }

  /** A waiter that finds nothing spins until it gives up spinning. */
  lemma {:induction false} SpinsOut(s: State, p: Patience, k: nat)
    requires s.waiter == WSpin(p, k) && s.count <= 0 && CanBreak(s.(waiter := WGrab(p)))
    ensures CanBreak(s)
    decreases k
  {
    if k > 0 {
      SpinsOut(s.(waiter := WSpin(p, k - 1)), p, k - 1);
    }
    StepsTo(s, Wait(false));
  }

  /** A waiter that finds nothing falls asleep. */
  lemma FallsAsleep(s: State)
    requires s.waiter.WIdle? && s.count == 0 && CanBreak(s.(waiter := WSleep(Forever), count := -1))
    ensures CanBreak(s)
  {
    StepsTo(s.(waiter := WGrab(Forever)), Wait(false));
    SpinsOut(s.(waiter := WSpin(Forever, SPIN)), Forever, SPIN);
    StepsTo(s.(waiter := WTryLoad(Forever)), Wait(false));
    StepsTo(s, CallWait(Forever));
  }

  /** A kernel signal beyond what was signalled lets a waiter through unpaid. */
  lemma StrayPost(s: State)
    requires s.asserts && s.kernel > 0 && s.waits == s.signalled
    requires (s.waiter.WSleep? || s.waiter.WRetry?) || (s.waiter.WUndo? && s.count == -1)
    ensures CanBreak(s)
    decreases s.waiter.WUndo?
  {
    if s.waiter.WUndo? {
      var idle := s.(waiter := WIdle, count := 0);
      StrayPost(idle.(waiter := WSleep(Forever), count := -1));
      FallsAsleep(idle);
      StepsTo(idle.(waiter := WDone(false)), Wait(false));
      StepsTo(s, Wait(false));
    } else {
      BrokenNow(Apply(s, Wait(true)));
      StepsTo(s, Wait(true));
    }
  }

  /**
   Which additions are safe: after adding n, every run with positive signals keeps the promise exactly if n > 0 or no
   waiter had taken the count below zero.
   */
  lemma AddSafeIff(s: State)
    requires Inv(s) && s.signaller.SAdd?
    ensures !CanBreak(Apply(s, Signal)) <==> s.signaller.n > 0 || s.count >= 0
  {
    var s1 := Apply(s, Signal);
    if s.signaller.n > 0 || s.count >= 0 {
      assert Inv(s1);
      NeverBreaks(s1);
    } else {
      StrayPost(Apply(s1, Signal));
      StepsTo(s1, Signal);
    }
  }

  lemma NeverBreaks(s: State)
    requires Inv(s) && (s.signaller.SAdd? ==> s.signaller.n > 0)
    ensures !CanBreak(s)
  {
    forall states, actions | Continues(s, states, actions) ensures !Broken(states[|actions|]) {
      ContinuationKeeps(s, states, actions, |actions|);
    }
  }

  /** With a signal of zero under way, a sleeping waiter lets the promise break. */
  lemma AsleepBreaks(s: State)
    requires Inv(s) && s.signaller == SAdd(0) && s.waiter.WSleep? && s.count < 0
    ensures CanBreak(s)
  {
    AddSafeIff(s);
    StepsTo(s, Signal);
  }

  /** An idle waiter can take what there is and then fall asleep. */
  lemma {:induction false} IdleBreaks(s: State)
    requires Inv(s) && s.signaller == SAdd(0) && s.waiter.WIdle?
    ensures CanBreak(s)
    decreases s.count
  {
    if s.count == 0 {
      AsleepBreaks(s.(waiter := WSleep(Forever), count := -1));
      FallsAsleep(s);
    } else {
      var took := s.(count := s.count - 1, waits := s.waits + 1);
      IdleBreaks(took);
      StepsTo(took.(waiter := WDone(true)), Wait(false));
      StepsTo(s.(waiter := WTryTake), Wait(false));
      StepsTo(s.(waiter := WTryLoad(TryOnly)), Wait(false));
      StepsTo(s, CallWait(TryOnly));
    }
  }

  /** How far a waiter is from the end of its call. */
  function Rank(s: State): nat {
    match s.waiter
    case WIdle => 0
    case WDone(_) => 1
    case WTryTake => 2
    case WSpinTake => 2
    case WSleep(_) => 2
    case WUndo => if s.count < 0 then 2 else 5
    case WRetry => 3
    case WRegrab => 4
    case WGrab(_) => 6
    case WSpin(_, spin) => 7 + spin
    case WTryLoad(_) => 8 + SPIN
  }

  /** Wherever the waiter is, it can go on to the end of its call, or fall asleep on the way. */
  lemma {:induction false} AnywhereBreaks(s: State)
    requires Inv(s) && s.signaller == SAdd(0)
    ensures CanBreak(s)
    decreases Rank(s)
  {
    if s.waiter.WIdle? {
      IdleBreaks(s);
    } else if s.waiter.WSleep? && s.count < 0 {
      AsleepBreaks(s);
    } else {
      var wake := s.waiter.WSleep?;
      StepKeeps(s, Wait(wake));
      AnywhereBreaks(Apply(s, Wait(wake)));
      StepsTo(s, Wait(wake));
    }
  }

  /** Which calls of `signal` are safe: every run with positive signals after it keeps the promise exactly if n > 0. */
  lemma SignalSafeIff(s: State, n: nat)
    requires Inv(s) && s.signaller.SIdle?
    ensures !CanBreak(Apply(s, CallSignal(n))) <==> n > 0
  {
    var s1 := Apply(s, CallSignal(n));
    if n > 0 {
      NeverBreaks(s1);
    } else {
      AnywhereBreaks(s1);
    }
  }

  lemma Extend(states: seq<State>, actions: seq<Action>, a: Action) returns (states': seq<State>, actions': seq<Action>)
    requires IsRun(states, actions) && Enabled(states[|actions|], a)
    ensures IsRun(states', actions') && states'[0] == states[0]
    ensures |actions'| == |actions| + 1 && states'[|actions'|] == Apply(states[|actions|], a)
  {
    states', actions' := states + [Apply(states[|actions|], a)], actions + [a];
    forall i | 0 <= i < |actions'| ensures Moves(states'[i], actions'[i], states'[i + 1]) {
      assert i < |actions| ==> Moves(states[i], actions[i], states[i + 1]);
    }
  }

  /** A waiter that finds nothing spins k times. */
  lemma {:induction false} SpinRun(k: nat) returns (states: seq<State>, actions: seq<Action>)
    requires k <= SPIN
    ensures IsRun(states, actions) && states[0] == Init(0)
    ensures states[|actions|] == Init(0).(waiter := WSpin(Forever, SPIN - k))
  {
    if k == 0 {
      states, actions := Extend([Init(0)], [], CallWait(Forever));
    } else {
      states, actions := SpinRun(k - 1);
    }
    states, actions := Extend(states, actions, Wait(false));
  }

  /** One such run: a zero signal to a sleeping waiter lets it through although nothing was ever signalled. */
  lemma ZeroSignalBreaks() returns (states: seq<State>, actions: seq<Action>)
    ensures IsRun(states, actions) && states[0] == Init(0)
    ensures states[|actions|].waits > states[|actions|].signalled
  {
    states, actions := SpinRun(SPIN);
    states, actions := Extend(states, actions, Wait(false));   // spinning over: grab
    states, actions := Extend(states, actions, Wait(false));   // count becomes -1: sleep
    states, actions := Extend(states, actions, CallSignal(0));
    states, actions := Extend(states, actions, Signal);
    states, actions := Extend(states, actions, Signal);        // the kernel semaphore is posted
    states, actions := Extend(states, actions, Wait(true));
  }
}
