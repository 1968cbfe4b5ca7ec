/** The blocking queue: every successful enqueue is followed by a signal, every dequeue preceded by a wait. */
module BlockingQueue {
  import Q = SpscQueue
  import I = SpscInvariant
  import T = SpscTheorems
  import Z = SpscSizing
  import C = SpscCalls
  import S = Semaphore

  /** Where the producer is: outside, inside `inner.enqueue`, inside `sema->signal`. */
  datatype Producer = PIdle | PEnqueue | PSignal

  /** Where the consumer is: outside, inside `sema->wait`, inside `inner.try_dequeue`/`pop`, inside `inner.peek`. */
  datatype Consumer = CIdle | CWait(p: S.Patience) | CTake | CPeek

  /** `asserts` is a history variable: every `assert(success)` has held so far. */
  datatype State = State(q: Q.State, sem: S.State, prod: Producer, cons: Consumer, asserts: bool)

  datatype Action =
    | Enqueue(e: Q.Element, canAlloc: bool)   // try_enqueue or enqueue
    | Produce(allocOk: bool)
    | Dequeue(p: S.Patience)                  // try_dequeue/pop, wait_dequeue, wait_dequeue_timed
    | Peek
    | Consume(wake: bool)

  predicate Enabled(s: State, a: Action) {
    match a
    case Enqueue(_, _) => s.prod.PIdle?
    case Produce(_) => !s.prod.PIdle?
    case Dequeue(_) => s.cons.CIdle?
    case Peek => s.cons.CIdle?
    case Consume(wake) => !s.cons.CIdle? && (s.cons.CWait? && s.sem.waiter.WSleep? && wake ==> s.sem.kernel > 0)
  }

  /** The two threads of the parts follow the phases of the whole. */
  predicate Phased(s: State) {
    && (s.q.prod.PIdle? <==> !s.prod.PEnqueue?)
    && (s.sem.signaller.SIdle? <==> !s.prod.PSignal?)
    && (s.q.cons.CIdle? <==> !s.cons.CTake? && !s.cons.CPeek?)
    && (s.sem.waiter.WIdle? <==> !s.cons.CWait?)
  }

  predicate Aligned(s: State) {
    Q.InRange(s.q) && Phased(s)
  }

  function ProduceStep(cfg: Q.Config, s: State, allocOk: bool): State
    requires Aligned(s) && !s.prod.PIdle?
  {
    if s.prod.PSignal? then
      var sem := S.Apply(s.sem, S.Signal);
      s.(sem := sem, prod := if sem.signaller.SIdle? then PIdle else PSignal)
    else
      var q := Q.Apply(cfg, s.q, Q.Produce(allocOk));
      if !s.q.prod.PDone? then s.(q := q)
      else if s.q.prod.ok then s.(q := q, sem := S.Apply(s.sem, S.CallSignal(1)), prod := PSignal)
      else s.(q := q, prod := PIdle)
  }

  function ConsumeStep(cfg: Q.Config, s: State, wake: bool): State
    requires Aligned(s) && Enabled(s, Consume(wake))
  {
    match s.cons
    case CIdle => s
    case CWait(p) =>
      var sem := S.Apply(s.sem, S.Wait(wake));
      if !s.sem.waiter.WDone? then s.(sem := sem)
      else if s.sem.waiter.ok then s.(sem := sem, q := Q.Apply(cfg, s.q, Q.Dequeue(false)), cons := CTake)
      else if p.Forever? then s.(sem := S.Apply(sem, S.CallWait(p)))   // while (!sema->wait());
      else s.(sem := sem, cons := CIdle)
    case CTake =>
      var q := Q.Apply(cfg, s.q, Q.Consume);
      if !s.q.cons.CDone? then s.(q := q)
      else s.(q := q, cons := CIdle, asserts := s.asserts && s.q.cons.result.Some?)
    case CPeek =>
      var q := Q.Apply(cfg, s.q, Q.Consume);
      s.(q := q, cons := if s.q.cons.CDone? then CIdle else CPeek)
  }

  function Apply(cfg: Q.Config, s: State, a: Action): State
    requires Aligned(s) && Enabled(s, a)
  {
    match a
    case Enqueue(e, canAlloc) => s.(q := Q.Apply(cfg, s.q, Q.Enqueue(e, canAlloc)), prod := PEnqueue)
    case Produce(allocOk) => ProduceStep(cfg, s, allocOk)
    case Dequeue(p) => s.(sem := S.Apply(s.sem, S.CallWait(p)), cons := CWait(p))
    case Peek => s.(q := Q.Apply(cfg, s.q, Q.Dequeue(true)), cons := CPeek)
    case Consume(wake) => ConsumeStep(cfg, s, wake)
  }

  /** Waits granted to the consumer that have not yet been turned into a returned element. */
  function Granted(s: State): nat {
    if s.cons.CTake? || s.sem.waiter == S.WDone(true) then 1 else 0
  }

  /** How queue and semaphore stay in step. */
  ghost predicate Balanced(s: State) {
    var h := s.q.hist;
    && Phased(s) && S.Inv(s.sem) && s.asserts
    // one signal per successful enqueue, one wait per element handed out
    && |h.sent| == s.sem.signalled + (if s.sem.signaller.SAdd? then 1 else 0)
    && s.sem.waits == |h.got| + Granted(s)
    && (s.sem.signaller.SAdd? ==> s.sem.signaller.n == 1)
    // inside a take the queue has not been empty, unless the element is already out
    && (s.cons.CTake? ==> Supplied(s.q))
    && (s.cons.CPeek? ==> Peeking(s.q.cons))
  }

  ghost predicate Supplied(q: Q.State) {
    if q.cons.CDone? then q.cons.result.Some? && !q.cons.peek else !q.hist.emptySeen && Taking(q.cons)
  }

  ghost predicate Inv(cfg: Q.Config, s: State) {
    I.Inv(cfg, s.q) && Balanced(s)
  }

  /** What the balance needs to know of the inner queue. */
  ghost predicate Telling(q: Q.State) {
    && Q.InRange(q) && I.OrderOk(q)
    && (q.cons.CPublish? ==> q.cons.result.Some?)
    && (q.cons.CDone? && q.cons.result.None? ==> q.hist.emptySeen)
  }

  lemma InnerTells(cfg: Q.Config, q: Q.State)
    requires I.Inv(cfg, q)
    ensures Telling(q)
  {
  }

  /** The inner queue is inside a call that takes an element, not one that peeks. */
  predicate Taking(c: Q.Consumer) {
    match c
    case CIdle => false
    case CLoadFront(peek) => !peek
    case CLoadTail(peek, _, _) => !peek
    case CCheckTailBlock(peek, _) => !peek
    case CReloadTail(peek, _) => !peek
    case CLoadNext(peek, _) => !peek
    case CLoadNextTail(peek, _) => !peek
    case CMoveFront(_, _, _) => true
    case CTake(_, _) => true
    case CPublish(_, _, _) => true
    case CPeekRead(_, _) => false
    case CDone(peek, _) => !peek
  }

  predicate Peeking(c: Q.Consumer) {
    !c.CIdle? && !Taking(c)
  }

  lemma ProduceLeaves(cfg: Q.Config, q: Q.State, allocOk: bool)
    requires Q.InRange(q)
    ensures var q' := Q.ProduceStep(cfg, q, allocOk);
            q'.cons == q.cons && q'.hist.got == q.hist.got && q'.hist.deq == q.hist.deq
  {
  }

  lemma ProduceCounts(cfg: Q.Config, q: Q.State, allocOk: bool)
    requires Q.InRange(q) && !q.prod.PIdle?
    ensures var q' := Q.ProduceStep(cfg, q, allocOk);
            && |q'.hist.sent| == |q.hist.sent| + (if q.prod.PDone? && q.prod.ok then 1 else 0)
            && |q.hist.enq| <= |q'.hist.enq| && (q'.prod.PIdle? <==> q.prod.PDone?)
  {
  }

  /** What the inner queue's producer step means for the whole. */
  lemma InnerProduce(cfg: Q.Config, q: Q.State, a: Q.Action)
    requires Q.InRange(q) && Q.Enabled(q, a) && (a.Enqueue? || a.Produce?)
    ensures var q' := Q.Apply(cfg, q, a);
            && q'.cons == q.cons && q'.hist.got == q.hist.got && q'.hist.deq == q.hist.deq
            && (q'.hist.emptySeen ==> q.hist.emptySeen || |q'.hist.enq| <= |q'.hist.deq|)
            && |q'.hist.sent| == |q.hist.sent| + (if q.prod.PDone? && q.prod.ok then 1 else 0)
            && |q.hist.enq| <= |q'.hist.enq| && (q'.prod.PIdle? <==> q.prod.PDone?)
  {
    if a.Produce? {
      ProduceLeaves(cfg, q, a.allocOk);
      ProduceCounts(cfg, q, a.allocOk);
    }
    T.MonitorStep(cfg, q, a);
  }

  /** What the inner queue's consumer step means for the whole. */
  lemma InnerConsume(cfg: Q.Config, q: Q.State)
    requires Q.InRange(q) && !q.cons.CIdle? && (q.cons.CPublish? ==> q.cons.result.Some?)
    ensures var q' := Q.Apply(cfg, q, Q.Consume);
            && q'.prod == q.prod && q'.hist.sent == q.hist.sent && q'.hist.enq == q.hist.enq
            && (q'.cons.CIdle? <==> q.cons.CDone?)
            && |q'.hist.got| == |q.hist.got| + (if q.cons.CDone? && !q.cons.peek && q.cons.result.Some? then 1 else 0)
            && (!q.cons.CDone? ==> Taking(q'.cons) == Taking(q.cons))
            && (q.cons.CPublish? ==> q'.cons.CDone? && q'.cons.result.Some? && !q'.cons.peek)
            && (!q.cons.CPublish? ==>
                  q'.hist.deq == q.hist.deq && (q'.hist.emptySeen ==> q.hist.emptySeen || |q.hist.enq| <= |q.hist.deq|))
  {
  }

  /** While the consumer holds a granted wait it has not used, the queue is not empty. */
  lemma GrantedMeansElement(s: State)
    requires Balanced(s) && I.OrderOk(s.q) && Granted(s) == 1 && !(s.cons.CTake? && s.q.cons.CDone?)
    ensures |s.q.hist.deq| < |s.q.hist.enq|
  {
  }

  lemma SignalBalanced(cfg: Q.Config, s: State, allocOk: bool)
    requires Balanced(s) && Telling(s.q) && s.prod.PSignal?
    ensures Balanced(Apply(cfg, s, Produce(allocOk)))
  {
    S.StepKeeps(s.sem, S.Signal);
  }

  lemma CallEnqueueBalanced(cfg: Q.Config, s: State, a: Action)
    requires Balanced(s) && Telling(s.q) && a.Enqueue? && Enabled(s, a)
    ensures Balanced(Apply(cfg, s, a))
  {
    if s.cons.CTake? && !s.q.cons.CDone? {
      GrantedMeansElement(s);
    }
    InnerProduce(cfg, s.q, Q.Enqueue(a.e, a.canAlloc));
  }

  lemma EnqueueBalanced(cfg: Q.Config, s: State, allocOk: bool)
    requires Balanced(s) && Telling(s.q) && s.prod.PEnqueue?
    ensures Balanced(Apply(cfg, s, Produce(allocOk)))
  {
    if s.cons.CTake? && !s.q.cons.CDone? {
      GrantedMeansElement(s);
    }
    InnerProduce(cfg, s.q, Q.Produce(allocOk));
  }

  lemma CallBalanced(cfg: Q.Config, s: State, a: Action)
    requires Balanced(s) && Telling(s.q) && Enabled(s, a) && (a.Dequeue? || a.Peek?)
    ensures Balanced(Apply(cfg, s, a))
  {
    if a.Dequeue? {
      S.StepKeeps(s.sem, S.CallWait(a.p));
    }
  }

  /** A granted wait leads into the queue. */
  lemma GrantBalanced(cfg: Q.Config, s: State, wake: bool)
    requires Balanced(s) && Telling(s.q) && s.cons.CWait? && s.sem.waiter == S.WDone(true)
    ensures Balanced(Apply(cfg, s, Consume(wake)))
  {
    S.StepKeeps(s.sem, S.Wait(wake));
    GrantedMeansElement(s);
  }

  /** The consumer's steps inside the semaphore. */
  lemma WaitBalanced(cfg: Q.Config, s: State, wake: bool)
    requires Balanced(s) && Telling(s.q) && Enabled(s, Consume(wake)) && s.cons.CWait? && s.sem.waiter != S.WDone(true)
    ensures Balanced(Apply(cfg, s, Consume(wake)))
  {
    var sem := S.Apply(s.sem, S.Wait(wake));
    S.StepKeeps(s.sem, S.Wait(wake));
    assert sem.waits == s.sem.waits + (if sem.waiter == S.WDone(true) then 1 else 0);
    assert sem.signalled == s.sem.signalled && sem.signaller == s.sem.signaller;
    if s.sem.waiter.WDone? {
      S.StepKeeps(sem, S.CallWait(s.cons.p));
    }
  }

  /** The consumer's steps inside the queue. */
  lemma TakeBalanced(cfg: Q.Config, s: State, wake: bool)
    requires Balanced(s) && Telling(s.q) && (s.cons.CTake? || s.cons.CPeek?)
    requires Telling(Q.Apply(cfg, s.q, Q.Consume))
    ensures Balanced(Apply(cfg, s, Consume(wake)))
  {
    if s.cons.CTake? && !s.q.cons.CDone? {
      GrantedMeansElement(s);
    }
    InnerConsume(cfg, s.q);
  }

  /** What the step does to the inner queue, if anything. */
  function InnerAction(s: State, a: Action): (r: seq<Q.Action>) {
    match a
    case Enqueue(e, canAlloc) => [Q.Enqueue(e, canAlloc)]
    case Produce(allocOk) => if s.prod.PSignal? then [] else [Q.Produce(allocOk)]
    case Dequeue(_) => []
    case Peek => [Q.Dequeue(true)]
    case Consume(_) =>
      if !s.cons.CWait? then [Q.Consume] else if s.sem.waiter == S.WDone(true) then [Q.Dequeue(false)] else []
  }

  lemma InnerMoves(cfg: Q.Config, s: State, a: Action)
    requires Aligned(s) && Enabled(s, a)
    ensures
      var inner := InnerAction(s, a);
      if inner == [] then Apply(cfg, s, a).q == s.q
      else Q.Enabled(s.q, inner[0]) && Apply(cfg, s, a).q == Q.Apply(cfg, s.q, inner[0])
  {
  }

  lemma QueueKeeps(cfg: Q.Config, s: State, a: Action)
    requires I.Inv(cfg, s.q) && Aligned(s) && Enabled(s, a)
    ensures I.Inv(cfg, Apply(cfg, s, a).q)
  {
    InnerMoves(cfg, s, a);
    if InnerAction(s, a) != [] {
      T.StepKeeps(cfg, s.q, InnerAction(s, a)[0]);
    }
  }

  lemma BalanceKeeps(cfg: Q.Config, s: State, a: Action)
    requires Balanced(s) && Telling(s.q) && Enabled(s, a) && Telling(Apply(cfg, s, a).q)
    ensures Balanced(Apply(cfg, s, a))
  {
    match a
    case Enqueue(_, _) => CallEnqueueBalanced(cfg, s, a);
    case Produce(allocOk) =>
      if s.prod.PSignal? {
        SignalBalanced(cfg, s, allocOk);
      } else {
        EnqueueBalanced(cfg, s, allocOk);
      }
    case Dequeue(_) => CallBalanced(cfg, s, a);
    case Peek => CallBalanced(cfg, s, a);
    case Consume(wake) =>
      if s.cons.CWait? && s.sem.waiter == S.WDone(true) {
        GrantBalanced(cfg, s, wake);
      } else if s.cons.CWait? {
        WaitBalanced(cfg, s, wake);
      } else {
        InnerMoves(cfg, s, a);
        TakeBalanced(cfg, s, wake);
      }
  }

  lemma StepKeeps(cfg: Q.Config, s: State, a: Action)
    requires Inv(cfg, s) && Enabled(s, a)
    ensures Aligned(s) && Inv(cfg, Apply(cfg, s, a))
  {
    InnerTells(cfg, s.q);
    QueueKeeps(cfg, s, a);
    InnerTells(cfg, Apply(cfg, s, a).q);
    BalanceKeeps(cfg, s, a);
  }

  ghost predicate Initial(cfg: Q.Config, s: State) {
    Z.Initial(cfg, s.q) && s == State(s.q, S.Init(0), PIdle, CIdle, true)
  }

  ghost predicate IsRun(cfg: Q.Config, states: seq<State>, actions: seq<Action>) {
    && |states| == |actions| + 1
    && forall i | 0 <= i < |actions| ::
         Aligned(states[i]) && Enabled(states[i], actions[i]) && states[i + 1] == Apply(cfg, states[i], actions[i])
  }

  lemma {:induction false} RunKeeps(cfg: Q.Config, states: seq<State>, actions: seq<Action>, i: nat)
    requires IsRun(cfg, states, actions) && Initial(cfg, states[0]) && i < |states|
    ensures Inv(cfg, states[i])
  {
    if i == 0 {
      T.InitialKeeps(cfg, states[0].q);
    } else {
      RunKeeps(cfg, states, actions, i - 1);
      StepKeeps(cfg, states[i - 1], actions[i - 1]);
    }
  }

  /**
   In every run of the blocking queue each `assert(success)` after a granted wait holds, so does the
   semaphore's own assertion, and no more elements are handed out than were signalled.
   */
  lemma GrantedWaitsSucceed(cfg: Q.Config, states: seq<State>, actions: seq<Action>, i: nat)
    requires IsRun(cfg, states, actions) && Initial(cfg, states[0]) && i < |states|
    ensures var s := states[i];
            && s.asserts && s.sem.asserts
            && |s.q.hist.got| <= s.sem.waits <= s.sem.signalled <= |s.q.hist.sent|
            && (s.cons.CTake? && s.q.cons.CDone? ==> s.q.cons.result.Some?)
  {
    RunKeeps(cfg, states, actions, i);
  }

  /**
   In every run, a consumer asleep in its wait has a kernel signal there or on its way if the queue holds an element,
   unless the producer is still inside the call that put it in, and then the signal is to come.
   */
  lemma NoConsumerForgotten(cfg: Q.Config, states: seq<State>, actions: seq<Action>, i: nat)
    requires IsRun(cfg, states, actions) && Initial(cfg, states[0]) && i < |states|
    requires states[i].cons.CWait? && states[i].sem.waiter.WSleep?
    ensures var s := states[i];
            |s.q.hist.enq| > |s.q.hist.deq| ==>
              s.sem.kernel > 0 || s.sem.signaller.SPost? || s.sem.signaller.SAdd? || (s.q.prod.PDone? && s.q.prod.ok)
    ensures var s := states[i];
            s.prod.PIdle? ==> (s.sem.kernel > 0 <==> |s.q.hist.enq| > |s.q.hist.deq|)
  {
    RunKeeps(cfg, states, actions, i);
    InnerTells(cfg, states[i].q);
  }

  // ----- What a dequeue comes to -----

  /** Action i calls for the consumer, and it does not call again before instant j. */
  ghost predicate InDequeue(actions: seq<Action>, i: nat, j: nat) {
    && i < j <= |actions| && actions[i].Dequeue?
    && forall k | i < k < j :: !actions[k].Dequeue? && !actions[k].Peek?
  }

  /** Every element whose enqueue has been signalled has been handed out. */
  predicate Drained(s: State) {
    && S.Exhausted(s.sem)
    && |s.q.hist.sent| == |s.q.hist.got| + if s.sem.signaller.SAdd? then 1 else 0
  }

  ghost predicate DrainedBetween(states: seq<State>, i: nat, j: nat) {
    exists k: nat :: i < k < j && k < |states| && Drained(states[k])
  }

  predicate TimesOut(states: seq<State>, actions: seq<Action>, k: nat) {
    && k < |actions| && k < |states| && actions[k] == Consume(false)
    && states[k].cons.CWait? && states[k].sem.waiter.WSleep?
  }

  ghost predicate TimedOutBetween(states: seq<State>, actions: seq<Action>, i: nat, j: nat) {
    exists k: nat :: i < k < j && TimesOut(states, actions, k)
  }

  /** The consumer's step, or the producer's, while the consumer waits. */
  lemma WaitingStep(cfg: Q.Config, s: State, a: Action, p: S.Patience)
    requires Balanced(s) && Telling(s.q) && Enabled(s, a) && !a.Dequeue? && !a.Peek?
    requires s.cons == CWait(p) && S.Within(s.sem.waiter, p)
    ensures
      var s' := Apply(cfg, s, a);
      && s'.q.hist.got == s.q.hist.got
      && (s'.cons == CWait(p) || s'.cons.CTake? || s'.cons.CIdle?)
      && (s'.cons.CIdle? ==> s.sem.waiter == S.WDone(false) && !p.Forever?)
      && (s'.cons.CWait? ==> WaitingOn(s, a, s', p))
  {
    if a.Consume? && !s.sem.waiter.WDone? {
      S.WaitMoves(s.sem, S.Wait(a.wake), p);
    } else if a.Produce? && s.prod.PSignal? {
      S.WaitMoves(s.sem, S.Signal, p);
    } else if a.Produce? || a.Enqueue? {
      ProducerLeaves(cfg, s, a);
    }
  }

  /** What a step says of a wait that goes on. */
  predicate WaitingOn(s: State, a: Action, s': State, p: S.Patience) {
    && S.Within(s'.sem.waiter, p)
    && (s'.sem.waiter == S.WDone(false) && s.sem.waiter != S.WDone(false) ==> Drained(s))
    && (S.Disappointed(s'.sem.waiter, p) && !S.Disappointed(s.sem.waiter, p) ==>
          a == Consume(false) && s.sem.waiter.WSleep?)
  }

  /** A step of the producer inside the queue leaves the waiter and what was handed out alone. */
  lemma ProducerLeaves(cfg: Q.Config, s: State, a: Action)
    requires Aligned(s) && Enabled(s, a) && (a.Enqueue? || (a.Produce? && !s.prod.PSignal?))
    ensures
      var s' := Apply(cfg, s, a);
      s'.cons == s.cons && s'.sem.waiter == s.sem.waiter && s'.q.hist.got == s.q.hist.got
  {
    InnerProduce(cfg, s.q, if a.Enqueue? then Q.Enqueue(a.e, a.canAlloc) else Q.Produce(a.allocOk));
  }

  /** A step while the consumer takes its element. */
  lemma TakingStep(cfg: Q.Config, s: State, a: Action)
    requires Balanced(s) && Telling(s.q) && Enabled(s, a) && !a.Dequeue? && !a.Peek? && s.cons.CTake?
    ensures
      var s' := Apply(cfg, s, a);
      if s'.cons.CIdle? then |s'.q.hist.got| == |s.q.hist.got| + 1
      else s'.cons.CTake? && s'.q.hist.got == s.q.hist.got
  {
    if a.Consume? {
      InnerConsume(cfg, s.q);
    } else if !s.prod.PSignal? {
      ProducerLeaves(cfg, s, a);
    }
  }

  lemma RestingStep(cfg: Q.Config, s: State, a: Action)
    requires Aligned(s) && Enabled(s, a) && !a.Dequeue? && !a.Peek? && s.cons.CIdle?
    ensures Apply(cfg, s, a).cons.CIdle? && Apply(cfg, s, a).q.hist.got == s.q.hist.got
  {
    if !s.prod.PSignal? {
      ProducerLeaves(cfg, s, a);
    }
  }

  /** Where a dequeue called at instant i is at instant j, judged by the call's own argument. */
  ghost predicate Outcome(states: seq<State>, actions: seq<Action>, i: nat, j: nat)
    requires i < |actions| && actions[i].Dequeue? && i < j < |states|
  {
    var s, p, before := states[j], actions[i].p, |states[i].q.hist.got|;
    match s.cons
    case CWait(q) =>
      && q == p && |s.q.hist.got| == before && S.Within(s.sem.waiter, p)
      && (s.sem.waiter == S.WDone(false) ==> DrainedBetween(states, i, j))
      && (S.Disappointed(s.sem.waiter, p) ==> TimedOutBetween(states, actions, i, j))
    case CTake => |s.q.hist.got| == before
    case CPeek => false
    case CIdle =>
      || |s.q.hist.got| == before + 1
      || (&& |s.q.hist.got| == before && !p.Forever? && DrainedBetween(states, i, j)
          && (p.Timed? ==> TimedOutBetween(states, actions, i, j)))
  }

  lemma OutcomeStep(cfg: Q.Config, states: seq<State>, actions: seq<Action>, i: nat, j: nat)
    requires |states| == |actions| + 1 && InDequeue(actions, i, j) && MovesAt(cfg, states, actions, j)
    requires !actions[j].Dequeue? && !actions[j].Peek? && Outcome(states, actions, i, j)
    ensures Outcome(states, actions, i, j + 1)
  {
    var s, a := states[j], actions[j];
    assert Drained(s) ==> DrainedBetween(states, i, j + 1);
    assert TimesOut(states, actions, j) ==> TimedOutBetween(states, actions, i, j + 1);
    assert DrainedBetween(states, i, j) ==> DrainedBetween(states, i, j + 1);
    assert TimedOutBetween(states, actions, i, j) ==> TimedOutBetween(states, actions, i, j + 1);
    match s.cons
    case CWait(p) => WaitingStep(cfg, s, a, p);
    case CTake => TakingStep(cfg, s, a);
    case CIdle => RestingStep(cfg, s, a);
  }

  /** What the run says of step k, as far as the calls are concerned. */
  ghost predicate MovesAt(cfg: Q.Config, states: seq<State>, actions: seq<Action>, k: nat) {
    && k < |actions| && k + 1 < |states|
    && Balanced(states[k]) && Telling(states[k].q) && Enabled(states[k], actions[k])
    && states[k + 1] == Apply(cfg, states[k], actions[k])
  }

  ghost predicate Moves(cfg: Q.Config, states: seq<State>, actions: seq<Action>) {
    |states| == |actions| + 1 && forall k: nat | k < |actions| :: MovesAt(cfg, states, actions, k)
  }

  lemma RunMoves(cfg: Q.Config, states: seq<State>, actions: seq<Action>)
    requires IsRun(cfg, states, actions) && Initial(cfg, states[0])
    ensures Moves(cfg, states, actions)
  {
    forall k: nat | k < |actions| ensures MovesAt(cfg, states, actions, k) {
      RunKeeps(cfg, states, actions, k);
      InnerTells(cfg, states[k].q);
    }
  }

  lemma {:induction false} OutcomeOf(cfg: Q.Config, states: seq<State>, actions: seq<Action>, i: nat, j: nat)
    requires Moves(cfg, states, actions) && InDequeue(actions, i, j)
    ensures Outcome(states, actions, i, j)
    decreases j
  {
    assert MovesAt(cfg, states, actions, j - 1);
    if j > i + 1 {
      OutcomeOf(cfg, states, actions, i, j - 1);
      OutcomeStep(cfg, states, actions, i, j - 1);
    } else {
      DequeueCalled(cfg, states[i], actions[i]);
    }
  }

  /**
   In every run a dequeue that has returned either handed out one more element, or it may fail, and at an instant of the
   call every element signalled had been handed out; a timed one fails only after its kernel wait timed out.
   */
  lemma DequeueOutcome(cfg: Q.Config, states: seq<State>, actions: seq<Action>, i: nat, j: nat)
    requires IsRun(cfg, states, actions) && Initial(cfg, states[0]) && InDequeue(actions, i, j)
    ensures Outcome(states, actions, i, j)
  {
    RunMoves(cfg, states, actions);
    OutcomeOf(cfg, states, actions, i, j);
  }

  lemma DequeueCalled(cfg: Q.Config, s: State, a: Action)
    requires Aligned(s) && Enabled(s, a) && a.Dequeue?
    ensures
      var s' := Apply(cfg, s, a);
      s'.cons == CWait(a.p) && s'.sem.waiter == S.WTryLoad(a.p) && s'.q == s.q
  {
  }

  // ----- What an enqueue comes to -----

  ghost predicate InEnqueue(actions: seq<Action>, i: nat, j: nat) {
    i < j <= |actions| && actions[i].Enqueue? && forall k | i < k < j :: !actions[k].Enqueue?
  }

  /** At instant k memory is refused. */
  predicate Starved(states: seq<State>, actions: seq<Action>, k: nat) {
    k < |actions| && k < |states| && actions[k] == Produce(false) && states[k].q.prod.PAlloc?
  }

  ghost predicate StarvedBetween(states: seq<State>, actions: seq<Action>, i: nat, j: nat) {
    exists k: nat :: i < k < j && Starved(states, actions, k)
  }

  /** Where an enqueue called at instant i is at instant j, judged by the call's own arguments. */
  ghost predicate EnqueueAt(states: seq<State>, actions: seq<Action>, i: nat, j: nat)
    requires i < |actions| && actions[i].Enqueue? && i < j < |states|
  {
    var s, a, before := states[j], actions[i], |states[i].q.hist.sent|;
    match s.prod
    case PEnqueue =>
      && |s.q.hist.sent| == before && C.Remembers(s.q.prod, a.e, a.canAlloc)
      && (a.canAlloc && s.q.prod.PDone? && !s.q.prod.ok ==> StarvedBetween(states, actions, i, j))
    case PSignal => |s.q.hist.sent| == before + 1
    case PIdle =>
      || |s.q.hist.sent| == before + 1
      || (|s.q.hist.sent| == before && (a.canAlloc ==> StarvedBetween(states, actions, i, j)))
  }

  /** A step while the producer is inside the queue. */
  lemma EnqueueingStep(cfg: Q.Config, s: State, a: Action, e: Q.Element, canAlloc: bool)
    requires Balanced(s) && Telling(s.q) && Enabled(s, a) && !a.Enqueue? && s.prod.PEnqueue?
    requires C.Remembers(s.q.prod, e, canAlloc)
    ensures
      var s', p := Apply(cfg, s, a), s.q.prod;
      && !(s'.prod.PSignal? && !(p.PDone? && p.ok)) && !(s'.prod.PIdle? && !(p.PDone? && !p.ok))
      && |s'.q.hist.sent| == |s.q.hist.sent| + (if s'.prod.PSignal? then 1 else 0)
      && (s'.prod.PEnqueue? ==> C.Remembers(s'.q.prod, e, canAlloc))
      && (s'.prod.PEnqueue? && canAlloc && s'.q.prod.PDone? && !s'.q.prod.ok && !(p.PDone? && !p.ok) ==>
            a == Produce(false) && p.PAlloc?)
  {
    if a.Produce? {
      C.CallStep(cfg, s.q, Q.Produce(a.allocOk), e, canAlloc);
      InnerProduce(cfg, s.q, Q.Produce(a.allocOk));
    } else {
      ConsumerLeaves(cfg, s, a);
    }
  }

  /** A step of the consumer leaves the producer alone. */
  lemma ConsumerLeaves(cfg: Q.Config, s: State, a: Action)
    requires Aligned(s) && Telling(s.q) && Enabled(s, a) && (a.Dequeue? || a.Peek? || a.Consume?)
    ensures
      var s' := Apply(cfg, s, a);
      && s'.prod == s.prod && s'.q.prod == s.q.prod && s'.q.hist.sent == s.q.hist.sent
      && s'.sem.signaller == s.sem.signaller
  {
    if a.Consume? && !s.cons.CWait? {
      InnerConsume(cfg, s.q);
    }
  }

  /** A step while the producer signals or is outside. */
  lemma SignallingStep(cfg: Q.Config, s: State, a: Action)
    requires Balanced(s) && Telling(s.q) && Enabled(s, a) && !a.Enqueue? && !s.prod.PEnqueue?
    ensures
      var s' := Apply(cfg, s, a);
      && !s'.prod.PEnqueue? && s'.q.hist.sent == s.q.hist.sent && (s.prod.PIdle? ==> s'.prod.PIdle?)
  {
    if !a.Produce? {
      ConsumerLeaves(cfg, s, a);
    }
  }

  lemma EnqueueStep(cfg: Q.Config, states: seq<State>, actions: seq<Action>, i: nat, j: nat)
    requires |states| == |actions| + 1 && InEnqueue(actions, i, j) && MovesAt(cfg, states, actions, j)
    requires !actions[j].Enqueue? && EnqueueAt(states, actions, i, j)
    ensures EnqueueAt(states, actions, i, j + 1)
  {
    var s, a := states[j], actions[j];
    assert Starved(states, actions, j) ==> StarvedBetween(states, actions, i, j + 1);
    assert StarvedBetween(states, actions, i, j) ==> StarvedBetween(states, actions, i, j + 1);
    if s.prod.PEnqueue? {
      EnqueueingStep(cfg, s, a, actions[i].e, actions[i].canAlloc);
    } else {
      SignallingStep(cfg, s, a);
    }
  }

  lemma {:induction false} EnqueueOf(cfg: Q.Config, states: seq<State>, actions: seq<Action>, i: nat, j: nat)
    requires Moves(cfg, states, actions) && InEnqueue(actions, i, j)
    ensures EnqueueAt(states, actions, i, j)
    decreases j
  {
    assert MovesAt(cfg, states, actions, j - 1);
    if j > i + 1 {
      EnqueueOf(cfg, states, actions, i, j - 1);
      EnqueueStep(cfg, states, actions, i, j - 1);
    } else {
      EnqueueCalled(cfg, states[i], actions[i]);
    }
  }

  /**
   In every run an enqueue that has returned put in one more element, or was refused; one that may allocate was refused
   only if memory was refused to it.
   */
  lemma EnqueueOutcome(cfg: Q.Config, states: seq<State>, actions: seq<Action>, i: nat, j: nat)
    requires IsRun(cfg, states, actions) && Initial(cfg, states[0]) && InEnqueue(actions, i, j)
    ensures EnqueueAt(states, actions, i, j)
  {
    RunMoves(cfg, states, actions);
    EnqueueOf(cfg, states, actions, i, j);
  }

  lemma EnqueueCalled(cfg: Q.Config, s: State, a: Action)
    requires Aligned(s) && Enabled(s, a) && a.Enqueue?
    ensures
      var s' := Apply(cfg, s, a);
      s'.prod == PEnqueue && s'.q.prod == Q.PLoadTail(a.e, a.canAlloc) && s'.q.hist.sent == s.q.hist.sent
  {
  }
}
