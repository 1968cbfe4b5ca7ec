/** What a call of the block queue comes to: how many steps it takes, when it is refused, and how blocks grow. */
module SpscCalls {
  import opened PowersOfTwo
  import opened SpscQueue
  import opened SpscInvariant
  import opened SpscSizing
  import opened SpscTheorems

  // ----- Calls end -----

  /** An upper bound on the steps that the producer's call still takes. */
  function ProducerRank(p: Producer): nat {
    match p
    case PIdle => 0
    case PDone(_, _, _) => 1
    case PPublish(_, _, _) => 2
    case PAdvance(_, _) => 2
    case PStore(_, _, _, _) => 3
    case PBumpNext(_, _, _) => 3
    case PLink(_, _, _) => 3
    case PStoreNext(_, _, _, _) => 4
    case PAlloc(_, _) => 4
    case PLoadNextFront(_, _) => 5
    case PCheckNext(_, _, _) => 6
    case PLoadFront(_, _, _, _, _) => 7
    case PLoadTail(_, _) => 8
  }

  function ConsumerRank(c: Consumer): nat {
    match c
    case CIdle => 0
    case CDone(_, _) => 1
    case CPublish(_, _, _) => 2
    case CPeekRead(_, _) => 2
    case CTake(_, _) => 3
    case CMoveFront(_, _, _) => 4
    case CLoadNextTail(_, _) => 5
    case CLoadNext(_, _) => 6
    case CReloadTail(_, _) => 7
    case CCheckTailBlock(_, _) => 8
    case CLoadTail(_, _, _) => 9
    case CLoadFront(_) => 10
  }

  lemma ProduceCountsDown(cfg: Config, s: State, allocOk: bool)
    requires InRange(s) && !s.prod.PIdle?
    ensures ProducerRank(ProduceStep(cfg, s, allocOk).prod) < ProducerRank(s.prod)
    ensures ProduceStep(cfg, s, allocOk).cons == s.cons
  {
  }

  lemma ConsumeCountsDown(s: State)
    requires InRange(s) && !s.cons.CIdle?
    ensures ConsumerRank(ConsumeStep(s).cons) < ConsumerRank(s.cons)
    ensures ConsumeStep(s).prod == s.prod
  {
  }

  /** The ranks after an action of the run. */
  lemma RankStep(cfg: Config, s: State, a: Action, s': State)
    requires InRange(s) && Enabled(s, a) && s' == Apply(cfg, s, a)
    ensures if a.Enqueue? then ProducerRank(s'.prod) == 8
            else ProducerRank(s'.prod) + (if a.Produce? then 1 else 0) <= ProducerRank(s.prod)
    ensures if a.Dequeue? then ConsumerRank(s'.cons) == 10
            else ConsumerRank(s'.cons) + (if a.Consume? then 1 else 0) <= ConsumerRank(s.cons)
  {
    match a
    case Produce(allocOk) => ProduceCountsDown(cfg, s, allocOk);
    case Consume => ConsumeCountsDown(s);
    case _ =>
  }

  /** How many of the marks from i to j are set. */
  function Count(marks: seq<bool>, i: nat, j: nat): nat
    requires i <= j <= |marks|
    decreases j - i
  {
    if i == j then 0 else Count(marks, i, j - 1) + if marks[j - 1] then 1 else 0
  }

  /** Which actions are steps of the producer, and which of the consumer. */
  function ProducerSteps(actions: seq<Action>): (marks: seq<bool>)
    ensures |marks| == |actions|
  {
    seq(|actions|, k requires 0 <= k < |actions| => actions[k].Produce?)
  }

  function ConsumerSteps(actions: seq<Action>): (marks: seq<bool>)
    ensures |marks| == |actions|
  {
    seq(|actions|, k requires 0 <= k < |actions| => actions[k].Consume?)
  }

  /** A rank that every marked step brings down bounds the number of them. */
  lemma {:induction false} Countdown(ranks: seq<nat>, marks: seq<bool>, i: nat, j: nat)
    requires i <= j < |ranks| == |marks| + 1
    requires forall k | i <= k < j :: ranks[k + 1] + (if marks[k] then 1 else 0) <= ranks[k]
    ensures Count(marks, i, j) + ranks[j] <= ranks[i]
    decreases j - i
  {
    if i < j {
      Countdown(ranks, marks, i, j - 1);
      assert ranks[j - 1 + 1] + (if marks[j - 1] then 1 else 0) <= ranks[j - 1];
    }
  }

  /** Action i calls for the producer, and it does not call again before instant j. */
  ghost predicate InEnqueue(actions: seq<Action>, i: nat, j: nat) {
    i < j <= |actions| && actions[i].Enqueue? && forall k | i < k < j :: !actions[k].Enqueue?
  }

  ghost predicate InDequeue(actions: seq<Action>, i: nat, j: nat) {
    i < j <= |actions| && actions[i].Dequeue? && forall k | i < k < j :: !actions[k].Dequeue?
  }

  ghost function ProducerRanks(states: seq<State>): (ranks: seq<nat>)
    ensures |ranks| == |states|
  {
    seq(|states|, k requires 0 <= k < |states| => ProducerRank(states[k].prod))
  }

  ghost function ConsumerRanks(states: seq<State>): (ranks: seq<nat>)
    ensures |ranks| == |states|
  {
    seq(|states|, k requires 0 <= k < |states| => ConsumerRank(states[k].cons))
  }

  lemma RanksFall(cfg: Config, states: seq<State>, actions: seq<Action>, k: nat)
    requires IsRun(cfg, states, actions) && k < |actions|
    ensures
      var r, marks := ProducerRanks(states), ProducerSteps(actions);
      if actions[k].Enqueue? then r[k + 1] == 8 else r[k + 1] + (if marks[k] then 1 else 0) <= r[k]
    ensures
      var r, marks := ConsumerRanks(states), ConsumerSteps(actions);
      if actions[k].Dequeue? then r[k + 1] == 10 else r[k + 1] + (if marks[k] then 1 else 0) <= r[k]
  {
    RankStep(cfg, states[k], actions[k], states[k + 1]);
  }

  lemma ProducerFalls(cfg: Config, states: seq<State>, actions: seq<Action>, i: nat, j: nat)
    requires IsRun(cfg, states, actions) && InEnqueue(actions, i, j)
    ensures
      var r, marks := ProducerRanks(states), ProducerSteps(actions);
      r[i + 1] == 8 && forall k | i + 1 <= k < j :: r[k + 1] + (if marks[k] then 1 else 0) <= r[k]
  {
    RanksFall(cfg, states, actions, i);
    forall k | i + 1 <= k < j
      ensures ProducerRanks(states)[k + 1] + (if ProducerSteps(actions)[k] then 1 else 0) <= ProducerRanks(states)[k]
    {
      RanksFall(cfg, states, actions, k);
    }
  }

  lemma ConsumerFalls(cfg: Config, states: seq<State>, actions: seq<Action>, i: nat, j: nat)
    requires IsRun(cfg, states, actions) && InDequeue(actions, i, j)
    ensures
      var r, marks := ConsumerRanks(states), ConsumerSteps(actions);
      r[i + 1] == 10 && forall k | i + 1 <= k < j :: r[k + 1] + (if marks[k] then 1 else 0) <= r[k]
  {
    RanksFall(cfg, states, actions, i);
    forall k | i + 1 <= k < j
      ensures ConsumerRanks(states)[k + 1] + (if ConsumerSteps(actions)[k] then 1 else 0) <= ConsumerRanks(states)[k]
    {
      RanksFall(cfg, states, actions, k);
    }
  }

  /** However the threads interleave, an enqueue takes at most eight steps of its own, and is over after eight. */
  lemma EnqueueEnds(cfg: Config, states: seq<State>, actions: seq<Action>, i: nat, j: nat)
    requires IsRun(cfg, states, actions) && InEnqueue(actions, i, j)
    ensures var n := Count(ProducerSteps(actions), i + 1, j); n <= 8 && (n == 8 ==> states[j].prod.PIdle?)
  {
    ProducerFalls(cfg, states, actions, i, j);
    Countdown(ProducerRanks(states), ProducerSteps(actions), i + 1, j);
  }

  /** A dequeue, pop or peek takes at most ten steps of its own, and is over after ten. */
  lemma DequeueEnds(cfg: Config, states: seq<State>, actions: seq<Action>, i: nat, j: nat)
    requires IsRun(cfg, states, actions) && InDequeue(actions, i, j)
    ensures var n := Count(ConsumerSteps(actions), i + 1, j); n <= 10 && (n == 10 ==> states[j].cons.CIdle?)
  {
    ConsumerFalls(cfg, states, actions, i, j);
    Countdown(ConsumerRanks(states), ConsumerSteps(actions), i + 1, j);
  }

  // ----- Refused calls -----

  /** What the producer knows of the call: the element, and whether it may allocate. */
  predicate Remembers(p: Producer, e: Element, canAlloc: bool) {
    match p
    case PIdle => true
    case PLoadTail(x, c) => x == e && c == canAlloc
    case PLoadFront(x, c, _, _, _) => x == e && c == canAlloc
    case PCheckNext(x, c, _) => x == e && c == canAlloc
    case PAlloc(x, _) => x == e && canAlloc
    case PLink(x, _, _) => x == e && canAlloc
    case _ => p.e == e
  }

  /** At instant k memory is refused. */
  predicate Starved(states: seq<State>, actions: seq<Action>, k: nat) {
    k < |actions| && k < |states| && actions[k] == Produce(false) && states[k].prod.PAlloc?
  }

  /** Memory was refused to the call. */
  ghost predicate AllocationFailed(states: seq<State>, actions: seq<Action>, i: nat, j: nat) {
    exists k: nat :: i < k < j && Starved(states, actions, k)
  }

  lemma CallStep(cfg: Config, s: State, a: Action, e: Element, canAlloc: bool)
    requires InRange(s) && Enabled(s, a) && !a.Enqueue? && Remembers(s.prod, e, canAlloc)
    ensures
      var p, p' := s.prod, Apply(cfg, s, a).prod;
      && Remembers(p', e, canAlloc)
      && (canAlloc && p'.PDone? && !p'.ok && !(p.PDone? && !p.ok) ==> a == Produce(false) && p.PAlloc?)
  {
  }

  /**
   In every run, a call that may allocate is refused only if memory was refused to it; so with every allocation
   succeeding it never is.  A call that may not allocate never comes to allocate.  Judged by the call's own arguments.
   */
  lemma {:induction false} RefusedEnqueue(cfg: Config, states: seq<State>, actions: seq<Action>, i: nat, j: nat)
    requires IsRun(cfg, states, actions) && InEnqueue(actions, i, j)
    ensures Remembers(states[j].prod, actions[i].e, actions[i].canAlloc)
    ensures actions[i].canAlloc && states[j].prod.PDone? && !states[j].prod.ok ==>
              AllocationFailed(states, actions, i, j)
    ensures !actions[i].canAlloc ==> !states[j].prod.PAlloc? && !states[j].prod.PLink?
    decreases j
  {
    if j > i + 1 {
      RefusedEnqueue(cfg, states, actions, i, j - 1);
      CallMoves(cfg, states, actions, j - 1, actions[i].e, actions[i].canAlloc);
    }
  }

  lemma CallMoves(cfg: Config, states: seq<State>, actions: seq<Action>, k: nat, e: Element, canAlloc: bool)
    requires IsRun(cfg, states, actions) && k < |actions| && !actions[k].Enqueue?
    requires Remembers(states[k].prod, e, canAlloc)
    ensures Remembers(states[k + 1].prod, e, canAlloc)
    ensures
      var p, p' := states[k].prod, states[k + 1].prod;
      canAlloc && p'.PDone? && !p'.ok && !(p.PDone? && !p.ok) ==> Starved(states, actions, k)
  {
    CallStep(cfg, states[k], actions[k], e, canAlloc);
  }

  /** With every allocation succeeding, a call that may allocate is accepted. */
  lemma EnqueueAccepted(cfg: Config, states: seq<State>, actions: seq<Action>, i: nat, j: nat)
    requires IsRun(cfg, states, actions) && InEnqueue(actions, i, j) && actions[i].canAlloc
    requires forall k | i < k < j :: actions[k] != Produce(false)
    ensures states[j].prod.PDone? ==> states[j].prod.ok
  {
    RefusedEnqueue(cfg, states, actions, i, j);
  }

  // ----- Peeked elements -----

  /** What peek returns is the next element to be dequeued, and was not removed. */
  lemma PeekReport(cfg: Config, states: seq<State>, actions: seq<Action>, i: nat)
    requires IsRun(cfg, states, actions) && Initial(cfg, states[0]) && i < |states|
    requires states[i].cons.CDone? && states[i].cons.peek && states[i].cons.result.Some?
    ensures var h := states[i].hist;
            |h.deq| < |h.enq| && states[i].cons.result.value == h.enq[|h.deq|] && h.got == h.deq
  {
    RunKeeps(cfg, states, actions, i);
  }

  // ----- Growth -----

  lemma GrowthStep(cfg: Config, s: State, a: Action)
    requires InRange(s) && Enabled(s, a)
    ensures
      var m, m' := s.mem, Apply(cfg, s, a).mem;
      || (|m'.blocks| == |m.blocks| && m'.largest == m.largest)
      || (&& |m'.blocks| == |m.blocks| + 1 && m'.blocks[|m.blocks|].size == m'.largest
          && m'.largest == if m.largest >= cfg.maxBlock then m.largest else 2 * m.largest)
  {
  }

  /** m came from m0 by doubling with every block until the maximum. */
  ghost predicate Grown(cfg: Config, m0: Memory, m: Memory) {
    && |m.blocks| >= |m0.blocks|
    && (m.largest < cfg.maxBlock ==> m.largest == Pow2(|m.blocks| - |m0.blocks|) * m0.largest)
    && (m.largest < 2 * cfg.maxBlock || m.largest == m0.largest)
  }

  lemma StillGrown(cfg: Config, m0: Memory, m: Memory, m': Memory)
    requires Grown(cfg, m0, m)
    requires || (|m'.blocks| == |m.blocks| && m'.largest == m.largest)
             || (&& |m'.blocks| == |m.blocks| + 1
                 && m'.largest == if m.largest >= cfg.maxBlock then m.largest else 2 * m.largest)
    ensures Grown(cfg, m0, m')
  {
    var n := |m.blocks| - |m0.blocks|;
    assert Pow2(n + 1) * m0.largest == 2 * (Pow2(n) * m0.largest);
  }

  /** Every further block is twice as large as the last, until the maximum block size is reached. */
  lemma {:induction false} BlocksDouble(cfg: Config, states: seq<State>, actions: seq<Action>, i: nat)
    requires IsRun(cfg, states, actions) && i < |states|
    ensures Grown(cfg, states[0].mem, states[i].mem)
  {
    if i > 0 {
      BlocksDouble(cfg, states, actions, i - 1);
      GrowthStep(cfg, states[i - 1], actions[i - 1]);
      StillGrown(cfg, states[0].mem, states[i - 1].mem, states[i].mem);
    }
  }
}
