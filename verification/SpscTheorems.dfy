/** What holds in every run of one producer and one consumer on the block queue. */
module SpscTheorems {
  import opened SpscQueue
  import opened SpscInvariant
  import opened SpscSteps
  import opened SpscSizing

  lemma InitialKeeps(cfg: Config, s: State)
    requires Initial(cfg, s)
    ensures Inv(cfg, s)
  {
    forall i | 0 <= i < |s.hist.ring| ensures LinkOk(s, i) {
    }
    forall i | 0 <= i < |s.hist.ring| ensures PartOk(s, i) {
      assert s.mem.blocks[i] == FreshBlock(s.mem.largest, if i + 1 < |s.mem.blocks| then i + 1 else 0);
    }
    forall b, j | 0 <= b < |s.mem.blocks| && 0 <= j < s.mem.blocks[b].size ensures SlotOk(s, b, j) {
    }
  }

  lemma StepKeeps(cfg: Config, s: State, a: Action)
    requires Inv(cfg, s) && Enabled(s, a)
    ensures Inv(cfg, Apply(cfg, s, a))
  {
    match a
    case Enqueue(_, _) => EnqueueKeeps(cfg, s, a);
    case Dequeue(_) => DequeueKeeps(cfg, s, a);
    case Produce(allocOk) => ProduceKeeps(cfg, s, allocOk);
    case Consume => ConsumeKeeps(cfg, s);
  }

  lemma EnqueueKeeps(cfg: Config, s: State, a: Action)
    requires Inv(cfg, s) && Enabled(s, a) && a.Enqueue?
    ensures Inv(cfg, Apply(cfg, s, a))
  {
    QuietProducer(cfg, s, Apply(cfg, s, a));
  }

  lemma DequeueKeeps(cfg: Config, s: State, a: Action)
    requires Inv(cfg, s) && Enabled(s, a) && a.Dequeue?
    ensures Inv(cfg, Apply(cfg, s, a))
  {
    QuietConsumer(cfg, s, Apply(cfg, s, a));
  }

  lemma ProduceKeeps(cfg: Config, s: State, allocOk: bool)
    requires Inv(cfg, s) && !s.prod.PIdle?
    ensures Inv(cfg, Apply(cfg, s, Produce(allocOk)))
  {
    match s.prod
    case PLoadTail(_, _) => PLoadTailKeeps(cfg, s, allocOk);
    case PLoadFront(_, _, _, _, _) => PLoadFrontKeeps(cfg, s, allocOk);
    case PStore(_, _, _, _) => PStoreKeeps(cfg, s, allocOk);
    case PPublish(_, _, _) => PPublishKeeps(cfg, s, allocOk);
    case PCheckNext(_, _, _) => PCheckNextKeeps(cfg, s, allocOk);
    case PLoadNextFront(_, _) => PLoadNextFrontKeeps(cfg, s, allocOk);
    case PStoreNext(_, _, _, _) => PStoreNextKeeps(cfg, s, allocOk);
    case PBumpNext(_, _, _) => PBumpNextKeeps(cfg, s, allocOk);
    case PAdvance(_, _) => PAdvanceKeeps(cfg, s, allocOk);
    case PAlloc(_, _) => PAllocKeeps(cfg, s, allocOk);
    case PLink(_, _, _) => PLinkKeeps(cfg, s, allocOk);
    case PDone(_, _, _) => PDoneKeeps(cfg, s, allocOk);
  }

  lemma ConsumeKeeps(cfg: Config, s: State)
    requires Inv(cfg, s) && !s.cons.CIdle?
    ensures Inv(cfg, Apply(cfg, s, Consume))
  {
    match s.cons
    case CLoadFront(_) => CLoadFrontKeeps(cfg, s);
    case CLoadTail(_, _, _) => CLoadTailKeeps(cfg, s);
    case CCheckTailBlock(_, _) => CCheckTailBlockKeeps(cfg, s);
    case CReloadTail(_, _) => CReloadTailKeeps(cfg, s);
    case CLoadNext(_, _) => CLoadNextKeeps(cfg, s);
    case CLoadNextTail(_, _) => CLoadNextTailKeeps(cfg, s);
    case CMoveFront(_, _, _) => CMoveFrontKeeps(cfg, s);
    case CTake(_, _) => CTakeKeeps(cfg, s);
    case CPublish(_, _, _) => CPublishKeeps(cfg, s);
    case CPeekRead(_, _) => CPeekReadKeeps(cfg, s);
    case CDone(_, _) => CDoneKeeps(cfg, s);
  }

  /** The invariant holds in every state of every run. */
  lemma {:induction false} RunKeeps(cfg: Config, states: seq<State>, actions: seq<Action>, i: nat)
    requires IsRun(cfg, states, actions) && Initial(cfg, states[0]) && i < |states|
    ensures Inv(cfg, states[i])
  {
    if i == 0 {
      InitialKeeps(cfg, states[0]);
    } else {
      RunKeeps(cfg, states, actions, i - 1);
      StepKeeps(cfg, states[i - 1], actions[i - 1]);
    }
  }

  /**
   First in, first out.  The elements handed out are, in order, the first of the elements put in; the elements
   whose enqueue returned true are, in order, all of those except at most the one being enqueued right now.
   */
  lemma Fifo(cfg: Config, states: seq<State>, actions: seq<Action>, i: nat)
    requires IsRun(cfg, states, actions) && Initial(cfg, states[0]) && i < |states|
    ensures var h := states[i].hist;
            && h.got <= h.deq <= h.enq && |h.deq| <= |h.got| + 1
            && h.sent <= h.enq && |h.enq| <= |h.sent| + 1
  {
    RunKeeps(cfg, states, actions, i);
  }

  /** The k-th slot from the front index on. */
  ghost function SlotFrom(b: Block, k: nat): Slot
    requires b.front < b.size == |b.slots| && k < b.size
  {
    b.slots[if b.front + k < b.size then b.front + k else b.front + k - b.size]
  }

  /** What a reader finds walking the memory: the slots of each block from place i to the tail block. */
  ghost function Contents(s: State, i: nat): seq<Slot>
    requires RingOk(s) && BlocksInRange(s) && i <= s.hist.at
    decreases s.hist.at - i
  {
    var b := s.mem.blocks[s.hist.ring[i]];
    seq(Held(b), k requires 0 <= k < Held(b) => SlotFrom(b, k))
    + if i < s.hist.at then Contents(s, i + 1) else []
  }

  lemma SlotFromHolds(s: State, b: nat, k: nat)
    requires BlocksInRange(s) && SlotsOk(s) && b < |s.mem.blocks| && k < Held(s.mem.blocks[b])
    requires 0 <= s.hist.base[b] && s.hist.base[b] + k < |s.hist.enq|
    ensures SlotFrom(s.mem.blocks[b], k) == if k < Behind(s.cons, b) then None else Some(s.hist.enq[s.hist.base[b] + k])
  {
    var blk := s.mem.blocks[b];
    assert SlotOk(s, b, if blk.front + k < blk.size then blk.front + k else blk.front + k - blk.size);
  }

  /** The slots hold the elements of the order from a position on, all of them but the first few, which are empty. */
  ghost predicate Holds(slots: seq<Slot>, order: seq<Element>, from: int, empty: nat) {
    && 0 <= from <= |order| && empty <= |slots| == |order| - from
    && forall k | 0 <= k < |slots| :: slots[k] == if k < empty then None else Some(order[from + k])
  }

  /** What the consumer has emptied without giving the slot back: at most the first element of the front block. */
  ghost function Emptied(s: State, i: nat): nat {
    if s.cons.CPublish? && i == 0 then 1 else 0
  }

  /** From place i on, memory holds the rest of the enqueue order. */
  lemma {:induction false} ContentsFrom(s: State, i: nat)
    requires RingOk(s) && BlocksInRange(s) && SlotsOk(s) && PartsOk(s) && i <= s.hist.at
    requires s.hist.base[s.hist.ring[i]] >= 0
    requires s.cons.CPublish? ==> s.cons.fb == s.hist.ring[0] && Held(s.mem.blocks[s.cons.fb]) > 0
    ensures Holds(Contents(s, i), s.hist.enq, s.hist.base[s.hist.ring[i]], Emptied(s, i))
    decreases s.hist.at - i
  {
    var b := s.hist.ring[i];
    assert PartOk(s, i);
    assert Behind(s.cons, b) == Emptied(s, i);
    if i < s.hist.at {
      ContentsFrom(s, i + 1);
    }
    forall k | 0 <= k < Held(s.mem.blocks[b])
      ensures s.hist.base[b] + k < |s.hist.enq|
      ensures SlotFrom(s.mem.blocks[b], k)
           == if k < Emptied(s, i) then None else Some(s.hist.enq[s.hist.base[b] + k])
    {
      SlotFromHolds(s, b, k);
    }
  }

  /**
   In every state memory holds exactly the elements put in and not yet handed out, in order, except that the first slot
   is empty while the consumer has taken its element and not yet moved the front index.
   */
  lemma MemoryHoldsQueue(cfg: Config, states: seq<State>, actions: seq<Action>, i: nat)
    requires IsRun(cfg, states, actions) && Initial(cfg, states[0]) && i < |states|
    ensures var s := states[i];
            && RingOk(s) && BlocksInRange(s)
            && Holds(Contents(s, 0), s.hist.enq, |s.hist.deq|, if s.cons.CPublish? then 1 else 0)
  {
    RunKeeps(cfg, states, actions, i);
    var s := states[i];
    if s.cons.CPublish? {
      FrontBump(s.mem.blocks[s.cons.fb], |s.mem.blocks|);
    }
    StateHoldsQueue(s);
  }

  lemma StateHoldsQueue(s: State)
    requires RingOk(s) && BlocksInRange(s) && SlotsOk(s) && PartsOk(s)
    requires s.cons.CPublish? ==> s.cons.fb == s.hist.ring[0] && Held(s.mem.blocks[s.cons.fb]) > 0
    ensures Holds(Contents(s, 0), s.hist.enq, |s.hist.deq|, Emptied(s, 0))
  {
    ContentsFrom(s, 0);
  }

  /** What a step of a plain queue q may be. */
  ghost predicate FifoMove(q: seq<Element>, q': seq<Element>, s': State, a: Action) {
    || q' == q
    || (a.Produce? && s'.prod.PDone? && s'.prod.ok && q' == q + [s'.prod.e])
    || (a.Consume? && s'.cons.CDone? && !s'.cons.peek && 0 < |q| && s'.cons.result == Some(q[0]) && q' == q[1..])
  }

  lemma MoveIsFifo(cfg: Config, s: State, a: Action)
    requires InRange(s) && Enabled(s, a) && s.hist.deq <= s.hist.enq
    requires s.cons.CPublish? ==> |s.hist.deq| < |s.hist.enq| && s.cons.result == Some(s.hist.enq[|s.hist.deq|])
    ensures var s' := Apply(cfg, s, a);
            && |s'.hist.deq| <= |s'.hist.enq|
            && FifoMove(s.hist.enq[|s.hist.deq|..], s'.hist.enq[|s'.hist.deq|..], s', a)
  {
    var s' := Apply(cfg, s, a);
    var q, q' := s.hist.enq[|s.hist.deq|..], s'.hist.enq[|s'.hist.deq|..];
    if a.Produce? && (s.prod.PPublish? || s.prod.PAdvance?) {
      assert q' == q + [s.prod.e];
    } else if a.Consume? && s.cons.CPublish? {
      assert q' == q[1..];
    }
  }

  /**
   Each step refines one of three moves of a plain queue: nothing, append the element being enqueued,
   or remove the head, which is the element the call then returns.
   */
  lemma StepRefinesFifo(cfg: Config, states: seq<State>, actions: seq<Action>, i: nat)
    requires IsRun(cfg, states, actions) && Initial(cfg, states[0]) && i < |actions|
    ensures var h, h' := states[i].hist, states[i + 1].hist;
            && |h.deq| <= |h.enq| && |h'.deq| <= |h'.enq|
            && FifoMove(h.enq[|h.deq|..], h'.enq[|h'.deq|..], states[i + 1], actions[i])
  {
    RunKeeps(cfg, states, actions, i);
    MoveIsFifo(cfg, states[i], actions[i]);
  }

  /** The producer only constructs into an empty slot. */
  lemma ProducerSlot(cfg: Config, s: State)
    requires Inv(cfg, s)
    ensures s.prod.PStore? ==> s.mem.blocks[s.prod.tb].slots[s.prod.bt] == None
    ensures s.prod.PStoreNext? ==> s.mem.blocks[s.prod.nb].slots[s.prod.tail] == None
  {
    if s.prod.PStore? {
      SlotAt(s, s.prod.tb, s.prod.bt);
    }
    if s.prod.PStoreNext? {
      SlotAt(s, s.prod.nb, s.prod.tail);
    }
  }

  /** The consumer only reads the next element in order. */
  lemma ConsumerSlot(cfg: Config, s: State)
    requires Inv(cfg, s) && (s.cons.CTake? || s.cons.CPeekRead?)
    ensures var slot := if s.cons.CTake? then s.mem.blocks[s.cons.fb].slots[s.cons.bf]
                        else s.mem.blocks[s.cons.b].slots[s.cons.bf];
            |s.hist.deq| < |s.hist.enq| && slot == Some(s.hist.enq[|s.hist.deq|])
  {
    if s.cons.CTake? {
      FrontPart(s);
      FrontBump(s.mem.blocks[s.cons.fb], |s.mem.blocks|);
      NotEmpty(s);
      SlotAt(s, s.cons.fb, s.cons.bf);
    } else {
      PeekedSlot(cfg, s);
    }
  }

  /** No run overwrites an unread element, reads an unwritten slot, or follows an invalid pointer or index. */
  lemma SlotSafety(cfg: Config, states: seq<State>, actions: seq<Action>, i: nat)
    requires IsRun(cfg, states, actions) && Initial(cfg, states[0]) && i < |states|
    ensures var s := states[i];
            && InRange(s)
            && (s.prod.PStore? ==> s.mem.blocks[s.prod.tb].slots[s.prod.bt] == None)
            && (s.prod.PStoreNext? ==> s.mem.blocks[s.prod.nb].slots[s.prod.tail] == None)
            && (s.cons.CTake? ==> |s.hist.deq| < |s.hist.enq|
                                  && s.mem.blocks[s.cons.fb].slots[s.cons.bf] == Some(s.hist.enq[|s.hist.deq|]))
            && (s.cons.CPeekRead? ==> |s.hist.deq| < |s.hist.enq|
                                      && s.mem.blocks[s.cons.b].slots[s.cons.bf] == Some(s.hist.enq[|s.hist.deq|]))
  {
    RunKeeps(cfg, states, actions, i);
    ProducerSlot(cfg, states[i]);
    if states[i].cons.CTake? || states[i].cons.CPeekRead? {
      ConsumerSlot(cfg, states[i]);
    }
  }

  /** The assertions in the source never fail: a free block is empty, a block moved to is not. */
  lemma AssertsHold(cfg: Config, states: seq<State>, actions: seq<Action>, i: nat)
    requires IsRun(cfg, states, actions) && Initial(cfg, states[0]) && i < |states|
    ensures var s := states[i];
            && (s.prod.PStoreNext? ==> s.prod.front == s.prod.tail)
            && (s.prod.PLink? ==> s.prod.nb < |s.mem.blocks| && s.mem.blocks[s.prod.nb].front == 0)
            && (s.cons.CMoveFront? ==> s.cons.nf != s.cons.nt)
            && (s.cons.CLoadNextTail? ==>
                  s.cons.nb < |s.mem.blocks| && s.mem.blocks[s.cons.nb].front != s.mem.blocks[s.cons.nb].tail)
  {
    var s := states[i];
    RunKeeps(cfg, states, actions, i);
    if s.cons.CLoadNextTail? {
      SecondPart(s);
    }
  }

  /** The queue was empty at instant j, which lies inside the consumer's call that is still running at instant i. */
  ghost predicate EmptyDuringCall(states: seq<State>, actions: seq<Action>, j: nat, i: nat)
    requires |states| == |actions| + 1
  {
    j <= i < |states| && |states[j].hist.enq| == |states[j].hist.deq|
    && forall k | j <= k < i :: !actions[k].Dequeue?
  }

  lemma MonitorStep(cfg: Config, s: State, a: Action)
    requires InRange(s) && Enabled(s, a)
    ensures var s' := Apply(cfg, s, a);
            && (s'.hist.emptySeen ==> |s'.hist.enq| <= |s'.hist.deq| || (s.hist.emptySeen && !a.Dequeue?))
            && (s'.hist.fullSeen ==> |s'.hist.enq| - |s'.hist.deq| >= cfg.size || (s.hist.fullSeen && !a.Enqueue?))
  {
  }

  /** The monitor of the empty queue at step k: set by the queue being empty now, or kept within the same call. */
  ghost predicate EmptyMonitor(states: seq<State>, actions: seq<Action>, k: nat) {
    && k < |actions| && k + 1 < |states|
    && (states[k + 1].hist.emptySeen ==>
          || |states[k + 1].hist.enq| == |states[k + 1].hist.deq|
          || (states[k].hist.emptySeen && !actions[k].Dequeue?))
  }

  ghost predicate FullMonitor(cfg: Config, states: seq<State>, actions: seq<Action>, k: nat) {
    && k < |actions| && k + 1 < |states|
    && (states[k + 1].hist.fullSeen ==>
          || |states[k + 1].hist.enq| - |states[k + 1].hist.deq| >= cfg.size
          || (states[k].hist.fullSeen && !actions[k].Enqueue?))
  }

  ghost predicate Monitored(cfg: Config, states: seq<State>, actions: seq<Action>) {
    && |states| == |actions| + 1
    && (forall k: nat | k < |actions| :: EmptyMonitor(states, actions, k))
    && (forall k: nat | k < |actions| :: FullMonitor(cfg, states, actions, k))
    && |states[0].hist.enq| == |states[0].hist.deq| && !states[0].hist.fullSeen
  }

  lemma RunMonitored(cfg: Config, states: seq<State>, actions: seq<Action>)
    requires IsRun(cfg, states, actions) && Initial(cfg, states[0])
    ensures Monitored(cfg, states, actions)
  {
    forall k: nat | k < |actions| ensures EmptyMonitor(states, actions, k) && FullMonitor(cfg, states, actions, k) {
      MonitorStep(cfg, states[k], actions[k]);
      Fifo(cfg, states, actions, k + 1);
    }
  }

  lemma {:induction false} EmptySeenMeans(cfg: Config, states: seq<State>, actions: seq<Action>, i: nat)
    requires Monitored(cfg, states, actions) && i < |states| && states[i].hist.emptySeen
    ensures exists j: nat :: EmptyDuringCall(states, actions, j, i)
  {
    if |states[i].hist.enq| == |states[i].hist.deq| {
      assert EmptyDuringCall(states, actions, i, i);
    } else {
      assert EmptyMonitor(states, actions, i - 1);
      EmptySeenMeans(cfg, states, actions, i - 1);
      var j: nat :| EmptyDuringCall(states, actions, j, i - 1);
      EmptyStill(states, actions, j, i);
    }
  }

  lemma EmptyStill(states: seq<State>, actions: seq<Action>, j: nat, i: nat)
    requires |states| == |actions| + 1 && 0 < i < |states| && !actions[i - 1].Dequeue?
    requires EmptyDuringCall(states, actions, j, i - 1)
    ensures EmptyDuringCall(states, actions, j, i)
  {
  }

  /** `try_dequeue`, `pop` and `peek` report empty only if the queue was empty at an instant of that call. */
  lemma EmptyReport(cfg: Config, states: seq<State>, actions: seq<Action>, i: nat)
    requires IsRun(cfg, states, actions) && Initial(cfg, states[0]) && i < |states|
    requires states[i].cons.CDone? && states[i].cons.result == None
    ensures exists j: nat :: EmptyDuringCall(states, actions, j, i)
  {
    RunKeeps(cfg, states, actions, i);
    RunMonitored(cfg, states, actions);
    EmptySeenMeans(cfg, states, actions, i);
  }

  /** The queue held at least `size` elements at instant j of the producer's call still running at instant i. */
  ghost predicate FullDuringCall(cfg: Config, states: seq<State>, actions: seq<Action>, j: nat, i: nat)
    requires |states| == |actions| + 1
  {
    j <= i < |states| && |states[j].hist.enq| - |states[j].hist.deq| >= cfg.size
    && forall k | j <= k < i :: !actions[k].Enqueue?
  }

  lemma {:induction false} FullSeenMeans(cfg: Config, states: seq<State>, actions: seq<Action>, i: nat)
    requires Monitored(cfg, states, actions) && i < |states| && states[i].hist.fullSeen
    ensures exists j: nat :: FullDuringCall(cfg, states, actions, j, i)
  {
    if |states[i].hist.enq| - |states[i].hist.deq| >= cfg.size {
      assert FullDuringCall(cfg, states, actions, i, i);
    } else {
      assert FullMonitor(cfg, states, actions, i - 1);
      FullSeenMeans(cfg, states, actions, i - 1);
      var j: nat :| FullDuringCall(cfg, states, actions, j, i - 1);
      FullStill(cfg, states, actions, j, i);
    }
  }

  lemma FullStill(cfg: Config, states: seq<State>, actions: seq<Action>, j: nat, i: nat)
    requires |states| == |actions| + 1 && 0 < i < |states| && !actions[i - 1].Enqueue?
    requires FullDuringCall(cfg, states, actions, j, i - 1)
    ensures FullDuringCall(cfg, states, actions, j, i)
  {
  }

  /**
   A call is refused, or comes to allocate, only if the queue held `size` elements at an instant of that call.  For a
   refusal this is so whether the call may allocate or not.
   */
  lemma RefusalReport(cfg: Config, states: seq<State>, actions: seq<Action>, i: nat)
    requires IsRun(cfg, states, actions) && Initial(cfg, states[0]) && i < |states|
    requires (states[i].prod.PDone? && !states[i].prod.ok) || states[i].prod.PAlloc?
    ensures exists j: nat :: FullDuringCall(cfg, states, actions, j, i)
  {
    RunKeeps(cfg, states, actions, i);
    RunMonitored(cfg, states, actions);
    FullSeenMeans(cfg, states, actions, i);
  }
}
