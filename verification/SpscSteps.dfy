/** Every step of either thread keeps the invariant. */
module SpscSteps {
  import opened SpscQueue
  import opened SpscInvariant

  /** The shared parts that the invariant speaks about, apart from the cached indices. */
  ghost predicate SameData(b: Block, b': Block) {
    b' == b.(localFront := b'.localFront, localTail := b'.localTail)
  }

  /** A step that neither moves an index, nor touches a slot, nor relinks a block. */
  ghost predicate Quiet(s: State, s': State) {
    && |s'.mem.blocks| == |s.mem.blocks|
    && (forall b | 0 <= b < |s.mem.blocks| :: SameData(s.mem.blocks[b], s'.mem.blocks[b]))
    && s'.mem.frontBlock == s.mem.frontBlock && s'.mem.tailBlock == s.mem.tailBlock && s'.mem.largest == s.mem.largest
    && s'.hist.ring == s.hist.ring && s'.hist.at == s.hist.at && s'.hist.base == s.hist.base
    && s'.hist.enq == s.hist.enq && s'.hist.deq == s.hist.deq
    && (s'.prod == s.prod || (Pending(s.prod) == [] && Pending(s'.prod) == []))
    && (s'.cons == s.cons || (!s.cons.CPublish? && !s'.cons.CPublish?))
  }

  lemma QuietKeeps(s: State, s': State)
    requires RingOk(s) && BlocksInRange(s) && SlotsOk(s) && PartsOk(s)
    requires Quiet(s, s') && BlocksInRange(s')
    ensures RingOk(s') && SlotsOk(s') && PartsOk(s')
  {
    forall b, j | 0 <= b < |s'.mem.blocks| && 0 <= j < s'.mem.blocks[b].size ensures SlotOk(s', b, j) {
      assert SameData(s.mem.blocks[b], s'.mem.blocks[b]);
      assert SlotOk(s, b, j);
    }
    forall i | 0 <= i < |s'.hist.ring| ensures LinkOk(s', i) && PartOk(s', i) {
      assert SameData(s.mem.blocks[s.hist.ring[i]], s'.mem.blocks[s.hist.ring[i]]);
      assert LinkOk(s, i) && PartOk(s, i);
    }
  }

  /** What a producer step leaves alone, as far as the consumer's program points care. */
  ghost predicate ProducerGuarantee(s: State, s': State)
    requires RingOk(s) && BlocksInRange(s) && RingOk(s') && BlocksInRange(s')
  {
    && s'.cons == s.cons && s'.hist.deq == s.hist.deq && s'.mem.frontBlock == s.mem.frontBlock
    && s.hist.enq <= s'.hist.enq && (s.hist.emptySeen ==> s'.hist.emptySeen)
    && |s.mem.blocks| <= |s'.mem.blocks|
    && (forall b | 0 <= b < |s.mem.blocks| ::
          var x, y := s.mem.blocks[b], s'.mem.blocks[b];
          y.size == x.size && y.front == x.front && y.localTail == x.localTail && Held(y) >= Held(x))
    && (s.hist.at > 0 ==>
          && s'.hist.at > 0 && s'.hist.ring[1] == s.hist.ring[1]
          && Held(s'.mem.blocks[s.mem.frontBlock]) == Held(s.mem.blocks[s.mem.frontBlock]))
  }

  lemma ConsumerUndisturbed(s: State, s': State)
    requires RingOk(s) && BlocksInRange(s) && RingOk(s') && BlocksInRange(s')
    requires ConsumerInRange(s.mem, s.cons) && ConsumerOk(s) && ProducerGuarantee(s, s')
    ensures ConsumerInRange(s'.mem, s'.cons) && ConsumerOk(s')
  {
  }

  /** What a consumer step leaves alone, as far as the producer's program points care. */
  ghost predicate ConsumerGuarantee(s: State, s': State)
    requires RingOk(s) && BlocksInRange(s) && RingOk(s') && BlocksInRange(s')
  {
    && s'.prod == s.prod && s'.hist.enq == s.hist.enq && s'.mem.tailBlock == s.mem.tailBlock
    && (s.hist.fullSeen ==> s'.hist.fullSeen)
    && |s'.mem.blocks| == |s.mem.blocks| && |s'.hist.ring| == |s.hist.ring| && s'.hist.at <= s.hist.at
    && (forall b | 0 <= b < |s.mem.blocks| ::
          var x, y := s.mem.blocks[b], s'.mem.blocks[b];
          y.size == x.size && y.tail == x.tail && y.localFront == x.localFront && y.next == x.next)
    && (s.hist.at + 1 < |s.hist.ring| ==> s'.hist.ring[s'.hist.at + 1] == s.hist.ring[s.hist.at + 1])
    // blocks that are neither the front block nor become it are not touched
    && (forall b | 0 <= b < |s.mem.blocks| && b != s.mem.frontBlock ::
          s'.mem.blocks[b].front == s.mem.blocks[b].front && s'.hist.base[b] == s.hist.base[b])
    && (forall b | b !in s.hist.ring :: b !in s'.hist.ring)
  }

  lemma ProducerUndisturbed(s: State, s': State)
    requires RingOk(s) && BlocksInRange(s) && RingOk(s') && BlocksInRange(s')
    requires ProducerInRange(s.mem, s.prod) && ProducerOk(s) && ConsumerGuarantee(s, s')
    ensures ProducerInRange(s'.mem, s'.prod) && ProducerOk(s')
  {
  }

  /** A quiet step of the producer: only its own program point is left to check. */
  lemma QuietProducer(cfg: Config, s: State, s': State)
    requires SharedOk(cfg, s) && ConsumerInRange(s.mem, s.cons) && ConsumerOk(s)
    requires Quiet(s, s') && IndicesOk(s') && OrderOk(s') && s'.cons == s.cons
    requires forall b | 0 <= b < |s.mem.blocks| :: s'.mem.blocks[b].localTail == s.mem.blocks[b].localTail
    requires s.hist.emptySeen ==> s'.hist.emptySeen
    ensures SharedOk(cfg, s') && ConsumerInRange(s'.mem, s'.cons) && ConsumerOk(s')
  {
    assert forall b | 0 <= b < |s.mem.blocks| :: SameData(s.mem.blocks[b], s'.mem.blocks[b]);
    QuietKeeps(s, s');
    ConsumerUndisturbed(s, s');
  }

  /** A quiet step of the consumer: only its own program point is left to check. */
  lemma QuietConsumer(cfg: Config, s: State, s': State)
    requires SharedOk(cfg, s) && ProducerInRange(s.mem, s.prod) && ProducerOk(s)
    requires Quiet(s, s') && IndicesOk(s') && OrderOk(s') && s'.prod == s.prod
    requires forall b | 0 <= b < |s.mem.blocks| :: s'.mem.blocks[b].localFront == s.mem.blocks[b].localFront
    requires s.hist.fullSeen ==> s'.hist.fullSeen
    ensures SharedOk(cfg, s') && ProducerInRange(s'.mem, s'.prod) && ProducerOk(s')
  {
    assert forall b | 0 <= b < |s.mem.blocks| :: SameData(s.mem.blocks[b], s'.mem.blocks[b]);
    QuietKeeps(s, s');
    ProducerUndisturbed(s, s');
  }

  /** The front block's front element is the next one to be dequeued; alone, it holds everything. */
  lemma FrontPart(s: State)
    requires RingOk(s) && BlocksInRange(s) && PartsOk(s)
    ensures s.hist.base[s.mem.frontBlock] == |s.hist.deq|
    ensures s.hist.at == 0 ==> |s.hist.enq| == |s.hist.deq| + Held(s.mem.blocks[s.mem.frontBlock])
  {
    assert PartOk(s, 0);
  }

  /** When the tail block is further on, the block after the front block has the elements that follow. */
  lemma SecondPart(s: State)
    requires RingOk(s) && BlocksInRange(s) && PartsOk(s) && s.hist.at > 0
    ensures s.mem.blocks[s.mem.frontBlock].next == s.hist.ring[1] && Held(s.mem.blocks[s.hist.ring[1]]) > 0
    ensures s.hist.base[s.hist.ring[1]] == |s.hist.deq| + Held(s.mem.blocks[s.mem.frontBlock])
  {
    assert LinkOk(s, 0) && PartOk(s, 0) && PartOk(s, 1);
  }

  /** The block after the tail block is the front block, or it is free. */
  lemma FreePart(s: State)
    requires RingOk(s) && BlocksInRange(s) && PartsOk(s) && !s.prod.PAdvance?
    ensures s.hist.at + 1 == |s.hist.ring| <==> s.mem.blocks[s.mem.tailBlock].next == s.mem.frontBlock
    ensures s.hist.at + 1 < |s.hist.ring| ==>
              && s.mem.blocks[s.mem.tailBlock].next == s.hist.ring[s.hist.at + 1]
              && Held(s.mem.blocks[s.hist.ring[s.hist.at + 1]]) == 0
  {
    assert LinkOk(s, s.hist.at);
    if s.hist.at + 1 < |s.hist.ring| {
      assert PartOk(s, s.hist.at + 1);
    }
  }

  /** From the second block on, every full block adds at least d elements. */
  lemma {:induction false} PartsAddUp(s: State, d: nat, i: nat)
    requires RingOk(s) && BlocksInRange(s) && PartsOk(s) && 0 < i <= s.hist.at
    requires forall b | 0 <= b < |s.mem.blocks| :: s.mem.blocks[b].size > d
    ensures s.hist.base[s.hist.ring[i]] >= |s.hist.deq| + (i - 1) * d
  {
    assert PartOk(s, i - 1);
    if i > 1 {
      PartsAddUp(s, d, i - 1);
    }
  }

  /** The queue is not empty as soon as the front block is not, or the tail block is further on. */
  lemma NotEmpty(s: State)
    requires RingOk(s) && BlocksInRange(s) && PartsOk(s)
    requires s.hist.at > 0 || Held(s.mem.blocks[s.mem.frontBlock]) > 0
    ensures |s.hist.deq| < |s.hist.enq|
  {
    assert PartOk(s, s.hist.at);
    if s.hist.at > 0 {
      PartsAddUp(s, 0, s.hist.at);
    }
  }

  /** With the tail block full as well, every block from the second on adds at least d elements. */
  lemma FullParts(s: State, d: nat)
    requires RingOk(s) && BlocksInRange(s) && PartsOk(s) && TailFull(s) && s.hist.at > 0
    requires forall b | 0 <= b < |s.mem.blocks| :: s.mem.blocks[b].size > d
    ensures |s.hist.enq| - |s.hist.deq| >= s.hist.at * d
    ensures |s.hist.enq| - |s.hist.deq| >= d
  {
    assert PartOk(s, s.hist.at);
    PartsAddUp(s, d, s.hist.at);
    var at: int := s.hist.at;
    assert at * d == (at - 1) * d + d && (at - 1) * d >= 0;
  }

  /** With every block but the front block full, the queue holds what it was built for. */
  lemma FullEnough(cfg: Config, s: State)
    requires RingOk(s) && BlocksInRange(s) && PartsOk(s) && CapacityOk(cfg, s) && cfg.Valid()
    requires TailFull(s) && 0 < s.hist.at == |s.hist.ring| - 1
    ensures |s.hist.enq| - |s.hist.deq| >= cfg.size
  {
    if forall b | 0 <= b < |s.mem.blocks| :: s.mem.blocks[b].size > cfg.size {
      FullParts(s, cfg.size);
    } else {
      FullParts(s, cfg.maxBlock - 1);
    }
  }

  /** What the slots of a block hold, without the machine state. */
  lemma SlotAt(s: State, b: nat, j: nat)
    requires BlocksInRange(s) && SlotsOk(s) && b < |s.mem.blocks| && j < s.mem.blocks[b].size
    ensures SlotOk(s, b, j)
  {
  }

  /** Moving the tail index into free room keeps the circle of indices and adds one element. */
  lemma TailBump(b: Block, blocks: nat)
    requires IndexOk(b, blocks) && Wrap(b.tail, b.size) != b.localFront
    ensures IndexOk(b.(tail := Wrap(b.tail, b.size)), blocks)
    ensures Held(b.(tail := Wrap(b.tail, b.size))) == Held(b) + 1
  {
  }

  /** Moving the front index past a seen element keeps the circle of indices and removes one element. */
  lemma FrontBump(b: Block, blocks: nat)
    requires IndexOk(b, blocks) && b.front != b.localTail
    ensures Held(b) > 0
    ensures IndexOk(b.(front := Wrap(b.front, b.size)), blocks)
    ensures Held(b.(front := Wrap(b.front, b.size))) == Held(b) - 1
  {
  }

  /** Only block x changes, and not its links; the ring is as before. */
  ghost predicate OnlyBlock(s: State, s': State, x: nat) {
    && |s'.mem.blocks| == |s.mem.blocks| == |s.hist.base| == |s'.hist.base| && x < |s.mem.blocks|
    && (forall b | 0 <= b < |s.mem.blocks| && b != x ::
          s'.mem.blocks[b] == s.mem.blocks[b] && s'.hist.base[b] == s.hist.base[b])
    && s'.mem.blocks[x].next == s.mem.blocks[x].next && s'.mem.blocks[x].size == s.mem.blocks[x].size
    && s'.mem.frontBlock == s.mem.frontBlock && s'.mem.tailBlock == s.mem.tailBlock && s'.mem.largest == s.mem.largest
    && s'.hist.ring == s.hist.ring && s'.hist.at == s.hist.at
  }

  lemma OnlyBlockRing(s: State, s': State, x: nat)
    requires RingOk(s) && OnlyBlock(s, s', x)
    ensures RingOk(s')
  {
    forall i | 0 <= i < |s'.hist.ring| ensures LinkOk(s', i) {
      assert LinkOk(s, i);
    }
  }

  /** Slots of the other blocks still hold what they should when the order of elements only grows. */
  lemma OnlyBlockSlots(s: State, s': State, x: nat)
    requires BlocksInRange(s) && BlocksInRange(s') && SlotsOk(s) && OnlyBlock(s, s', x)
    requires s.hist.enq + Pending(s.prod) <= s'.hist.enq + Pending(s'.prod)
    requires forall b | 0 <= b < |s.mem.blocks| && b != x ::
               Ahead(s'.prod, b) == Ahead(s.prod, b) && Behind(s'.cons, b) == Behind(s.cons, b)
    requires forall j | 0 <= j < s'.mem.blocks[x].size :: SlotOk(s', x, j)
    ensures SlotsOk(s')
  {
    forall b, j | 0 <= b < |s'.mem.blocks| && 0 <= j < s'.mem.blocks[b].size ensures SlotOk(s', b, j) {
      if b != x {
        assert SlotOk(s, b, j);
      }
    }
  }

  /** The producer constructs e in the slot at x's tail index. */
  lemma FillSlots(s: State, s': State, x: nat, e: Element)
    requires BlocksInRange(s) && BlocksInRange(s') && SlotsOk(s) && OnlyBlock(s, s', x)
    requires var b := s.mem.blocks[x];
             && s'.mem.blocks[x] == b.(localFront := s'.mem.blocks[x].localFront, slots := b.slots[b.tail := Some(e)])
             && s'.hist.base[x] + Held(b) == |s.hist.enq| && Behind(s.cons, x) <= Held(b)
             && (s'.hist.base[x] == s.hist.base[x] || Held(b) == 0)
    requires s'.cons == s.cons && s'.hist.enq == s.hist.enq
    requires Pending(s.prod) == [] && Pending(s'.prod) == [e] && Ahead(s'.prod, x) == 1
    ensures SlotsOk(s')
  {
    forall j | 0 <= j < s'.mem.blocks[x].size ensures SlotOk(s', x, j) {
      assert SlotOk(s, x, j);
    }
    OnlyBlockSlots(s, s', x);
  }

  /** The producer moves x's tail index past the element it constructed there. */
  lemma BumpTailSlots(s: State, s': State, x: nat)
    requires BlocksInRange(s) && BlocksInRange(s') && SlotsOk(s) && OnlyBlock(s, s', x)
    requires s'.mem.blocks[x] == s.mem.blocks[x].(tail := s'.mem.blocks[x].tail)
    requires Held(s'.mem.blocks[x]) == Held(s.mem.blocks[x]) + 1
    requires s'.hist.base == s.hist.base && s'.cons == s.cons
    requires s'.hist.enq + Pending(s'.prod) == s.hist.enq + Pending(s.prod)
    requires Ahead(s.prod, x) == 1 && !s'.prod.PPublish? && !s'.prod.PBumpNext?
    ensures SlotsOk(s')
  {
    forall j | 0 <= j < s'.mem.blocks[x].size ensures SlotOk(s', x, j) {
      assert SlotOk(s, x, j);
    }
    OnlyBlockSlots(s, s', x);
  }

  /** The consumer empties the slot at x's front index. */
  lemma ClearSlots(s: State, s': State, x: nat)
    requires BlocksInRange(s) && BlocksInRange(s') && SlotsOk(s) && OnlyBlock(s, s', x)
    requires var b := s.mem.blocks[x]; s'.mem.blocks[x] == b.(slots := b.slots[b.front := None])
    requires s'.hist.base == s.hist.base && s'.prod == s.prod && s'.hist.enq == s.hist.enq
    requires !s.cons.CPublish? && s'.cons.CPublish? && s'.cons.fb == x
    ensures SlotsOk(s')
  {
    forall j | 0 <= j < s'.mem.blocks[x].size ensures SlotOk(s', x, j) {
      assert SlotOk(s, x, j);
    }
    OnlyBlockSlots(s, s', x);
  }

  /** The consumer moves x's front index past the slot it emptied. */
  lemma BumpFrontSlots(s: State, s': State, x: nat)
    requires BlocksInRange(s) && BlocksInRange(s') && SlotsOk(s) && OnlyBlock(s, s', x)
    requires var b := s.mem.blocks[x]; s'.mem.blocks[x] == b.(front := Wrap(b.front, b.size))
    requires Held(s.mem.blocks[x]) > 0 && Held(s'.mem.blocks[x]) == Held(s.mem.blocks[x]) - 1
    requires s'.hist.base[x] == s.hist.base[x] + 1 && s'.prod == s.prod && s'.hist.enq == s.hist.enq
    requires s.cons.CPublish? && s.cons.fb == x && !s'.cons.CPublish?
    ensures SlotsOk(s')
  {
    forall j | 0 <= j < s'.mem.blocks[x].size ensures SlotOk(s', x, j) {
      assert SlotOk(s, x, j);
    }
    OnlyBlockSlots(s, s', x);
  }

  /** Parts stay as they are when no block gains or loses an element. */
  lemma OnlyBlockParts(s: State, s': State, x: nat)
    requires RingOk(s) && BlocksInRange(s) && PartsOk(s) && RingOk(s') && BlocksInRange(s') && OnlyBlock(s, s', x)
    requires Held(s'.mem.blocks[x]) == Held(s.mem.blocks[x])
    requires s'.hist.base == s.hist.base || (s.hist.at + 1 < |s.hist.ring| && x == s.hist.ring[s.hist.at + 1])
    requires s'.hist.enq == s.hist.enq && s'.hist.deq == s.hist.deq
    requires s'.prod == s.prod || (!s.prod.PAdvance? && !s'.prod.PAdvance?)
    ensures PartsOk(s')
  {
    forall i | 0 <= i < |s'.hist.ring| ensures PartOk(s', i) {
      assert PartOk(s, i);
    }
  }

  /** Parts when one element leaves the front block. */
  lemma FrontPartShrinks(s: State, s': State, x: nat)
    requires RingOk(s) && BlocksInRange(s) && PartsOk(s) && RingOk(s') && BlocksInRange(s') && OnlyBlock(s, s', x)
    requires x == s.mem.frontBlock && Held(s.mem.blocks[x]) > 0
    requires Held(s'.mem.blocks[x]) == Held(s.mem.blocks[x]) - 1 && s'.hist.base[x] == s.hist.base[x] + 1
    requires s'.hist.enq == s.hist.enq && |s'.hist.deq| == |s.hist.deq| + 1 && s'.prod == s.prod
    ensures PartsOk(s')
  {
    forall i | 0 <= i < |s'.hist.ring| ensures PartOk(s', i) {
      assert PartOk(s, i);
    }
  }

  lemma PLoadTailKeeps(cfg: Config, s: State, allocOk: bool)
    requires Inv(cfg, s) && s.prod.PLoadTail?
    ensures Inv(cfg, Apply(cfg, s, Produce(allocOk)))
  {
    QuietProducer(cfg, s, Apply(cfg, s, Produce(allocOk)));
  }

  lemma PLoadFrontIndices(cfg: Config, s: State, allocOk: bool)
    requires RingOk(s) && BlocksInRange(s) && IndicesOk(s) && InRange(s) && ProducerOk(s) && s.prod.PLoadFront?
    ensures var s' := Apply(cfg, s, Produce(allocOk)); Quiet(s, s') && IndicesOk(s')
  {
  }

  lemma PLoadFrontQuiet(cfg: Config, s: State, allocOk: bool)
    requires Inv(cfg, s) && s.prod.PLoadFront?
    ensures var s' := Apply(cfg, s, Produce(allocOk));
            SharedOk(cfg, s') && ConsumerInRange(s'.mem, s'.cons) && ConsumerOk(s')
  {
    PLoadFrontIndices(cfg, s, allocOk);
    QuietProducer(cfg, s, Apply(cfg, s, Produce(allocOk)));
  }

  lemma PLoadFrontKeeps(cfg: Config, s: State, allocOk: bool)
    requires Inv(cfg, s) && s.prod.PLoadFront?
    ensures Inv(cfg, Apply(cfg, s, Produce(allocOk)))
  {
    FrontPart(s);
    PLoadFrontQuiet(cfg, s, allocOk);
  }

  lemma PCheckNextKeeps(cfg: Config, s: State, allocOk: bool)
    requires Inv(cfg, s) && s.prod.PCheckNext?
    ensures Inv(cfg, Apply(cfg, s, Produce(allocOk)))
  {
    FreePart(s);
    PCheckNextQuiet(cfg, s, allocOk);
    if s.hist.at + 1 == |s.hist.ring| && !s.hist.fullSeen {
      FullEnough(cfg, s);
    }
  }

  lemma PCheckNextQuiet(cfg: Config, s: State, allocOk: bool)
    requires Inv(cfg, s) && s.prod.PCheckNext?
    ensures var s' := Apply(cfg, s, Produce(allocOk));
            SharedOk(cfg, s') && ConsumerInRange(s'.mem, s'.cons) && ConsumerOk(s')
  {
    QuietProducer(cfg, s, Apply(cfg, s, Produce(allocOk)));
  }

  lemma PLoadNextFrontIndices(cfg: Config, s: State, allocOk: bool)
    requires RingOk(s) && BlocksInRange(s) && IndicesOk(s) && InRange(s) && ProducerOk(s) && s.prod.PLoadNextFront?
    ensures var s' := Apply(cfg, s, Produce(allocOk)); Quiet(s, s') && IndicesOk(s')
  {
  }

  lemma PLoadNextFrontQuiet(cfg: Config, s: State, allocOk: bool)
    requires Inv(cfg, s) && s.prod.PLoadNextFront?
    ensures var s' := Apply(cfg, s, Produce(allocOk));
            SharedOk(cfg, s') && ConsumerInRange(s'.mem, s'.cons) && ConsumerOk(s')
  {
    PLoadNextFrontIndices(cfg, s, allocOk);
    QuietProducer(cfg, s, Apply(cfg, s, Produce(allocOk)));
  }

  lemma PLoadNextFrontKeeps(cfg: Config, s: State, allocOk: bool)
    requires Inv(cfg, s) && s.prod.PLoadNextFront?
    ensures Inv(cfg, Apply(cfg, s, Produce(allocOk)))
  {
    FreePart(s);
    PLoadNextFrontQuiet(cfg, s, allocOk);
  }

  lemma PDoneKeeps(cfg: Config, s: State, allocOk: bool)
    requires Inv(cfg, s) && s.prod.PDone?
    ensures Inv(cfg, Apply(cfg, s, Produce(allocOk)))
  {
    QuietProducer(cfg, s, Apply(cfg, s, Produce(allocOk)));
  }

  lemma CLoadFrontKeeps(cfg: Config, s: State)
    requires Inv(cfg, s) && s.cons.CLoadFront?
    ensures Inv(cfg, Apply(cfg, s, Consume))
  {
    QuietConsumer(cfg, s, Apply(cfg, s, Consume));
  }

  lemma CLoadTailQuiet(cfg: Config, s: State)
    requires Inv(cfg, s) && s.cons.CLoadTail?
    ensures var s' := Apply(cfg, s, Consume);
            SharedOk(cfg, s') && ProducerInRange(s'.mem, s'.prod) && ProducerOk(s')
  {
    QuietConsumer(cfg, s, Apply(cfg, s, Consume));
  }

  lemma CLoadTailKeeps(cfg: Config, s: State)
    requires Inv(cfg, s) && s.cons.CLoadTail?
    ensures Inv(cfg, Apply(cfg, s, Consume))
  {
    FrontPart(s);
    CLoadTailQuiet(cfg, s);
  }

  lemma CCheckTailBlockKeeps(cfg: Config, s: State)
    requires Inv(cfg, s) && s.cons.CCheckTailBlock?
    ensures Inv(cfg, Apply(cfg, s, Consume))
  {
    QuietConsumer(cfg, s, Apply(cfg, s, Consume));
  }

  lemma CReloadTailQuiet(cfg: Config, s: State)
    requires Inv(cfg, s) && s.cons.CReloadTail?
    ensures var s' := Apply(cfg, s, Consume);
            SharedOk(cfg, s') && ProducerInRange(s'.mem, s'.prod) && ProducerOk(s')
  {
    QuietConsumer(cfg, s, Apply(cfg, s, Consume));
  }

  lemma CReloadTailKeeps(cfg: Config, s: State)
    requires Inv(cfg, s) && s.cons.CReloadTail?
    ensures Inv(cfg, Apply(cfg, s, Consume))
  {
    CReloadTailQuiet(cfg, s);
  }

  lemma CLoadNextKeeps(cfg: Config, s: State)
    requires Inv(cfg, s) && s.cons.CLoadNext?
    ensures Inv(cfg, Apply(cfg, s, Consume))
  {
    SecondPart(s);
    QuietConsumer(cfg, s, Apply(cfg, s, Consume));
  }

  lemma CLoadNextTailQuiet(cfg: Config, s: State)
    requires Inv(cfg, s) && s.cons.CLoadNextTail?
    ensures var s' := Apply(cfg, s, Consume);
            SharedOk(cfg, s') && ProducerInRange(s'.mem, s'.prod) && ProducerOk(s')
  {
    QuietConsumer(cfg, s, Apply(cfg, s, Consume));
  }

  lemma CLoadNextTailKeeps(cfg: Config, s: State)
    requires Inv(cfg, s) && s.cons.CLoadNextTail?
    ensures Inv(cfg, Apply(cfg, s, Consume))
  {
    SecondPart(s);
    CLoadNextTailQuiet(cfg, s);
  }

  /** What peek is about to read is the next element to be dequeued. */
  lemma PeekedSlot(cfg: Config, s: State)
    requires Inv(cfg, s) && s.cons.CPeekRead?
    ensures |s.hist.deq| < |s.hist.enq| && s.mem.blocks[s.cons.b].slots[s.cons.bf] == Some(s.hist.enq[|s.hist.deq|])
  {
    FrontPart(s);
    NotEmpty(s);
    if s.cons.b != s.mem.frontBlock {
      SecondPart(s);
    }
    SlotAt(s, s.cons.b, s.cons.bf);
  }

  lemma CPeekReadKeeps(cfg: Config, s: State)
    requires Inv(cfg, s) && s.cons.CPeekRead?
    ensures Inv(cfg, Apply(cfg, s, Consume))
  {
    PeekedSlot(cfg, s);
    QuietConsumer(cfg, s, Apply(cfg, s, Consume));
  }

  lemma CDoneKeeps(cfg: Config, s: State)
    requires Inv(cfg, s) && s.cons.CDone?
    ensures Inv(cfg, Apply(cfg, s, Consume))
  {
    QuietConsumer(cfg, s, Apply(cfg, s, Consume));
  }

  lemma PStoreShared(cfg: Config, s: State, allocOk: bool)
    requires SharedOk(cfg, s) && InRange(s) && ProducerOk(s) && ConsumerOk(s) && s.prod.PStore?
    ensures SharedOk(cfg, Apply(cfg, s, Produce(allocOk)))
  {
    var s', x := Apply(cfg, s, Produce(allocOk)), s.prod.tb;
    OnlyBlockRing(s, s', x);
    OnlyBlockParts(s, s', x);
    assert PartOk(s, s.hist.at);
    FillSlots(s, s', x, s.prod.e);
  }

  lemma PStoreKeeps(cfg: Config, s: State, allocOk: bool)
    requires Inv(cfg, s) && s.prod.PStore?
    ensures Inv(cfg, Apply(cfg, s, Produce(allocOk)))
  {
    PStoreShared(cfg, s, allocOk);
    ConsumerUndisturbed(s, Apply(cfg, s, Produce(allocOk)));
  }

  lemma PStoreNextShared(cfg: Config, s: State, allocOk: bool)
    requires SharedOk(cfg, s) && InRange(s) && ProducerOk(s) && ConsumerOk(s) && s.prod.PStoreNext?
    ensures SharedOk(cfg, Apply(cfg, s, Produce(allocOk)))
  {
    PStoreNextOnly(cfg, s, allocOk);
    var s', x := Apply(cfg, s, Produce(allocOk)), s.prod.nb;
    OnlyBlockRing(s, s', x);
    OnlyBlockParts(s, s', x);
    FillSlots(s, s', x, s.prod.e);
  }

  /** The free block alone is touched, and its indices stay. */
  lemma PStoreNextOnly(cfg: Config, s: State, allocOk: bool)
    requires RingOk(s) && BlocksInRange(s) && IndicesOk(s) && InRange(s) && ProducerOk(s) && s.prod.PStoreNext?
    ensures var s' := Apply(cfg, s, Produce(allocOk));
            OnlyBlock(s, s', s.prod.nb) && IndicesOk(s') && BlocksInRange(s')
  {
  }

  lemma PStoreNextKeeps(cfg: Config, s: State, allocOk: bool)
    requires Inv(cfg, s) && s.prod.PStoreNext?
    ensures Inv(cfg, Apply(cfg, s, Produce(allocOk)))
  {
    PStoreNextShared(cfg, s, allocOk);
    FreeIsOther(s);
    PStoreNextGuarantee(cfg, s, allocOk);
    ConsumerUndisturbed(s, Apply(cfg, s, Produce(allocOk)));
  }

  lemma FreeIsOther(s: State)
    requires RingOk(s) && s.hist.at + 1 < |s.hist.ring|
    ensures s.hist.ring[s.hist.at + 1] != s.mem.frontBlock && s.hist.ring[s.hist.at + 1] != s.mem.tailBlock
  {
  }

  lemma PStoreNextGuarantee(cfg: Config, s: State, allocOk: bool)
    requires RingOk(s) && BlocksInRange(s) && InRange(s) && ProducerOk(s) && s.prod.PStoreNext?
    requires RingOk(Apply(cfg, s, Produce(allocOk))) && BlocksInRange(Apply(cfg, s, Produce(allocOk)))
    requires s.prod.nb != s.mem.frontBlock
    ensures ProducerGuarantee(s, Apply(cfg, s, Produce(allocOk)))
  {
  }

  lemma CTakeShared(cfg: Config, s: State)
    requires SharedOk(cfg, s) && InRange(s) && ConsumerOk(s) && s.cons.CTake?
    ensures SharedOk(cfg, Apply(cfg, s, Consume))
  {
    var s', x := Apply(cfg, s, Consume), s.cons.fb;
    OnlyBlockRing(s, s', x);
    OnlyBlockParts(s, s', x);
    FrontBump(s.mem.blocks[x], |s.mem.blocks|);
    ClearSlots(s, s', x);
  }

  lemma CTakeKeeps(cfg: Config, s: State)
    requires Inv(cfg, s) && s.cons.CTake?
    ensures Inv(cfg, Apply(cfg, s, Consume))
  {
    CTakeShared(cfg, s);
    FrontPart(s);
    FrontBump(s.mem.blocks[s.cons.fb], |s.mem.blocks|);
    NotEmpty(s);
    SlotAt(s, s.cons.fb, s.cons.bf);
    ProducerUndisturbed(s, Apply(cfg, s, Consume));
  }

  lemma PPublishShared(cfg: Config, s: State, allocOk: bool)
    requires SharedOk(cfg, s) && InRange(s) && ProducerOk(s) && s.prod.PPublish?
    ensures SharedOk(cfg, Apply(cfg, s, Produce(allocOk)))
  {
    var s', x := Apply(cfg, s, Produce(allocOk)), s.prod.tb;
    PPublishParts(cfg, s, allocOk);
    TailBump(s.mem.blocks[x], |s.mem.blocks|);
    assert s'.hist.enq + Pending(s'.prod) == s.hist.enq + Pending(s.prod);
    BumpTailSlots(s, s', x);
  }

  lemma PPublishParts(cfg: Config, s: State, allocOk: bool)
    requires RingOk(s) && BlocksInRange(s) && IndicesOk(s) && PartsOk(s) && InRange(s)
    requires ProducerOk(s) && s.prod.PPublish?
    ensures var s' := Apply(cfg, s, Produce(allocOk));
            OnlyBlock(s, s', s.prod.tb) && RingOk(s') && BlocksInRange(s') && IndicesOk(s') && PartsOk(s')
  {
    var s', x := Apply(cfg, s, Produce(allocOk)), s.prod.tb;
    OnlyBlockRing(s, s', x);
    TailBump(s.mem.blocks[x], |s.mem.blocks|);
    forall i | 0 <= i < |s'.hist.ring| ensures PartOk(s', i) {
      assert PartOk(s, i);
    }
  }

  lemma PPublishKeeps(cfg: Config, s: State, allocOk: bool)
    requires Inv(cfg, s) && s.prod.PPublish?
    ensures Inv(cfg, Apply(cfg, s, Produce(allocOk)))
  {
    PPublishShared(cfg, s, allocOk);
    TailBump(s.mem.blocks[s.prod.tb], |s.mem.blocks|);
    ConsumerUndisturbed(s, Apply(cfg, s, Produce(allocOk)));
  }

  lemma PBumpNextShared(cfg: Config, s: State, allocOk: bool)
    requires SharedOk(cfg, s) && InRange(s) && ProducerOk(s) && s.prod.PBumpNext?
    ensures SharedOk(cfg, Apply(cfg, s, Produce(allocOk)))
  {
    var s', x := Apply(cfg, s, Produce(allocOk)), s.prod.nb;
    PBumpNextParts(cfg, s, allocOk);
    TailBump(s.mem.blocks[x], |s.mem.blocks|);
    BumpTailSlots(s, s', x);
  }

  lemma PBumpNextParts(cfg: Config, s: State, allocOk: bool)
    requires RingOk(s) && BlocksInRange(s) && IndicesOk(s) && PartsOk(s) && InRange(s)
    requires ProducerOk(s) && s.prod.PBumpNext?
    ensures var s' := Apply(cfg, s, Produce(allocOk));
            OnlyBlock(s, s', s.prod.nb) && RingOk(s') && BlocksInRange(s') && IndicesOk(s') && PartsOk(s')
  {
    var s', x := Apply(cfg, s, Produce(allocOk)), s.prod.nb;
    OnlyBlockRing(s, s', x);
    TailBump(s.mem.blocks[x], |s.mem.blocks|);
    forall i | 0 <= i < |s'.hist.ring| ensures PartOk(s', i) {
      assert PartOk(s, i);
    }
  }

  lemma PBumpNextKeeps(cfg: Config, s: State, allocOk: bool)
    requires Inv(cfg, s) && s.prod.PBumpNext?
    ensures Inv(cfg, Apply(cfg, s, Produce(allocOk)))
  {
    PBumpNextShared(cfg, s, allocOk);
    TailBump(s.mem.blocks[s.prod.nb], |s.mem.blocks|);
    assert s.prod.nb != s.mem.frontBlock && s.prod.nb != s.mem.tailBlock;
    ConsumerUndisturbed(s, Apply(cfg, s, Produce(allocOk)));
  }

  lemma CPublishShared(cfg: Config, s: State)
    requires SharedOk(cfg, s) && InRange(s) && ConsumerOk(s) && s.cons.CPublish?
    ensures SharedOk(cfg, Apply(cfg, s, Consume))
  {
    var s', x := Apply(cfg, s, Consume), s.cons.fb;
    OnlyBlockRing(s, s', x);
    FrontBump(s.mem.blocks[x], |s.mem.blocks|);
    FrontPartShrinks(s, s', x);
    assert s'.hist.deq <= s'.hist.enq;
    BumpFrontSlots(s, s', x);
  }

  lemma CPublishKeeps(cfg: Config, s: State)
    requires Inv(cfg, s) && s.cons.CPublish?
    ensures Inv(cfg, Apply(cfg, s, Consume))
  {
    CPublishShared(cfg, s);
    CPublishGuarantee(cfg, s);
    ProducerUndisturbed(s, Apply(cfg, s, Consume));
  }

  lemma CPublishGuarantee(cfg: Config, s: State)
    requires RingOk(s) && BlocksInRange(s) && InRange(s) && ConsumerOk(s) && s.cons.CPublish?
    requires RingOk(Apply(cfg, s, Consume)) && BlocksInRange(Apply(cfg, s, Consume))
    ensures ConsumerGuarantee(s, Apply(cfg, s, Consume))
  {
  }

  /** Slots of the existing blocks when none of their indices or slots changes. */
  lemma SlotsFrame(s: State, s': State)
    requires BlocksInRange(s) && BlocksInRange(s') && SlotsOk(s) && |s.mem.blocks| <= |s'.mem.blocks|
    requires forall b | 0 <= b < |s.mem.blocks| ::
               s'.mem.blocks[b] == s.mem.blocks[b].(next := s'.mem.blocks[b].next) && s'.hist.base[b] == s.hist.base[b]
    requires Ahead(s.prod, 0) == Ahead(s'.prod, 0) == 0 && !s.prod.PPublish? && !s.prod.PBumpNext?
    requires !s'.prod.PPublish? && !s'.prod.PBumpNext?
    requires s'.cons == s.cons || (!s.cons.CPublish? && !s'.cons.CPublish?)
    requires s.hist.enq + Pending(s.prod) <= s'.hist.enq + Pending(s'.prod)
    requires forall b, j | |s.mem.blocks| <= b < |s'.mem.blocks| && 0 <= j < s'.mem.blocks[b].size :: SlotOk(s', b, j)
    ensures SlotsOk(s')
  {
    forall b, j | 0 <= b < |s'.mem.blocks| && 0 <= j < s'.mem.blocks[b].size ensures SlotOk(s', b, j) {
      if b < |s.mem.blocks| {
        assert SlotOk(s, b, j);
      }
    }
  }

  /** The ring when no link changes. */
  lemma RingFrame(s: State, s': State)
    requires RingOk(s) && |s.mem.blocks| <= |s'.mem.blocks| && s'.hist.ring == s.hist.ring
    requires forall b | 0 <= b < |s.mem.blocks| :: s'.mem.blocks[b] == s.mem.blocks[b]
    requires s'.hist.at < |s.hist.ring| && s'.mem.tailBlock == s.hist.ring[s'.hist.at]
    requires s'.mem.frontBlock == s.mem.frontBlock
    ensures RingOk(s')
  {
    forall i | 0 <= i < |s'.hist.ring| ensures LinkOk(s', i) {
      assert LinkOk(s, i);
    }
  }

  lemma PAdvanceShared(cfg: Config, s: State, allocOk: bool)
    requires SharedOk(cfg, s) && InRange(s) && ProducerOk(s) && s.prod.PAdvance?
    ensures SharedOk(cfg, Apply(cfg, s, Produce(allocOk)))
  {
    var s' := Apply(cfg, s, Produce(allocOk));
    RingFrame(s, s');
    forall i | 0 <= i < |s'.hist.ring| ensures PartOk(s', i) {
      assert PartOk(s, i);
    }
    assert s'.hist.enq + Pending(s'.prod) == s.hist.enq + Pending(s.prod);
    SlotsFrame(s, s');
  }

  lemma PAdvanceKeeps(cfg: Config, s: State, allocOk: bool)
    requires Inv(cfg, s) && s.prod.PAdvance?
    ensures Inv(cfg, Apply(cfg, s, Produce(allocOk)))
  {
    PAdvanceShared(cfg, s, allocOk);
    ConsumerUndisturbed(s, Apply(cfg, s, Produce(allocOk)));
  }

  /** A block outside the ring leaves the parts alone. */
  lemma PartsBesideNewBlock(s: State, s': State)
    requires RingOk(s) && BlocksInRange(s) && PartsOk(s) && RingOk(s') && BlocksInRange(s')
    requires |s.mem.blocks| <= |s'.mem.blocks| && s'.hist.ring == s.hist.ring && s'.hist.at == s.hist.at
    requires forall b | 0 <= b < |s.mem.blocks| ::
               s'.mem.blocks[b] == s.mem.blocks[b] && s'.hist.base[b] == s.hist.base[b]
    requires s'.hist.enq == s.hist.enq && s'.hist.deq == s.hist.deq && !s.prod.PAdvance? && !s'.prod.PAdvance?
    ensures PartsOk(s')
  {
    forall i | 0 <= i < |s'.hist.ring| ensures PartOk(s', i) {
      assert PartOk(s, i);
    }
  }

  lemma PAllocShared(cfg: Config, s: State, allocOk: bool)
    requires SharedOk(cfg, s) && InRange(s) && ProducerOk(s) && s.prod.PAlloc?
    ensures SharedOk(cfg, Apply(cfg, s, Produce(allocOk)))
  {
    var s' := Apply(cfg, s, Produce(allocOk));
    RingFrame(s, s');
    PartsBesideNewBlock(s, s');
    SlotsFrame(s, s');
  }

  lemma PAllocKeeps(cfg: Config, s: State, allocOk: bool)
    requires Inv(cfg, s) && s.prod.PAlloc?
    ensures Inv(cfg, Apply(cfg, s, Produce(allocOk)))
  {
    PAllocShared(cfg, s, allocOk);
    ConsumerUndisturbed(s, Apply(cfg, s, Produce(allocOk)));
  }

  /** Block n is linked in after the tail block. */
  ghost predicate Linked(s: State, s': State, n: nat)
    requires RingOk(s)
  {
    var t, at := s.mem.tailBlock, s.hist.at;
    && n < |s.mem.blocks| && n !in s.hist.ring && s.mem.blocks[n].next == s.mem.blocks[t].next
    && s'.mem == s.mem.(blocks := s.mem.blocks[t := s.mem.blocks[t].(next := n)])
    && s'.hist.ring == s.hist.ring[..at + 1] + [n] + s.hist.ring[at + 1..] && s'.hist.at == at
  }

  /** The places of the ring move up by one behind the new block. */
  lemma LinkedAt(s: State, s': State, n: nat, i: nat)
    requires RingOk(s) && Linked(s, s', n) && i < |s'.hist.ring|
    ensures s'.hist.ring[i] ==
            if i <= s.hist.at then s.hist.ring[i] else if i == s.hist.at + 1 then n else s.hist.ring[i - 1]
  {
  }

  lemma LinkedNext(s: State, s': State, n: nat, i: nat)
    requires RingOk(s) && Linked(s, s', n) && i < |s'.hist.ring|
    ensures LinkOk(s', i)
  {
    var at := s.hist.at;
    LinkedAt(s, s', n, i);
    LinkedAt(s, s', n, 0);
    if i + 1 < |s'.hist.ring| {
      LinkedAt(s, s', n, i + 1);
    }
    assert LinkOk(s, at);
    if i != at + 1 {
      assert LinkOk(s, if i <= at then i else i - 1);
    }
  }

  lemma LinkedRing(s: State, s': State, n: nat)
    requires RingOk(s) && Linked(s, s', n)
    ensures RingOk(s')
  {
    var r := s'.hist.ring;
    forall i | 0 <= i < |r| ensures LinkOk(s', i) && r[i] < |s'.mem.blocks| {
      LinkedNext(s, s', n, i);
    }
    forall i, j | 0 <= i < j < |r| ensures r[i] != r[j] {
      LinkedAt(s, s', n, i);
      LinkedAt(s, s', n, j);
    }
  }

  lemma LinkedParts(s: State, s': State, n: nat)
    requires RingOk(s) && BlocksInRange(s) && PartsOk(s) && RingOk(s') && BlocksInRange(s') && Linked(s, s', n)
    requires Held(s.mem.blocks[n]) == 1 && !s.prod.PAdvance? && s'.prod.PAdvance? && s'.prod.nb == n
    requires s'.hist.base == s.hist.base && s'.hist.enq == s.hist.enq && s'.hist.deq == s.hist.deq
    ensures PartsOk(s')
  {
    forall i | 0 <= i < |s'.hist.ring| ensures PartOk(s', i) {
      LinkedPart(s, s', n, i);
    }
    LinkedAt(s, s', n, 0);
  }

  lemma LinkedPart(s: State, s': State, n: nat, i: nat)
    requires RingOk(s) && BlocksInRange(s) && PartsOk(s) && BlocksInRange(s') && Linked(s, s', n)
    requires Held(s.mem.blocks[n]) == 1 && !s.prod.PAdvance? && s'.prod.PAdvance? && s'.prod.nb == n
    requires s'.hist.base == s.hist.base && s'.hist.enq == s.hist.enq && i < |s'.hist.ring|
    ensures PartOk(s', i)
  {
    var at := s.hist.at;
    LinkedAt(s, s', n, i);
    if i <= at {
      LinkedAt(s, s', n, i + 1);
      assert PartOk(s, i);
    } else if i > at + 1 {
      assert PartOk(s, i - 1);
    }
  }

  lemma PLinkShared(cfg: Config, s: State, allocOk: bool)
    requires SharedOk(cfg, s) && InRange(s) && ProducerOk(s) && s.prod.PLink?
    ensures SharedOk(cfg, Apply(cfg, s, Produce(allocOk)))
  {
    var s' := Apply(cfg, s, Produce(allocOk));
    LinkedRing(s, s', s.prod.nb);
    LinkedParts(s, s', s.prod.nb);
    SlotsFrame(s, s');
    var n, d: int := |s.hist.ring|, cfg.maxBlock - 1;
    assert n * d == (n - 1) * d + d;
  }

  lemma PLinkKeeps(cfg: Config, s: State, allocOk: bool)
    requires Inv(cfg, s) && s.prod.PLink?
    ensures Inv(cfg, Apply(cfg, s, Produce(allocOk)))
  {
    var s' := Apply(cfg, s, Produce(allocOk));
    PLinkShared(cfg, s, allocOk);
    PLinkGuarantee(cfg, s, allocOk);
    ConsumerUndisturbed(s, s');
  }

  lemma PLinkGuarantee(cfg: Config, s: State, allocOk: bool)
    requires RingOk(s) && BlocksInRange(s) && InRange(s) && ProducerOk(s) && s.prod.PLink?
    requires RingOk(Apply(cfg, s, Produce(allocOk))) && BlocksInRange(Apply(cfg, s, Produce(allocOk)))
    ensures ProducerGuarantee(s, Apply(cfg, s, Produce(allocOk)))
  {
    var s' := Apply(cfg, s, Produce(allocOk));
    assert s.hist.at > 0 ==> s'.hist.ring[1] == s.hist.ring[1];
  }

  /** The front block gives its place to its successor and becomes the last of the ring. */
  ghost predicate Rotated(s: State, s': State)
    requires RingOk(s)
  {
    && s.hist.at > 0 && s'.mem == s.mem.(frontBlock := s.hist.ring[1])
    && s'.hist.ring == s.hist.ring[1..] + [s.hist.ring[0]] && s'.hist.at == s.hist.at - 1
  }

  lemma RotatedRing(s: State, s': State)
    requires RingOk(s) && Rotated(s, s')
    ensures RingOk(s')
  {
    var n := |s.hist.ring|;
    forall i | 0 <= i < n ensures LinkOk(s', i) {
      assert LinkOk(s, if i + 1 < n then i + 1 else 0);
    }
  }

  lemma RotatedParts(s: State, s': State)
    requires RingOk(s) && BlocksInRange(s) && PartsOk(s) && RingOk(s') && BlocksInRange(s') && Rotated(s, s')
    requires Held(s.mem.blocks[s.mem.frontBlock]) == 0 && s'.prod == s.prod
    requires s.prod.PAdvance? ==> s.prod.nb != s.mem.frontBlock
    requires s'.hist.base == s.hist.base && s'.hist.enq == s.hist.enq && s'.hist.deq == s.hist.deq
    ensures PartsOk(s')
  {
    var n := |s.hist.ring|;
    forall i | 0 <= i < n ensures PartOk(s', i) {
      assert PartOk(s, if i + 1 < n then i + 1 else 0);
    }
    SecondPart(s);
  }

  lemma CMoveFrontShared(cfg: Config, s: State)
    requires SharedOk(cfg, s) && InRange(s) && ConsumerOk(s) && ProducerOk(s) && s.cons.CMoveFront?
    ensures SharedOk(cfg, Apply(cfg, s, Consume))
  {
    var s' := Apply(cfg, s, Consume);
    RotatedRing(s, s');
    RotatedParts(s, s');
    forall b, j | 0 <= b < |s'.mem.blocks| && 0 <= j < s'.mem.blocks[b].size ensures SlotOk(s', b, j) {
      assert SlotOk(s, b, j);
    }
  }

  lemma CMoveFrontKeeps(cfg: Config, s: State)
    requires Inv(cfg, s) && s.cons.CMoveFront?
    ensures Inv(cfg, Apply(cfg, s, Consume))
  {
    CMoveFrontShared(cfg, s);
    ProducerUndisturbed(s, Apply(cfg, s, Consume));
  }
}
