/** The inductive invariant of the block queue, and what it says at each program point. */
module SpscInvariant {
  import opened SpscQueue

  /** Number of elements between a block's indices. */
  function Held(b: Block): nat
    requires b.front < b.size && b.tail < b.size
  {
    Dist(b.front, b.tail, b.size)
  }

  /** localFront <= front <= localTail <= tail on the circle, seen from localFront. */
  ghost predicate IndexOk(b: Block, blocks: nat) {
    && BlockInRange(b, blocks)
    && Dist(b.localFront, b.front, b.size) <= Dist(b.localFront, b.localTail, b.size)
    && Dist(b.localFront, b.localTail, b.size) <= Dist(b.localFront, b.tail, b.size)
  }

  /** The element the producer has constructed but not yet made reachable. */
  ghost function Pending(p: Producer): seq<Element> {
    if p.PPublish? || p.PBumpNext? || p.PAdvance? || p.PLink? then [p.e] else []
  }

  /** 1 while the producer has constructed an element at b's tail index without moving the index. */
  ghost function Ahead(p: Producer, b: nat): nat {
    if (p.PPublish? && p.tb == b) || (p.PBumpNext? && p.nb == b) then 1 else 0
  }

  /** 1 while the consumer has emptied the slot at b's front index without moving the index. */
  ghost function Behind(c: Consumer, b: nat): nat {
    if c.CPublish? && c.fb == b then 1 else 0
  }

  ghost predicate BlocksInRange(s: State) {
    && |s.hist.base| == |s.mem.blocks|
    && forall b | 0 <= b < |s.mem.blocks| :: BlockInRange(s.mem.blocks[b], |s.mem.blocks|)
  }

  ghost predicate IndicesOk(s: State) {
    && |s.hist.base| == |s.mem.blocks|
    && forall b | 0 <= b < |s.mem.blocks| :: IndexOk(s.mem.blocks[b], |s.mem.blocks|)
  }

  /** Slot j holds exactly the element of the enqueue order that belongs there, or nothing. */
  ghost predicate SlotOk(s: State, b: nat, j: nat)
    requires BlocksInRange(s) && b < |s.mem.blocks| && j < s.mem.blocks[b].size
  {
    var blk := s.mem.blocks[b];
    var d := Dist(blk.front, j, blk.size);
    var order := s.hist.enq + Pending(s.prod);
    if Behind(s.cons, b) <= d < Held(blk) + Ahead(s.prod, b)
    then 0 <= s.hist.base[b] + d < |order| && blk.slots[j] == Some(order[s.hist.base[b] + d])
    else blk.slots[j] == None
  }

  ghost predicate SlotsOk(s: State)
    requires BlocksInRange(s)
  {
    forall b, j | 0 <= b < |s.mem.blocks| && 0 <= j < s.mem.blocks[b].size :: SlotOk(s, b, j)
  }

  /** The block at place i of the ring links to the block at the next place, the last one to the first. */
  ghost predicate LinkOk(s: State, i: nat)
    requires i < |s.hist.ring|
  {
    var r := s.hist.ring;
    r[i] < |s.mem.blocks| && s.mem.blocks[r[i]].next == if i + 1 < |r| then r[i + 1] else r[0]
  }

  /** The `next` pointers form one circle of distinct blocks, listed by `ring`. */
  ghost predicate RingOk(s: State) {
    var m, h := s.mem, s.hist;
    && h.at < |h.ring|
    && (forall i | 0 <= i < |h.ring| :: h.ring[i] < |m.blocks|)
    && (forall i | 0 <= i < |h.ring| :: LinkOk(s, i))
    && (forall i, j | 0 <= i < j < |h.ring| :: h.ring[i] != h.ring[j])
    && m.frontBlock == h.ring[0] && m.tailBlock == h.ring[h.at]
  }

  /**
   What the block at place i holds: up to the tail block, consecutive parts of `enq`; strictly between
   front and tail block, a full block; past the tail block nothing, except an element about to be published.
   */
  ghost predicate PartOk(s: State, i: nat)
    requires BlocksInRange(s) && i < |s.hist.ring| && s.hist.at < |s.hist.ring|
  {
    var h := s.hist;
    && h.ring[i] < |s.mem.blocks|
    && (i < h.at ==> h.ring[i + 1] < |s.mem.blocks|)
    && var blk := s.mem.blocks[h.ring[i]];
    && (i < h.at ==> h.base[h.ring[i + 1]] == h.base[h.ring[i]] + Held(blk))
    && (i == h.at ==> |h.enq| == h.base[h.ring[i]] + Held(blk))
    && (0 < i < h.at ==> Held(blk) == blk.size - 1)
    && (0 < i == h.at ==> Held(blk) > 0)
    && (h.at < i ==> Held(blk) == if s.prod.PAdvance? && s.prod.nb == h.ring[i] then 1 else 0)
  }

  ghost predicate PartsOk(s: State)
    requires RingOk(s) && BlocksInRange(s)
  {
    && s.hist.base[s.hist.ring[0]] == |s.hist.deq|
    && forall i | 0 <= i < |s.hist.ring| :: PartOk(s, i)
  }

  /** Once the tail block is full it stays full until the consumer reaches it. */
  ghost predicate TailFull(s: State)
    requires RingOk(s) && BlocksInRange(s)
  {
    var tb := s.mem.blocks[s.mem.tailBlock];
    s.hist.at > 0 ==> Held(tb) == tb.size - 1
  }

  ghost predicate ProducerOk(s: State)
    requires RingOk(s) && BlocksInRange(s)
  {
    var m, h := s.mem, s.hist;
    match s.prod
    case PIdle => true
    case PLoadTail(_, _) => true
    case PLoadFront(_, _, t, bt, nt) =>
      t == m.tailBlock && bt == m.blocks[t].tail && nt == Wrap(bt, m.blocks[t].size)
    case PStore(_, t, bt, nt) =>
      && t == m.tailBlock && bt == m.blocks[t].tail && nt == Wrap(bt, m.blocks[t].size)
      && nt != m.blocks[t].localFront
    case PPublish(_, t, nt) =>
      && t == m.tailBlock && nt == Wrap(m.blocks[t].tail, m.blocks[t].size)
      && nt != m.blocks[t].localFront
    case PCheckNext(_, _, t) =>
      t == m.tailBlock && TailFull(s) && (h.fullSeen || h.at > 0 || |h.ring| > 1)
    case PLoadNextFront(_, t) =>
      t == m.tailBlock && TailFull(s) && h.at + 1 < |h.ring|
    case PStoreNext(_, n, f, t) =>
      && TailFull(s) && h.at + 1 < |h.ring| && n == h.ring[h.at + 1]
      && f == t == m.blocks[n].front == m.blocks[n].tail == m.blocks[n].localFront
    case PBumpNext(_, n, t) =>
      && TailFull(s) && h.at + 1 < |h.ring| && n == h.ring[h.at + 1]
      && t == m.blocks[n].front == m.blocks[n].tail == m.blocks[n].localFront && h.base[n] == |h.enq|
    case PAdvance(_, n) =>
      && TailFull(s) && h.at + 1 < |h.ring| && n == h.ring[h.at + 1]
      && Held(m.blocks[n]) == 1 && h.base[n] == |h.enq|
    case PAlloc(_, t) =>
      t == m.tailBlock && TailFull(s) && h.fullSeen
    case PLink(_, t, n) =>
      && t == m.tailBlock && TailFull(s) && n == |m.blocks| - 1 && n !in h.ring
      && m.blocks[n].next == m.blocks[t].next && Held(m.blocks[n]) == 1 && h.base[n] == |h.enq|
      && m.blocks[n].front == 0
    case PDone(_, _, ok) => ok || h.fullSeen
  }

  ghost predicate ConsumerOk(s: State)
    requires RingOk(s) && BlocksInRange(s)
  {
    var m, h := s.mem, s.hist;
    match s.cons
    case CIdle => true
    case CLoadFront(_) => true
    case CLoadTail(_, f, bf) => f == m.frontBlock && bf == m.blocks[f].front
    case CCheckTailBlock(_, f) => f == m.frontBlock && (h.emptySeen || h.at > 0)
    case CReloadTail(_, f) => f == m.frontBlock && h.at > 0
    case CLoadNext(_, f) => f == m.frontBlock && h.at > 0 && Held(m.blocks[f]) == 0
    case CLoadNextTail(_, n) => h.at > 0 && n == h.ring[1] && Held(m.blocks[h.ring[0]]) == 0
    case CMoveFront(n, nf, nt) =>
      && h.at > 0 && n == h.ring[1] && Held(m.blocks[h.ring[0]]) == 0
      && nf == m.blocks[n].front && nt == m.blocks[n].localTail && nf != nt
    case CTake(f, bf) =>
      f == m.frontBlock && bf == m.blocks[f].front && bf != m.blocks[f].localTail
    case CPublish(f, bf, r) =>
      && f == m.frontBlock && bf == m.blocks[f].front && bf != m.blocks[f].localTail
      && |h.deq| < |h.enq| && r == Some(h.enq[|h.deq|])
    case CPeekRead(b, bf) =>
      && b < |m.blocks| && bf == m.blocks[b].front && Held(m.blocks[b]) > 0
      && (b == m.frontBlock || (h.at > 0 && b == h.ring[1] && Held(m.blocks[h.ring[0]]) == 0))
    case CDone(peek, r) =>
      match r
      case None => h.emptySeen
      case Some(v) =>
        if peek then |h.deq| < |h.enq| && v == h.enq[|h.deq|]
        else |h.deq| > 0 && v == h.deq[|h.deq| - 1]
  }

  /** The consumer's elements are the first of the producer's, in order. */
  ghost predicate OrderOk(s: State) {
    var h := s.hist;
    && h.deq <= h.enq
    && h.enq == h.sent + (if s.prod.PDone? && s.prod.ok then [s.prod.e] else [])
    && h.deq == h.got + (if s.cons.CDone? && !s.cons.peek && s.cons.result.Some? then [s.cons.result.value] else [])
  }

  /** Enough room was reserved: every block alone holds `size`, or all but one block together do. */
  ghost predicate CapacityOk(cfg: Config, s: State) {
    var m, h := s.mem, s.hist;
    || (m.largest > cfg.size && forall b | 0 <= b < |m.blocks| :: m.blocks[b].size > cfg.size)
    || (&& m.largest >= cfg.maxBlock
        && (forall b | 0 <= b < |m.blocks| :: m.blocks[b].size >= cfg.maxBlock)
        && 2 <= |h.ring| && (|h.ring| - 1) * (cfg.maxBlock - 1) >= cfg.size)
  }

  /** What the shared memory and the history satisfy between any two steps. */
  ghost predicate SharedOk(cfg: Config, s: State) {
    && cfg.Valid() && s.mem.largest >= 2
    && RingOk(s) && BlocksInRange(s)
    && IndicesOk(s) && SlotsOk(s) && PartsOk(s) && OrderOk(s) && CapacityOk(cfg, s)
  }

  ghost predicate Inv(cfg: Config, s: State) {
    && SharedOk(cfg, s)
    && ProducerInRange(s.mem, s.prod) && ProducerOk(s)
    && ConsumerInRange(s.mem, s.cons) && ConsumerOk(s)
  }
}
