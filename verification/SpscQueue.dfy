/**
 The single-producer/single-consumer block queue as a machine of atomic steps.

 Memory is a heap of blocks (a block's address is its index), linked into a circle by `next`.
 A step performs at most one load or store that the other thread can observe; reads and writes
 of variables that only the running thread touches are folded into the neighbouring step.
 Every load and store is sequentially consistent.
 */
module SpscQueue {

  /** What the queue carries. */
  type Element(==)

  /** A place for one element, or the outcome of a call: nothing, or an element. */
  datatype Slot = None | Some(value: Element)

  /** A ring buffer.  A slot is `None` while it holds no constructed element. */
  datatype Block = Block(
    size: nat, front: nat, tail: nat, localFront: nat, localTail: nat, next: nat, slots: seq<Slot>)

  datatype Memory = Memory(blocks: seq<Block>, frontBlock: nat, tailBlock: nat, largest: nat)

  /** `size`: what the queue was built for; `maxBlock`: the template's MAX_BLOCK_SIZE. */
  datatype Config = Config(size: nat, maxBlock: nat) {
    predicate Valid() {
      size > 0 && maxBlock >= 2
    }
  }

  /** Program points of `inner_enqueue`, with the local variables live there. */
  datatype Producer =
    | PIdle
    | PLoadTail(e: Element, canAlloc: bool)
    | PLoadFront(e: Element, canAlloc: bool, tb: nat, bt: nat, nt: nat)
    | PStore(e: Element, tb: nat, bt: nat, nt: nat)
    | PPublish(e: Element, tb: nat, nt: nat)
    | PCheckNext(e: Element, canAlloc: bool, tb: nat)
    | PLoadNextFront(e: Element, tb: nat)
    | PStoreNext(e: Element, nb: nat, front: nat, tail: nat)
    | PBumpNext(e: Element, nb: nat, tail: nat)
    | PAdvance(e: Element, nb: nat)
    | PAlloc(e: Element, tb: nat)
    | PLink(e: Element, tb: nat, nb: nat)
    | PDone(e: Element, canAlloc: bool, ok: bool)

  /** Program points of `try_dequeue`, `pop` (both take) and `peek`. */
  datatype Consumer =
    | CIdle
    | CLoadFront(peek: bool)
    | CLoadTail(peek: bool, fb: nat, bf: nat)
    | CCheckTailBlock(peek: bool, fb: nat)
    | CReloadTail(peek: bool, fb: nat)
    | CLoadNext(peek: bool, fb: nat)
    | CLoadNextTail(peek: bool, nb: nat)
    | CMoveFront(nb: nat, nf: nat, nt: nat)
    | CTake(fb: nat, bf: nat)
    | CPublish(fb: nat, bf: nat, result: Slot)
    | CPeekRead(b: nat, bf: nat)
    | CDone(peek: bool, result: Slot)

  /**
   History variables: they record the run and never influence a step.
   `ring` lists the blocks in `next` order from the front block, `at` is the tail block's place in it.
   `base[b]` is the position in `enq` of the element at block b's front index.
   `enq` and `deq` grow when an element becomes reachable and when its slot is given back;
   `sent` and `got` grow when the call returns.
   `emptySeen` and `fullSeen` say whether, at some instant of the running call, the queue was empty
   (consumer) or held at least `size` elements (producer).
   */
  datatype History = History(
    ring: seq<nat>, at: nat, base: seq<int>,
    enq: seq<Element>, deq: seq<Element>, sent: seq<Element>, got: seq<Element>,
    emptySeen: bool, fullSeen: bool)

  datatype State = State(mem: Memory, prod: Producer, cons: Consumer, hist: History)

  datatype Action =
    | Enqueue(e: Element, canAlloc: bool)   // the producer calls try_enqueue or enqueue
    | Produce(allocOk: bool)          // the producer's next step; allocOk: malloc would succeed
    | Dequeue(peek: bool)             // the consumer calls try_dequeue/pop, or peek
    | Consume                         // the consumer's next step

  /** `(i + 1) & sizeMask` for an index below a power-of-two size. */
  function Wrap(i: nat, n: nat): nat
    requires i < n
  {
    if i + 1 == n then 0 else i + 1
  }

  /** How many steps of `Wrap` lead from f to t. */
  function Dist(f: nat, t: nat, n: nat): nat
    requires f < n && t < n
  {
    if f <= t then t - f else t + n - f
  }

  /** All indices of a block are inside its buffer. */
  predicate BlockInRange(b: Block, blocks: nat) {
    && 2 <= b.size == |b.slots|
    && b.front < b.size && b.tail < b.size && b.localFront < b.size && b.localTail < b.size
    && b.next < blocks
  }

  predicate ProducerInRange(m: Memory, p: Producer) {
    match p
    case PIdle => true
    case PLoadTail(_, _) => true
    case PLoadFront(_, _, tb, bt, nt) => tb < |m.blocks| && bt < m.blocks[tb].size && nt < m.blocks[tb].size
    case PStore(_, tb, bt, nt) => tb < |m.blocks| && bt < m.blocks[tb].size && nt < m.blocks[tb].size
    case PPublish(_, tb, nt) => tb < |m.blocks| && nt < m.blocks[tb].size
    case PCheckNext(_, _, tb) => tb < |m.blocks|
    case PLoadNextFront(_, tb) => tb < |m.blocks|
    case PStoreNext(_, nb, f, t) => nb < |m.blocks| && f < m.blocks[nb].size && t < m.blocks[nb].size
    case PBumpNext(_, nb, t) => nb < |m.blocks| && t < m.blocks[nb].size
    case PAdvance(_, nb) => nb < |m.blocks|
    case PAlloc(_, tb) => tb < |m.blocks|
    case PLink(_, tb, nb) => tb < |m.blocks| && nb < |m.blocks|
    case PDone(_, _, _) => true
  }

  predicate ConsumerInRange(m: Memory, c: Consumer) {
    match c
    case CIdle => true
    case CLoadFront(_) => true
    case CLoadTail(_, fb, bf) => fb < |m.blocks| && bf < m.blocks[fb].size
    case CCheckTailBlock(_, fb) => fb < |m.blocks|
    case CReloadTail(_, fb) => fb < |m.blocks|
    case CLoadNext(_, fb) => fb < |m.blocks|
    case CLoadNextTail(_, nb) => nb < |m.blocks|
    case CMoveFront(nb, nf, _) => nb < |m.blocks| && nf < m.blocks[nb].size
    case CTake(fb, bf) => fb < |m.blocks| && bf < m.blocks[fb].size
    case CPublish(fb, bf, _) => fb < |m.blocks| && bf < m.blocks[fb].size
    case CPeekRead(b, bf) => b < |m.blocks| && bf < m.blocks[b].size
    case CDone(_, _) => true
  }

  /** Every pointer the code may follow is valid and every index is inside its block. */
  predicate InRange(s: State) {
    && s.mem.frontBlock < |s.mem.blocks| && s.mem.tailBlock < |s.mem.blocks|
    && s.mem.largest >= 2
    && (forall b | 0 <= b < |s.mem.blocks| :: BlockInRange(s.mem.blocks[b], |s.mem.blocks|))
    && |s.hist.base| == |s.mem.blocks|
    && s.hist.at < |s.hist.ring|
    && ProducerInRange(s.mem, s.prod)
    && ConsumerInRange(s.mem, s.cons)
  }

  function EmptySlots(n: nat): seq<Slot> {
    seq(n, i => None)
  }

  function FreshBlock(size: nat, next: nat): Block {
    Block(size, 0, 0, 0, 0, next, EmptySlots(size))
  }

  /** One step of `inner_enqueue`. */
  function ProduceStep(cfg: Config, s: State, allocOk: bool): State
    requires InRange(s)
  {
    var m, h := s.mem, s.hist;
    match s.prod
    case PIdle => s
    case PLoadTail(e, canAlloc) =>
      var tb := m.blocks[m.tailBlock];
      var nt := Wrap(tb.tail, tb.size);
      s.(prod := if nt != tb.localFront
                 then PStore(e, m.tailBlock, tb.tail, nt)
                 else PLoadFront(e, canAlloc, m.tailBlock, tb.tail, nt))
    case PLoadFront(e, canAlloc, t, bt, nt) =>
      var tb := m.blocks[t];
      s.(mem := m.(blocks := m.blocks[t := tb.(localFront := tb.front)]),
         prod := if nt != tb.front then PStore(e, t, bt, nt) else PCheckNext(e, canAlloc, t))
    case PStore(e, t, bt, nt) =>
      var tb := m.blocks[t];
      s.(mem := m.(blocks := m.blocks[t := tb.(slots := tb.slots[bt := Some(e)])]),
         prod := PPublish(e, t, nt))
    case PPublish(e, t, nt) =>
      s.(mem := m.(blocks := m.blocks[t := m.blocks[t].(tail := nt)]),
         prod := PDone(e, true, true),
         hist := h.(enq := h.enq + [e]))
    case PCheckNext(e, canAlloc, t) =>
      s.(prod := if m.blocks[t].next != m.frontBlock then PLoadNextFront(e, t)
                 else if canAlloc then PAlloc(e, t)
                 else PDone(e, false, false))
    case PLoadNextFront(e, t) =>
      var n := m.blocks[t].next;
      var nb := m.blocks[n];
      s.(mem := m.(blocks := m.blocks[n := nb.(localFront := nb.front)]),
         prod := PStoreNext(e, n, nb.front, nb.tail))
    case PStoreNext(e, n, f, t) =>
      var nb := m.blocks[n];
      s.(mem := m.(blocks := m.blocks[n := nb.(localFront := f, slots := nb.slots[t := Some(e)])]),
         prod := PBumpNext(e, n, t),
         hist := h.(base := h.base[n := |h.enq|]))
    case PBumpNext(e, n, t) =>
      var nb := m.blocks[n];
      s.(mem := m.(blocks := m.blocks[n := nb.(tail := Wrap(t, nb.size))]),
         prod := PAdvance(e, n))
    case PAdvance(e, n) =>
      s.(mem := m.(tailBlock := n),
         prod := PDone(e, true, true),
         hist := h.(enq := h.enq + [e], at := h.at + 1))
    case PAlloc(e, t) =>
      if !allocOk then s.(prod := PDone(e, true, false))
      else
        var size := if m.largest >= cfg.maxBlock then m.largest else m.largest * 2;
        var blank := FreshBlock(size, m.blocks[t].next);
        var nb := blank.(slots := blank.slots[0 := Some(e)], tail := 1, localTail := 1);
        s.(mem := m.(blocks := m.blocks + [nb], largest := size),
           prod := PLink(e, t, |m.blocks|),
           hist := h.(base := h.base + [|h.enq|]))
    case PLink(e, t, n) =>
      s.(mem := m.(blocks := m.blocks[t := m.blocks[t].(next := n)]),
         prod := PAdvance(e, n),
         hist := h.(ring := h.ring[..h.at + 1] + [n] + h.ring[h.at + 1..]))
    case PDone(e, canAlloc, ok) =>
      s.(prod := PIdle, hist := h.(sent := if ok then h.sent + [e] else h.sent))
  }

  /** Where `try_dequeue`/`pop`/`peek` go once an element is known to be at index i of block b. */
  function Found(peek: bool, b: nat, i: nat): Consumer {
    if peek then CPeekRead(b, i) else CTake(b, i)
  }

  /** One step of `try_dequeue`, `pop` or `peek`. */
  function ConsumeStep(s: State): State
    requires InRange(s)
  {
    var m, h := s.mem, s.hist;
    match s.cons
    case CIdle => s
    case CLoadFront(peek) =>
      var fb := m.blocks[m.frontBlock];
      s.(cons := if fb.front != fb.localTail
                 then Found(peek, m.frontBlock, fb.front)
                 else CLoadTail(peek, m.frontBlock, fb.front))
    case CLoadTail(peek, f, bf) =>
      var fb := m.blocks[f];
      s.(mem := m.(blocks := m.blocks[f := fb.(localTail := fb.tail)]),
         cons := if bf != fb.tail then Found(peek, f, bf) else CCheckTailBlock(peek, f))
    case CCheckTailBlock(peek, f) =>
      s.(cons := if f != m.tailBlock then CReloadTail(peek, m.frontBlock) else CDone(peek, None))
    case CReloadTail(peek, f) =>
      var fb := m.blocks[f];
      s.(mem := m.(blocks := m.blocks[f := fb.(localTail := fb.tail)]),
         cons := if fb.front != fb.tail then Found(peek, f, fb.front) else CLoadNext(peek, f))
    case CLoadNext(peek, f) =>
      s.(cons := CLoadNextTail(peek, m.blocks[f].next))
    case CLoadNextTail(peek, n) =>
      var nb := m.blocks[n];
      if peek then s.(cons := CPeekRead(n, nb.front))
      else s.(mem := m.(blocks := m.blocks[n := nb.(localTail := nb.tail)]),
              cons := CMoveFront(n, nb.front, nb.tail))
    case CMoveFront(n, nf, _) =>
      s.(mem := m.(frontBlock := n),
         cons := CTake(n, nf),
         hist := h.(ring := h.ring[1..] + [h.ring[0]], at := if h.at > 0 then h.at - 1 else 0))
    case CTake(f, bf) =>
      var fb := m.blocks[f];
      s.(mem := m.(blocks := m.blocks[f := fb.(slots := fb.slots[bf := None])]),
         cons := CPublish(f, bf, fb.slots[bf]))
    case CPublish(f, bf, r) =>
      var fb := m.blocks[f];
      s.(mem := m.(blocks := m.blocks[f := fb.(front := Wrap(bf, fb.size))]),
         cons := CDone(false, r),
         hist := h.(base := h.base[f := h.base[f] + 1], deq := if r.Some? then h.deq + [r.value] else h.deq))
    case CPeekRead(b, bf) =>
      s.(cons := CDone(true, m.blocks[b].slots[bf]))
    case CDone(peek, r) =>
      s.(cons := CIdle, hist := h.(got := if !peek && r.Some? then h.got + [r.value] else h.got))
  }

  /** Records, after every step, whether the queue is empty or holds `size` elements right now. */
  function Observe(cfg: Config, s: State): State {
    s.(hist := s.hist.(emptySeen := s.hist.emptySeen || |s.hist.enq| <= |s.hist.deq|,
                       fullSeen := s.hist.fullSeen || |s.hist.enq| - |s.hist.deq| >= cfg.size))
  }

  /** An idle thread may call; a thread inside a call may take its next step. */
  predicate Enabled(s: State, a: Action) {
    match a
    case Enqueue(_, _) => s.prod.PIdle?
    case Produce(_) => !s.prod.PIdle?
    case Dequeue(_) => s.cons.CIdle?
    case Consume => !s.cons.CIdle?
  }

  function Apply(cfg: Config, s: State, a: Action): State
    requires InRange(s) && Enabled(s, a)
  {
    Observe(cfg,
            match a
            case Enqueue(e, canAlloc) => s.(prod := PLoadTail(e, canAlloc), hist := s.hist.(fullSeen := false))
            case Produce(allocOk) => ProduceStep(cfg, s, allocOk)
            case Dequeue(peek) => s.(cons := CLoadFront(peek), hist := s.hist.(emptySeen := false))
            case Consume => ConsumeStep(s))
  }

  /** A run: the states reached from the first one by the given actions, in any interleaving. */
  ghost predicate IsRun(cfg: Config, states: seq<State>, actions: seq<Action>) {
    && |states| == |actions| + 1
    && forall i | 0 <= i < |actions| ::
         InRange(states[i]) && Enabled(states[i], actions[i]) && states[i + 1] == Apply(cfg, states[i], actions[i])
  }
}
