/** How large the queue's first blocks are: `ceilToPow2` and the constructor. */
module SpscSizing {
  import opened PowersOfTwo
  import opened SpscQueue

  /** Of the k bits of x the upper m are ones. */
  ghost predicate UpperOnes(x: nat, k: nat, m: nat) {
    m <= k && x < Pow2(k) && Shr(x, k - m) == Pow2(m) - 1
  }

  ghost function Min(a: nat, b: nat): nat {
    if a <= b then a else b
  }

  /** `x |= x >> m` doubles the run of leading ones. */
  lemma Smear(x: nat, k: nat, m: nat)
    requires UpperOnes(x, k, Min(m, k))
    ensures UpperOnes(Or(x, Shr(x, m)), k, Min(2 * m, k))
  {
    var y := Shr(x, m);
    ShrBound(x, m);
    OrBound(x, y, k);
    if k <= m {
      SmearAll(x, y, k);
    } else {
      SmearUpper(x, y, k, m, Min(2 * m, k) - m);
    }
  }

  lemma SmearAll(x: nat, y: nat, k: nat)
    requires UpperOnes(x, k, k) && y <= x
    ensures UpperOnes(Or(x, y), k, k)
  {
    OrSubset(x, y, k);
  }

  /** The n bits below the m leading ones become ones. */
  lemma SmearUpper(x: nat, y: nat, k: nat, m: nat, n: nat)
    requires UpperOnes(x, k, m) && y == Shr(x, m) && n <= m && m + n <= k
    ensures Shr(Or(x, y), k - m - n) == Pow2(m + n) - 1
  {
    var low := k - m - n;
    var h := Shr(x, low);
    assert Shr(y, low) == Pow2(n) - 1 by {
      ShrAdd(x, m, low);
      ShrAdd(x, k - m, m - n);
      ShrOnes(m, m - n);
    }
    ShrAdd(x, low, n);
    OrShr(x, y, low);
    OrLowOnes(h, m, n);
  }

  /** All k bits set: nothing below 2^k adds a bit. */
  lemma {:induction false} OrSubset(x: nat, y: nat, k: nat)
    requires x == Pow2(k) - 1 && y <= x
    ensures Or(x, y) == x
  {
    if k > 0 {
      OrSubset(x / 2, y / 2, k - 1);
    }
  }

  /** The length in bits of a positive number. */
  ghost function Length(x: nat): (k: nat)
    requires x > 0
    ensures k > 0 && Pow2(k - 1) <= x < Pow2(k)
  {
    if x == 1 then 1 else 1 + Length(x / 2)
  }

  lemma {:induction false} LeadingOne(x: nat, k: nat)
    requires k > 0 && Pow2(k - 1) <= x < Pow2(k)
    ensures UpperOnes(x, k, 1)
  {
    if k > 1 {
      LeadingOne(x / 2, k - 1);
    }
  }

  lemma Pow2Of63()
    ensures Pow2(63) == 0x8000_0000_0000_0000
  {
    assert Pow2(7) == 128;
    Pow2Add(7, 7);
    Pow2Add(14, 14);
    Pow2Add(28, 28);
    Pow2Add(56, 7);
  }

  lemma Bits63(x: nat, k: nat)
    requires 0 < k && Pow2(k - 1) <= x < 0x8000_0000_0000_0000
    ensures k <= 63
  {
    Pow2Of63();
    if k > 63 {
      Pow2Monotone(63, k - 1);
    }
  }

  /** `x |= x >> m`. */
  method OrShifted(x: nat, m: nat, ghost k: nat) returns (y: nat)
    requires UpperOnes(x, k, Min(m, k))
    ensures UpperOnes(y, k, Min(2 * m, k))
  {
    Smear(x, k, m);
    y := Or(x, Shr(x, m));
  }

  /** `ceilToPow2` on a 64-bit size_t: the least power of two not below its argument. */
  method CeilToPow2(size: nat) returns (x: nat)
    requires 0 < size <= 0x8000_0000_0000_0000
    ensures IsPower(x)
    ensures size <= x < 2 * size
  {
    x := size - 1;
    ghost var k := if x == 0 then 0 else Length(x);
    if x > 0 {
      Bits63(x, k);
      LeadingOne(x, k);
    }
    x := OrShifted(x, 1, k);
    x := OrShifted(x, 2, k);
    x := OrShifted(x, 4, k);
    var i := 1;
    while i < 8
      invariant i == 1 || i == 2 || i == 4 || i == 8
      invariant UpperOnes(x, k, Min(8 * i, k))
    {
      x := OrShifted(x, i * 8, k);
      i := i * 2;
    }
    x := x + 1;
    assert x == Pow2(k);
  }

  /** The index arithmetic of the source: `(i + 1) & sizeMask` is one step round the ring buffer. */
  lemma MaskWraps(i: nat, k: nat)
    requires i < Pow2(k)
    ensures And(i + 1, Pow2(k) - 1) == Wrap(i, Pow2(k))
  {
    AndMask(i + 1, k);
  }

  /** All block sizes, and the size of the next block, are powers of two. */
  ghost predicate PowerSizes(m: Memory) {
    IsPower(m.largest) && forall b | 0 <= b < |m.blocks| :: IsPower(m.blocks[b].size)
  }

  /** Only the step that allocates brings a new size. */
  lemma SizesStay(cfg: Config, s: State, a: Action)
    requires InRange(s) && Enabled(s, a) && !(a.Produce? && s.prod.PAlloc?)
    ensures var m, m' := s.mem, Apply(cfg, s, a).mem;
            && m'.largest == m.largest && |m'.blocks| == |m.blocks|
            && forall b | 0 <= b < |m.blocks| :: m'.blocks[b].size == m.blocks[b].size
  {
  }

  lemma PowerStep(cfg: Config, s: State, a: Action)
    requires InRange(s) && Enabled(s, a) && PowerSizes(s.mem)
    ensures PowerSizes(Apply(cfg, s, a).mem)
  {
    if a.Produce? && s.prod.PAlloc? {
      var k: nat :| s.mem.largest == Pow2(k);
      assert s.mem.largest * 2 == Pow2(k + 1);
    } else {
      SizesStay(cfg, s, a);
    }
  }

  lemma {:induction false} PowerRun(cfg: Config, states: seq<State>, actions: seq<Action>, i: nat)
    requires IsRun(cfg, states, actions) && Initial(cfg, states[0]) && i < |states|
    ensures PowerSizes(states[i].mem)
  {
    if i > 0 {
      PowerRun(cfg, states, actions, i - 1);
      PowerStep(cfg, states[i - 1], actions[i - 1]);
    }
  }

  /** In every run, `(j + 1) & sizeMask` is one step round the ring buffer of every block. */
  lemma MaskIsWrap(cfg: Config, states: seq<State>, actions: seq<Action>, i: nat, b: nat, j: nat)
    requires IsRun(cfg, states, actions) && Initial(cfg, states[0]) && i < |states|
    requires b < |states[i].mem.blocks| && j < states[i].mem.blocks[b].size
    ensures var n := states[i].mem.blocks[b].size; IsPower(n) && And(j + 1, n - 1) == Wrap(j, n)
  {
    PowerRun(cfg, states, actions, i);
    var k: nat :| states[i].mem.blocks[b].size == Pow2(k);
    MaskWraps(j, k);
  }

  /** What the constructor leaves behind: n empty blocks of one size in a circle, both threads idle. */
  ghost predicate Initial(cfg: Config, s: State) {
    var m, h := s.mem, s.hist;
    && cfg.Valid() && 0 < |m.blocks| && m.largest >= 2 && IsPower(m.largest)
    && (forall i | 0 <= i < |m.blocks| ::
          m.blocks[i] == FreshBlock(m.largest, if i + 1 < |m.blocks| then i + 1 else 0))
    && m.frontBlock == m.tailBlock == 0
    && s.prod == PIdle && s.cons == CIdle
    && h == History(seq(|m.blocks|, i requires 0 <= i => i), 0, seq(|m.blocks|, i => 0), [], [], [], [], true, false)
    && (m.largest > cfg.size
        || (m.largest == cfg.maxBlock && 2 <= |m.blocks| && (|m.blocks| - 1) * (cfg.maxBlock - 1) >= cfg.size))
  }

  /** The initial block count leaves room for `size` elements in all blocks but one. */
  lemma BlockCount(size: nat, maxBlock: nat)
    requires size > 0 && maxBlock >= 2
    ensures var n := (size + maxBlock * 2 - 3) / (maxBlock - 1);
            n >= 2 && (n - 1) * (maxBlock - 1) >= size
  {
    var d := maxBlock - 1;
    var x := size + 2 * d - 1;
    var n := x / d;
    assert x == n * d + x % d && x % d < d;
    assert n * d == (n - 1) * d + d;
    assert n <= 1 ==> (n - 1) * d <= 0;
  }

  /** The constructor of ReaderWriterQueue. */
  method Construct(cfg: Config) returns (s: State)
    requires cfg.Valid() && IsPower(cfg.maxBlock) && cfg.size < 0x8000_0000_0000_0000
    ensures Initial(cfg, s)
  {
    var largest := CeilToPow2(cfg.size + 1);
    var blocks: seq<Block> := [];
    if largest > cfg.maxBlock * 2 {
      var count := (cfg.size + cfg.maxBlock * 2 - 3) / (cfg.maxBlock - 1);
      BlockCount(cfg.size, cfg.maxBlock);
      largest := cfg.maxBlock;
      for i := 0 to count
        invariant |blocks| == i
        invariant forall j | 0 <= j < i :: blocks[j] == FreshBlock(largest, if j + 1 < i then j + 1 else 0)
      {
        if i > 0 {
          blocks := blocks[i - 1 := blocks[i - 1].(next := i)];
        }
        blocks := blocks + [FreshBlock(largest, 0)];
      }
    } else {
      blocks := [FreshBlock(largest, 0)];
    }
    var n := |blocks|;
    s := State(Memory(blocks, 0, 0, largest), PIdle, CIdle,
               History(seq(n, i requires 0 <= i => i), 0, seq(n, i => 0), [], [], [], [], true, false));
  }
}
