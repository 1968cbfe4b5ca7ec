/** The WebSocket frame format of RFC 6455, sections 5.2 and 5.3, one byte at a time. */
module WebSocket {
  import opened Bytes
  import opened PowersOfTwo

  /** Opcode, final-frame mark and mask mark; the other bits of websocket_flags are ignored by the code. */
  datatype Flags = Flags(opcode: nat, fin: bool, masked: bool)

  datatype Phase = Start | Head | Length | Mask | Body

  /** The parser's fields that decide what it does next. */
  datatype Parser = Parser(
    phase: Phase, flags: Flags, mask: seq<byte>, maskOffset: nat, length: nat, require: nat)

  /**
   What the callbacks are told, body bytes one by one: as received and as unmasked by the body callback with
   `websocket_parser_decode`.
   */
  datatype Token = Header(flags: Flags, length: nat, mask: seq<byte>) | Payload(raw: byte, plain: byte) | End

  const NO_MASK: seq<byte> := [0, 0, 0, 0]

  /** websocket_parser_init. */
  const INIT := Parser(Start, Flags(0, false, false), NO_MASK, 0, 0, 0)

  predicate ParserOk(p: Parser) {
    && |p.mask| == 4 && p.maskOffset < 4 && p.flags.opcode < 16
    && match p.phase
       case Start => true
       case Head => p.maskOffset == 0
       case Length => 0 < p.require <= 8 && p.length < Pow256(8 - p.require) && p.maskOffset == 0
       case Mask => 0 < p.require <= 4 && p.maskOffset == 0
       case Body => 0 < p.require <= p.length
  }

  function Xor(a: byte, b: byte): byte {
    assert Pow2(8) == 256;
    XorBits(a, b, 8)
  }

  /** Exclusive or, bit by bit. */
  lemma XorAt(a: byte, b: byte, k: nat)
    requires k < 8
    ensures Bit(Xor(a, b), k) == (Bit(a, k) + Bit(b, k)) % 2
  {
    XorBitsAt(a, b, 8, k);
  }

  lemma XorTwice(a: byte, b: byte)
    ensures Xor(Xor(a, b), b) == a
  {
    assert Pow2(8) == 256;
    XorBitsTwice(a, b, 8);
  }

  /** `n % 4`: which byte of the mask covers payload byte n. */
  function MaskPlace(n: nat): (r: nat)
    ensures r < 4
  {
    if n < 4 then n else MaskPlace(n - 4)
  }

  lemma {:induction false} MaskPlaceIsRemainder(n: nat)
    ensures MaskPlace(n) == n % 4
  {
    if n >= 4 {
      MaskPlaceIsRemainder(n - 4);
    }
  }

  lemma {:induction false} MaskPlaceAdd(n: nat, k: nat)
    ensures MaskPlace(MaskPlace(n) + k) == MaskPlace(n + k)
  {
    if n >= 4 {
      MaskPlaceAdd(n - 4, k);
    }
  }

  /** The header is complete: the body follows, or the frame ends at once. */
  function Announce(p: Parser): (Parser, seq<Token>) {
    var header := Header(p.flags, p.length, if p.flags.masked then p.mask else []);
    if p.length > 0 then (p.(phase := Body, require := p.length), [header])
    else (p.(phase := Start, require := 0), [header, End])
  }

  /** After the length: the mask, if there is one. */
  function AfterLength(p: Parser): (Parser, seq<Token>) {
    if p.flags.masked then (p.(phase := Mask, require := 4), []) else Announce(p)
  }

  function FeedStart(p: Parser, b: byte): (Parser, seq<Token>) {
    (p.(phase := Head, flags := Flags(b % 16, b >= 128, false), maskOffset := 0, length := 0), [])
  }

  function FeedHead(p: Parser, b: byte): (Parser, seq<Token>) {
    var q := p.(flags := p.flags.(masked := b >= 128), length := b % 128);
    if q.length >= 126 then (q.(phase := Length, length := 0, require := if q.length == 127 then 8 else 2), [])
    else AfterLength(q)
  }

  function FeedLengthByte(p: Parser, b: byte): (Parser, seq<Token>)
    requires p.require > 0
  {
    var q := p.(length := p.length * 256 + b, require := p.require - 1);
    if q.require > 0 then (q, []) else AfterLength(q)
  }

  function FeedMaskByte(p: Parser, b: byte): (Parser, seq<Token>)
    requires |p.mask| == 4 && 0 < p.require <= 4
  {
    var q := p.(mask := p.mask[4 - p.require := b], require := p.require - 1);
    if q.require > 0 then (q, []) else Announce(q)
  }

  function FeedBodyByte(p: Parser, b: byte): (Parser, seq<Token>)
    requires |p.mask| == 4 && p.maskOffset < 4 && p.require > 0
  {
    var plain := if p.flags.masked then Xor(b, p.mask[p.maskOffset]) else b;
    var next := if p.flags.masked then MaskPlace(p.maskOffset + 1) else p.maskOffset;
    var q := p.(require := p.require - 1, maskOffset := next);
    if q.require > 0 then (q, [Payload(b, plain)]) else (q.(phase := Start), [Payload(b, plain), End])
  }

  /** One byte through the parser. */
  function FeedByte(p: Parser, b: byte): (r: (Parser, seq<Token>))
    requires ParserOk(p)
    ensures ParserOk(r.0)
  {
    match p.phase
    case Start => FeedStart(p, b)
    case Head => FeedHead(p, b)
    case Length => FeedLengthByte(p, b)
    case Mask => FeedMaskByte(p, b)
    case Body => FeedBodyByte(p, b)
  }

  /** A stretch of bytes through the parser. */
  function Feed(p: Parser, data: seq<byte>): (r: (Parser, seq<Token>))
    requires ParserOk(p)
    ensures ParserOk(r.0)
    decreases |data|
  {
    if data == [] then (p, [])
    else
      var first := FeedByte(p, data[0]);
      var rest := Feed(first.0, data[1..]);
      (rest.0, first.1 + rest.1)
  }

  lemma {:induction false} FeedAppend(p: Parser, a: seq<byte>, b: seq<byte>)
    requires ParserOk(p)
    ensures var x := Feed(p, a);
            var y := Feed(x.0, b);
            Feed(p, a + b) == (y.0, x.1 + y.1)
    decreases |a|
  {
    if a == [] {
      assert a + b == b && [] + Feed(p, b).1 == Feed(p, b).1;
    } else {
      var first := FeedByte(p, a[0]);
      assert (a + b)[0] == a[0] && (a + b)[1..] == a[1..] + b;
      FeedAppend(first.0, a[1..], b);
      var x := Feed(first.0, a[1..]);
      var y := Feed(x.0, b);
      Associative(first.1, x.1, y.1);
    }
  }

  /** Chunk after chunk. */
  function FeedAll(p: Parser, chunks: seq<seq<byte>>): (r: (Parser, seq<Token>))
    requires ParserOk(p)
    ensures ParserOk(r.0)
    decreases |chunks|
  {
    if chunks == [] then (p, [])
    else
      var first := Feed(p, chunks[0]);
      var rest := FeedAll(first.0, chunks[1..]);
      (rest.0, first.1 + rest.1)
  }

  /** However the input is cut into calls, the callbacks are told the same and the parser ends the same. */
  lemma {:induction false} CuttingDoesNotMatter(p: Parser, chunks: seq<seq<byte>>)
    requires ParserOk(p)
    ensures FeedAll(p, chunks) == Feed(p, Concat(chunks))
    decreases |chunks|
  {
    if chunks != [] {
      FeedAppend(p, chunks[0], Concat(chunks[1..]));
      CuttingDoesNotMatter(Feed(p, chunks[0]).0, chunks[1..]);
    }
  }
}
