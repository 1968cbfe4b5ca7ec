/** `websocket_parser_execute` and the loops around it, proved to do what one byte at a time does. */
module WebSocketParser {
  import opened Bytes
  import opened WebSocket

  /** A callback: frame_header, frame_body (with `parser->offset` at that moment, and the piece unmasked), frame_end. */
  datatype Event =
    | FrameHeader(flags: Flags, length: nat, mask: seq<byte>)
    | FrameBody(raw: seq<byte>, plain: seq<byte>, offset: nat)
    | FrameEnd

  /** The mask applied from position `at` of the mask on. */
  function Masked(src: seq<byte>, mask: seq<byte>, at: nat): (dst: seq<byte>)
    requires |mask| == 4
    ensures |dst| == |src|
  {
    seq(|src|, i requires 0 <= i < |src| => Xor(src[i], mask[MaskPlace(i + at)]))
  }

  function Payloads(raw: seq<byte>, plain: seq<byte>): (t: seq<Token>)
    requires |raw| == |plain|
    ensures |t| == |raw|
  {
    seq(|raw|, i requires 0 <= i < |raw| => Payload(raw[i], plain[i]))
  }

  function EventTokens(e: Event): seq<Token> {
    match e
    case FrameHeader(flags, length, mask) => [Header(flags, length, mask)]
    case FrameBody(raw, plain, _) => if |raw| == |plain| then Payloads(raw, plain) else []
    case FrameEnd => [End]
  }

  /** What a log of callbacks says, independent of how bodies were cut. */
  function Tokens(log: seq<Event>): seq<Token> {
    if log == [] then [] else Tokens(log[..|log| - 1]) + EventTokens(log[|log| - 1])
  }

  /** Body bytes delivered since the last header. */
  function Delivered(log: seq<Event>): nat {
    if log == [] || !log[|log| - 1].FrameBody? then 0
    else Delivered(log[..|log| - 1]) + |log[|log| - 1].raw|
  }

  /** At each body callback `parser->offset` was the number of payload bytes of that frame already delivered. */
  ghost predicate OffsetsOk(log: seq<Event>) {
    forall i | 0 <= i < |log| && log[i].FrameBody? :: log[i].offset == Delivered(log[..i])
  }

  /** Length bytes, most significant first, after those already in n. */
  function Shifted(n: nat, piece: seq<byte>): nat {
    if piece == [] then n else Shifted(n, piece[..|piece| - 1]) * 256 + piece[|piece| - 1]
  }

  lemma {:induction false} FeedLength(p: Parser, piece: seq<byte>)
    requires ParserOk(p) && p.phase.Length? && 0 < |piece| <= p.require
    ensures var q := p.(length := Shifted(p.length, piece), require := p.require - |piece|);
            Feed(p, piece) == if q.require > 0 then (q, []) else AfterLength(q)
    decreases |piece|
  {
    var n := |piece| - 1;
    var init, last := piece[..n], piece[n];
    assert piece == init + [last];
    if n > 0 {
      FeedLength(p, init);
    }
    FeedAppend(p, init, [last]);
    FeedOne(Feed(p, init).0, last);
    assert [] + FeedByte(Feed(p, init).0, last).1 == FeedByte(Feed(p, init).0, last).1;
  }

  lemma FeedOne(p: Parser, b: byte)
    requires ParserOk(p)
    ensures Feed(p, [b]) == FeedByte(p, b)
  {
    assert [b][1..] == [];
    assert FeedByte(p, b).1 + [] == FeedByte(p, b).1;
  }

  /** Mask bytes stored from place 4 - require on. */
  function Stored(mask: seq<byte>, at: nat, piece: seq<byte>): (m: seq<byte>)
    requires |mask| == 4 && at + |piece| <= 4
    ensures |m| == 4
  {
    mask[..at] + piece + mask[at + |piece|..]
  }

  lemma {:induction false} FeedMask(p: Parser, piece: seq<byte>)
    requires ParserOk(p) && p.phase.Mask? && 0 < |piece| <= p.require
    ensures var q := p.(mask := Stored(p.mask, 4 - p.require, piece), require := p.require - |piece|);
            Feed(p, piece) == if q.require > 0 then (q, []) else Announce(q)
    decreases |piece|
  {
    var n := |piece| - 1;
    var init, last := piece[..n], piece[n];
    assert piece == init + [last];
    if n > 0 {
      FeedMask(p, init);
    } else {
      assert Stored(p.mask, 4 - p.require, init) == p.mask;
    }
    assert Stored(p.mask, 4 - p.require, piece) == Stored(p.mask, 4 - p.require, init)[4 - p.require + n := last];
    FeedAppend(p, init, [last]);
    FeedOne(Feed(p, init).0, last);
    assert [] + FeedByte(Feed(p, init).0, last).1 == FeedByte(Feed(p, init).0, last).1;
  }

  /** What the body callback makes of a piece. */
  function Plain(p: Parser, piece: seq<byte>): (plain: seq<byte>)
    requires ParserOk(p)
    ensures |plain| == |piece|
  {
    if p.flags.masked then Masked(piece, p.mask, p.maskOffset) else piece
  }

  /** The parser after a piece of the body. */
  function AfterBody(p: Parser, n: nat): Parser
    requires n <= p.require
  {
    p.(require := p.require - n,
       maskOffset := if p.flags.masked then MaskPlace(n + p.maskOffset) else p.maskOffset,
       phase := if n == p.require then Start else Body)
  }

  /** The byte after n bytes of the body. */
  lemma BodyByte(p: Parser, piece: seq<byte>, n: nat)
    requires ParserOk(p) && p.phase.Body? && n < |piece| <= p.require
    ensures ParserOk(AfterBody(p, n))
    ensures FeedByte(AfterBody(p, n), piece[n]) ==
            (AfterBody(p, n + 1), [Payload(piece[n], Plain(p, piece)[n])] + if n + 1 == p.require then [End] else [])
  {
    MaskPlaceAdd(n + p.maskOffset, 1);
    var t := Payload(piece[n], Plain(p, piece)[n]);
    assert [t] + [End] == [t, End] && [t] + [] == [t];
  }

  /** Bytes each of which is told to the callbacks by one token, the last one perhaps by more. */
  lemma {:induction false} FeedTrace(data: seq<byte>, states: seq<Parser>, tokens: seq<Token>, tail: seq<Token>)
    requires 0 < |data| == |tokens| && |states| == |data| + 1
    requires forall i | 0 <= i < |data| :: ParserOk(states[i])
    requires forall i | 0 <= i < |data| ::
               FeedByte(states[i], data[i])
               == (states[i + 1], if i + 1 < |data| then [tokens[i]] else [tokens[i]] + tail)
    ensures Feed(states[0], data) == (states[|data|], tokens + tail)
    decreases |data|
  {
    if |data| == 1 {
      FeedOne(states[0], data[0]);
      assert data == [data[0]] && tokens == [tokens[0]];
    } else {
      FeedTrace(data[1..], states[1..], tokens[1..], tail);
      assert [tokens[0]] + (tokens[1..] + tail) == tokens + tail;
    }
  }

  /** The states a piece of the body leads through. */
  ghost function BodyStates(p: Parser, n: nat): (s: seq<Parser>)
    requires n <= p.require
    ensures |s| == n + 1 && forall i | 0 <= i <= n :: s[i] == AfterBody(p, i)
  {
    seq(n + 1, i requires 0 <= i <= n => AfterBody(p, i))
  }

  lemma BodyBytes(p: Parser, piece: seq<byte>, states: seq<Parser>, tokens: seq<Token>, tail: seq<Token>)
    requires ParserOk(p) && p.phase.Body? && 0 < |piece| <= p.require
    requires states == BodyStates(p, |piece|) && tokens == Payloads(piece, Plain(p, piece))
    requires tail == if |piece| == p.require then [End] else []
    ensures forall i | 0 <= i < |piece| :: ParserOk(states[i])
    ensures forall i | 0 <= i < |piece| ::
              FeedByte(states[i], piece[i])
              == (states[i + 1], if i + 1 < |piece| then [tokens[i]] else [tokens[i]] + tail)
  {
    forall i | 0 <= i < |piece|
      ensures ParserOk(states[i])
      ensures FeedByte(states[i], piece[i])
           == (states[i + 1], if i + 1 < |piece| then [tokens[i]] else [tokens[i]] + tail)
    {
      BodyByte(p, piece, i);
      assert [tokens[i]] + [] == [tokens[i]];
    }
  }

  lemma FeedBody(p: Parser, piece: seq<byte>)
    requires ParserOk(p) && p.phase.Body? && 0 < |piece| <= p.require
    ensures Feed(p, piece) ==
            (AfterBody(p, |piece|), Payloads(piece, Plain(p, piece)) + if |piece| == p.require then [End] else [])
  {
    var states, tokens := BodyStates(p, |piece|), Payloads(piece, Plain(p, piece));
    var tail := if |piece| == p.require then [End] else [];
    BodyBytes(p, piece, states, tokens, tail);
    FeedTrace(piece, states, tokens, tail);
    NothingRead(p);
  }

  lemma NothingRead(p: Parser)
    requires ParserOk(p) && p.phase.Body?
    ensures AfterBody(p, 0) == p
  {
  }

  /** One more callback in the log. */
  lemma Logged(log: seq<Event>, e: Event)
    requires OffsetsOk(log) && (e.FrameBody? ==> e.offset == Delivered(log))
    ensures OffsetsOk(log + [e])
    ensures Tokens(log + [e]) == Tokens(log) + EventTokens(e)
    ensures Delivered(log + [e]) == if e.FrameBody? then Delivered(log) + |e.raw| else 0
  {
    var log' := log + [e];
    assert log'[..|log|] == log;
    forall i | 0 <= i < |log'| && log'[i].FrameBody? ensures log'[i].offset == Delivered(log'[..i]) {
      if i < |log| {
        assert log'[..i] == log[..i];
      }
    }
  }

  /** The callbacks and the state after a stretch of input, when the stretch is extended by a piece. */
  lemma FeedPiece(p: Parser, data: seq<byte>, from: nat, to: nat)
    requires ParserOk(p) && from <= to <= |data|
    ensures var x := Feed(p, data[..from]);
            var y := Feed(x.0, data[from..to]);
            Feed(p, data[..to]) == (y.0, x.1 + y.1)
  {
    assert data[..to] == data[..from] + data[from..to];
    FeedAppend(p, data[..from], data[from..to]);
  }
}
