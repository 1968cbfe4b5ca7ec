/** The parser object: `websocket_parser_execute` with its callbacks recorded. */
module WebSocketObject {
  import opened Bytes
  import opened WebSocket
  import opened WebSocketParser

  lemma StoredNothing(mask: seq<byte>, at: nat)
    requires |mask| == 4 && at <= 4
    ensures Stored(mask, at, []) == mask
  {
  }

  /** One byte more of the mask. */
  lemma StoredNext(mask: seq<byte>, at: nat, data: seq<byte>, from: nat, p: nat)
    requires |mask| == 4 && from <= p < |data| && at + (p - from) < 4
    ensures Stored(mask, at, data[from..p + 1]) == Stored(mask, at, data[from..p])[at + (p - from) := data[p]]
  {
    assert data[from..p + 1] == data[from..p] + [data[p]];
  }

  /** The fields after a piece of the body of n bytes. */
  lemma AfterBodyIs(p: Parser, q: Parser, n: nat)
    requires ParserOk(p) && p.phase.Body? && 0 < n <= p.require
    requires q == p.(phase := if n == p.require then Start else Body, require := p.require - n,
                     maskOffset := if p.flags.masked then MaskPlace(n + p.maskOffset) else p.maskOffset)
    ensures q == AfterBody(p, n) && ParserOk(q)
  {
  }

  class WebsocketParser {
    var state: Phase
    var flags: Flags
    var mask: seq<byte>
    var maskOffset: nat
    var length: nat
    var require: nat
    var offset: nat
    var log: seq<Event>

    function View(): Parser
      reads this
    {
      Parser(state, flags, mask, maskOffset, length, require)
    }

    ghost predicate Valid()
      reads this
    {
      && ParserOk(View()) && OffsetsOk(log)
      && (state.Head? || state.Length? || state.Mask? ==> offset == 0)
      && (state.Body? ==> offset == Delivered(log) == length - require)
    }

    /** websocket_parser_init. */
    constructor ()
      ensures Valid() && View() == INIT && log == []
    {
      state, flags, mask, maskOffset, length, require, offset, log :=
        Start, Flags(0, false, false), NO_MASK, 0, 0, 0, 0, [];
    }

    /** websocket_parser_decode: unmasks a piece and remembers where in the mask it stopped. */
    method Decode(src: seq<byte>) returns (dst: seq<byte>)
      requires |mask| == 4
      modifies this`maskOffset
      ensures dst == Masked(src, mask, old(maskOffset))
      ensures maskOffset == MaskPlace(|src| + old(maskOffset))
    {
      dst := [];
      var i := 0;
      while i < |src|
        invariant 0 <= i <= |src| && maskOffset == old(maskOffset)
        invariant dst == Masked(src, mask, old(maskOffset))[..i]
      {
        dst := dst + [Xor(src[i], mask[MaskPlace(i + maskOffset)])];
        i := i + 1;
      }
      maskOffset := MaskPlace(i + maskOffset);
    }

    method Notify(e: Event)
      requires OffsetsOk(log) && (e.FrameBody? ==> e.offset == Delivered(log))
      modifies this`log
      ensures log == old(log) + [e] && OffsetsOk(log)
      ensures Tokens(log) == old(Tokens(log)) + EventTokens(e)
      ensures Delivered(log) == if e.FrameBody? then old(Delivered(log)) + |e.raw| else 0
    {
      Logged(log, e);
      log := log + [e];
    }

    /** frame_header, and frame_end at once when there is no body. */
    method NotifyHeader()
      requires ParserOk(View().(phase := Start)) && OffsetsOk(log) && offset == 0
      modifies this`state, this`require, this`log
      ensures Valid() && View() == Announce(old(View())).0
      ensures Tokens(log) == old(Tokens(log)) + Announce(old(View())).1
    {
      var header := FrameHeader(flags, length, if flags.masked then mask else []);
      if length > 0 {
        state, require := Body, length;
        Notify(header);
      } else {
        state, require := Start, 0;
        Notify(header);
        Notify(FrameEnd);
      }
    }

    /** After the length: go on to the mask, or announce the frame. */
    method FinishLength()
      requires ParserOk(View().(phase := Start)) && OffsetsOk(log) && offset == 0 && maskOffset == 0
      modifies this`state, this`require, this`log
      ensures Valid() && View() == AfterLength(old(View())).0
      ensures Tokens(log) == old(Tokens(log)) + AfterLength(old(View())).1
    {
      if flags.masked {
        state, require := Mask, 4;
      } else {
        NotifyHeader();
      }
    }

    /** case s_start */
    method ReadStart(b: byte)
      requires Valid() && state.Start?
      modifies this
      ensures Valid() && View() == FeedByte(old(View()), b).0
      ensures Tokens(log) == old(Tokens(log)) + FeedByte(old(View()), b).1
    {
      offset, length, maskOffset := 0, 0, 0;
      flags := Flags(b % 16, b >= 128, false);
      state := Head;
      assert Tokens(log) + [] == Tokens(log);
    }

    /** case s_head */
    method ReadHead(b: byte)
      requires Valid() && state.Head?
      modifies this
      ensures Valid() && View() == FeedByte(old(View()), b).0
      ensures Tokens(log) == old(Tokens(log)) + FeedByte(old(View()), b).1
    {
      length := b % 128;
      flags := flags.(masked := b >= 128);
      if length >= 126 {
        require := if length == 127 then 8 else 2;
        length := 0;
        state := Length;
      } else {
        FinishLength();
      }
    }

    /** case s_length: takes length bytes while there are any and they are wanted. */
    method ReadLength(data: seq<byte>, from: nat) returns (p: nat)
      requires Valid() && state.Length? && from < |data|
      modifies this
      ensures from < p <= |data|
      ensures Valid() && View() == Feed(old(View()), data[from..p]).0
      ensures Tokens(log) == old(Tokens(log)) + Feed(old(View()), data[from..p]).1
    {
      p := from;
      while p < |data| && require > 0
        invariant from <= p <= |data| && require == old(require) - (p - from)
        invariant p > from || require > 0
        invariant length == Shifted(old(length), data[from..p])
        modifies this`length, this`require
      {
        assert data[from..p + 1][..p - from] == data[from..p];
        length := length * 256 + data[p];
        require := require - 1;
        p := p + 1;
      }
      FeedLength(old(View()), data[from..p]);
      if require == 0 {
        FinishLength();
      }
    }

    /** The loop of case s_mask: takes mask bytes while there are any and they are wanted. */
    method TakeMask(data: seq<byte>, from: nat) returns (p: nat)
      requires |mask| == 4 && 0 < require <= 4 && from < |data|
      modifies this`mask, this`require
      ensures from < p <= |data| && require == old(require) - (p - from) && (require == 0 || p == |data|)
      ensures mask == Stored(old(mask), 4 - old(require), data[from..p])
    {
      ghost var before, at := mask, 4 - require;
      StoredNothing(before, at);
      p := from;
      while p < |data| && require > 0
        invariant from <= p <= |data| && require == old(require) - (p - from)
        invariant p > from || require > 0
        invariant mask == Stored(before, at, data[from..p])
      {
        StoredNext(before, at, data, from, p);
        mask := mask[4 - require := data[p]];
        require := require - 1;
        p := p + 1;
      }
    }

    /** case s_mask */
    method ReadMask(data: seq<byte>, from: nat) returns (p: nat)
      requires Valid() && state.Mask? && from < |data|
      modifies this
      ensures from < p <= |data|
      ensures Valid() && View() == Feed(old(View()), data[from..p]).0
      ensures Tokens(log) == old(Tokens(log)) + Feed(old(View()), data[from..p]).1
    {
      ghost var before := View();
      p := TakeMask(data, from);
      ghost var piece := data[from..p];
      FeedMask(before, piece);
      if require == 0 {
        NotifyHeader();
      } else {
        assert Tokens(log) + [] == Tokens(log);
      }
    }

    /** frame_body: the callback unmasks the piece if the frame is masked. */
    method NotifyBody(piece: seq<byte>)
      requires Valid() && state.Body? && |piece| <= require
      modifies this`maskOffset, this`log
      ensures maskOffset == if flags.masked then MaskPlace(|piece| + old(maskOffset)) else old(maskOffset)
      ensures OffsetsOk(log) && Delivered(log) == old(Delivered(log)) + |piece|
      ensures Tokens(log) == old(Tokens(log)) + Payloads(piece, Plain(old(View()), piece))
    {
      ghost var before := View();
      var plain := piece;
      if flags.masked {
        plain := Decode(piece);
      }
      assert plain == Plain(before, piece);
      Notify(FrameBody(piece, plain, offset));
    }

    /** Delivers a piece of the body; the frame ends with the last one. */
    method Deliver(piece: seq<byte>)
      requires Valid() && state.Body? && 0 < |piece| <= require
      modifies this`maskOffset, this`log, this`require, this`state
      ensures ParserOk(View()) && OffsetsOk(log)
      ensures state == (if |piece| == old(require) then Start else Body)
      ensures state.Body? ==> Delivered(log) == old(Delivered(log)) + |piece| == length - require
      ensures View() == Feed(old(View()), piece).0
      ensures Tokens(log) == old(Tokens(log)) + Feed(old(View()), piece).1
    {
      ghost var before, told := View(), Tokens(log);
      ghost var body := Payloads(piece, Plain(before, piece));
      FeedBody(before, piece);
      NotifyBody(piece);
      require := require - |piece|;
      if require == 0 {
        state := Start;
        Notify(FrameEnd);
        Associative(told, body, [End]);
      } else {
        assert body + [] == body;
      }
      AfterBodyIs(before, View(), |piece|);
    }

    /** case s_body: delivers what there is of the body, all of it or up to the end of the data. */
    method ReadBody(data: seq<byte>, from: nat, frameStart: nat) returns (p: nat, frameOffset: nat)
      requires Valid() && state.Body? && from < |data| && frameStart == from
      modifies this
      ensures from < p <= |data| && (frameOffset == p || p == |data|)
      ensures Valid() && View() == Feed(old(View()), data[from..p]).0
      ensures Tokens(log) == old(Tokens(log)) + Feed(old(View()), data[from..p]).1
    {
      p, frameOffset := from, frameStart;
      if p + require <= |data| {
        p := p + require;
        Deliver(data[from..p]);
        frameOffset := p;
      } else {
        p := |data|;
        Deliver(data[from..p]);
        offset := offset + p - frameOffset;
        frameOffset := 0;
      }
    }

    /** One turn of the loop of websocket_parser_execute. */
    method Advance(data: seq<byte>, from: nat, frameStart: nat) returns (p: nat, frameOffset: nat)
      requires Valid() && from < |data| && frameStart == from
      modifies this
      ensures from < p <= |data| && (p < |data| ==> frameOffset == p)
      ensures Valid() && View() == Feed(old(View()), data[from..p]).0
      ensures Tokens(log) == old(Tokens(log)) + Feed(old(View()), data[from..p]).1
    {
      p, frameOffset := from + 1, frameStart + 1;
      FeedOne(View(), data[from]);
      assert data[from..from + 1] == [data[from]];
      match state
      case Start => ReadStart(data[from]);
      case Head => ReadHead(data[from]);
      case Length =>
        p := ReadLength(data, from);
        frameOffset := p;
      case Mask =>
        p := ReadMask(data, from);
        frameOffset := p;
      case Body =>
        p, frameOffset := ReadBody(data, from, frameStart);
    }

    /** websocket_parser_execute, with callbacks that return 0. */
    method Execute(data: seq<byte>) returns (parsed: nat)
      requires Valid()
      modifies this
      ensures Valid() && parsed == |data|
      ensures View() == Feed(old(View()), data).0
      ensures Tokens(log) == old(Tokens(log)) + Feed(old(View()), data).1
    {
      ghost var before, told := View(), Tokens(log);
      var p, frameOffset := 0, 0;
      assert told + [] == told;
      while p != |data|
        invariant 0 <= p <= |data| && (p < |data| ==> frameOffset == p)
        invariant Valid() && View() == Feed(before, data[..p]).0
        invariant Tokens(log) == told + Feed(before, data[..p]).1
        decreases |data| - p
      {
        ghost var from, done := p, Feed(before, data[..p]);
        p, frameOffset := Advance(data, p, frameOffset);
        FeedPiece(before, data, from, p);
        Associative(told, done.1, Feed(done.0, data[from..p]).1);
      }
      assert data[..|data|] == data;
      parsed := |data|;
    }
  }
}
