/** `websocket_build_frame`, and that the parser undoes it. */
module WebSocketBuilder {
  import opened Bytes
  import opened Options
  import opened PowersOfTwo
  import opened WebSocket
  import opened WebSocketParser

  /** websocket_calc_frame_size. */
  function FrameSize(flags: Flags, n: nat): nat {
    n + 2 + (if n >= 126 then (if n > 0xFFFF then 8 else 2) else 0) + (if flags.masked then 4 else 0)
  }

  /** The bytes of section 5.2 up to the length. */
  function HeadBytes(flags: Flags, n: nat): seq<byte>
    requires flags.opcode < 16
  {
    [(if flags.fin then 128 else 0) + flags.opcode, LengthByte(flags, n)] + ExtendedLength(n)
  }

  /** A whole frame: the mask of section 5.3 and the masked payload, or the payload as it is. */
  function Frame(flags: Flags, mask: seq<byte>, data: seq<byte>): seq<byte>
    requires flags.opcode < 16 && |mask| == 4
  {
    HeadBytes(flags, |data|) + if flags.masked then mask + Masked(data, mask, 0) else data
  }

  lemma {:induction false} ShiftedIsBE(s: seq<byte>)
    ensures Shifted(0, s) == FromBE(s)
  {
    if s != [] {
      ShiftedIsBE(s[..|s| - 1]);
    }
  }

  /** Reading an extended length back. */
  lemma FeedExtendedLength(p: Parser, n: nat, w: nat)
    requires ParserOk(p) && p.phase.Length? && p.length == 0 && p.require == w && n < Pow256(w) && w > 0
    ensures Feed(p, ToBE(n, w)) == AfterLength(p.(length := n, require := 0))
  {
    FeedLength(p, ToBE(n, w));
    ShiftedIsBE(ToBE(n, w));
    BigEndianRoundTrip(n, w);
  }

  lemma FeedTwo(p: Parser, a: byte, b: byte, rest: seq<byte>)
    requires ParserOk(p) && p.phase.Start?
    ensures var q := FeedByte(FeedByte(p, a).0, b);
            Feed(p, [a, b] + rest) == (Feed(q.0, rest).0, q.1 + Feed(q.0, rest).1)
  {
    var s := [a, b] + rest;
    assert s[1..] == [b] + rest && s[1..][1..] == rest;
    var p1 := FeedByte(p, a).0;
    assert FeedByte(p, a).1 == [];
    assert [] + Feed(p1, s[1..]).1 == Feed(p1, s[1..]).1;
  }

  /** The second byte of section 5.2: mask mark and length or length form. */
  function LengthByte(flags: Flags, n: nat): byte {
    (if flags.masked then 128 else 0) + (if n < 126 then n else if n <= 0xFFFF then 126 else 127)
  }

  function ExtendedLength(n: nat): seq<byte> {
    if n < 126 then [] else if n <= 0xFFFF then ToBE(n, 2) else ToBE(n, 8)
  }

  /** The parser after the first two bytes. */
  lemma FeedFirstTwo(p: Parser, flags: Flags, n: nat)
    requires ParserOk(p) && p.phase.Start? && flags.opcode < 16
    ensures var q := FeedByte(FeedByte(p, (if flags.fin then 128 else 0) + flags.opcode).0, LengthByte(flags, n));
            var r := p.(flags := flags, maskOffset := 0, length := n);
            q == if n < 126 then AfterLength(r)
                 else (r.(phase := Length, length := 0, require := |ExtendedLength(n)|), [])
  {
    var a: byte := (if flags.fin then 128 else 0) + flags.opcode;
    assert FeedByte(p, a).0 == p.(phase := Head, flags := flags.(masked := false), maskOffset := 0, length := 0);
  }

  lemma LengthLimits()
    ensures Pow256(2) == 0x1_0000 && Pow256(8) == 0x1_0000_0000_0000_0000
  {
    assert Pow256(4) == 0x1_0000_0000;
    assert Pow256(6) == 0x1_0000 * Pow256(4);
    assert Pow256(8) == 0x1_0000 * Pow256(6);
  }

  /** The bytes of a long length, if any, complete the header's first part. */
  lemma FeedLengthPart(q: Parser, n: nat)
    requires ParserOk(q) && q.phase.Length? && q.length == 0 && q.require == |ExtendedLength(n)| > 0
    requires n < 0x1_0000_0000_0000_0000
    ensures Feed(q, ExtendedLength(n)) == AfterLength(q.(length := n, require := 0))
  {
    LengthLimits();
    FeedExtendedLength(q, n, |ExtendedLength(n)|);
  }

  lemma SameAnnouncement(p: Parser, q: Parser)
    requires p == q.(phase := p.phase, require := p.require)
    ensures AfterLength(p) == AfterLength(q)
  {
  }

  lemma FeedHeadShort(p: Parser, flags: Flags, n: nat)
    requires ParserOk(p) && p.phase.Start? && flags.opcode < 16 && n < 126
    ensures Feed(p, HeadBytes(flags, n)) == AfterLength(p.(flags := flags, maskOffset := 0, length := n))
  {
    var a: byte := (if flags.fin then 128 else 0) + flags.opcode;
    FeedTwo(p, a, LengthByte(flags, n), []);
    FeedFirstTwo(p, flags, n);
    var r := AfterLength(p.(flags := flags, maskOffset := 0, length := n));
    assert r.1 + [] == r.1;
  }

  lemma FeedHeadLong(p: Parser, flags: Flags, n: nat, q: Parser)
    requires ParserOk(p) && p.phase.Start? && flags.opcode < 16 && 126 <= n < 0x1_0000_0000_0000_0000
    requires q == p.(flags := flags, maskOffset := 0, phase := Length, length := 0, require := |ExtendedLength(n)|)
    ensures ParserOk(q) && Feed(p, HeadBytes(flags, n)) == Feed(q, ExtendedLength(n))
  {
    var a: byte := (if flags.fin then 128 else 0) + flags.opcode;
    FeedFirstTwo(p, flags, n);
    FeedTwo(p, a, LengthByte(flags, n), ExtendedLength(n));
    var r := Feed(q, ExtendedLength(n));
    assert [] + r.1 == r.1;
  }

  /** The header up to the length, whatever form the length takes. */
  lemma FeedHeadBytes(p: Parser, flags: Flags, n: nat)
    requires ParserOk(p) && p.phase.Start? && flags.opcode < 16 && n < 0x1_0000_0000_0000_0000
    ensures Feed(p, HeadBytes(flags, n)) == AfterLength(p.(flags := flags, maskOffset := 0, length := n))
  {
    if n < 126 {
      FeedHeadShort(p, flags, n);
    } else {
      var r := p.(flags := flags, maskOffset := 0, length := n);
      var q := r.(phase := Length, length := 0, require := |ExtendedLength(n)|);
      FeedHeadLong(p, flags, n, q);
      FeedLengthPart(q, n);
      SameAnnouncement(q.(length := n, require := 0), r);
    }
  }

  /** Masking twice with the same mask gives the payload back. */
  lemma MaskedTwice(data: seq<byte>, mask: seq<byte>, at: nat)
    requires |mask| == 4
    ensures Masked(Masked(data, mask, at), mask, at) == data
  {
    forall i | 0 <= i < |data| ensures Masked(Masked(data, mask, at), mask, at)[i] == data[i] {
      XorTwice(data[i], mask[MaskPlace(i + at)]);
    }
  }

  /** What the callbacks are told about a whole frame. */
  ghost function FrameTokens(flags: Flags, mask: seq<byte>, raw: seq<byte>, plain: seq<byte>): seq<Token>
    requires |raw| == |plain|
  {
    [Header(flags, |raw|, if flags.masked then mask else [])] + Payloads(raw, plain) + [End]
  }

  lemma AnnouncedEmpty(q: Parser)
    requires |q.mask| == 4 && q.maskOffset == 0 && q.flags.opcode < 16 && q.length == 0
    ensures ParserOk(Announce(q).0) && Announce(q).0.phase.Start?
    ensures Announce(q).1 == FrameTokens(q.flags, q.mask, [], [])
  {
    assert Payloads([], []) == [];
  }

  /** What the parser is told of a body, as received and unmasked. */
  function PlainBody(q: Parser, raw: seq<byte>): (plain: seq<byte>)
    requires |q.mask| == 4
    ensures |plain| == |raw|
  {
    if q.flags.masked then Masked(raw, q.mask, 0) else raw
  }

  lemma AnnouncedBody(q: Parser, raw: seq<byte>)
    requires |q.mask| == 4 && q.maskOffset == 0 && q.flags.opcode < 16 && q.length == |raw| > 0
    ensures ParserOk(Announce(q).0)
    ensures Feed(Announce(q).0, raw).0.phase.Start?
    ensures Feed(Announce(q).0, raw).1 == Payloads(raw, PlainBody(q, raw)) + [End]
  {
    var a := Announce(q).0;
    FeedBody(a, raw);
    assert Plain(a, raw) == PlainBody(q, raw);
  }

  /** From the end of the header to the end of the frame. */
  lemma FeedAnnounced(q: Parser, raw: seq<byte>)
    requires |q.mask| == 4 && q.maskOffset == 0 && q.flags.opcode < 16 && q.length == |raw|
    ensures ParserOk(Announce(q).0)
    ensures Feed(Announce(q).0, raw).0.phase.Start?
    ensures Announce(q).1 + Feed(Announce(q).0, raw).1 == FrameTokens(q.flags, q.mask, raw, PlainBody(q, raw))
  {
    if raw == [] {
      AnnouncedEmpty(q);
      assert Announce(q).1 + [] == Announce(q).1;
    } else {
      AnnouncedBody(q, raw);
      var body := Payloads(raw, PlainBody(q, raw));
      assert Announce(q).1 + (body + [End]) == Announce(q).1 + body + [End];
    }
  }

  /** The frame as the parser receives it: the payload masked if need be. */
  function RawBody(flags: Flags, mask: seq<byte>, data: seq<byte>): (raw: seq<byte>)
    requires |mask| == 4
    ensures |raw| == |data|
  {
    if flags.masked then Masked(data, mask, 0) else data
  }

  /** From the end of the length on: the mask if there is one, then the body. */
  lemma FeedRest(q: Parser, mask: seq<byte>, data: seq<byte>)
    requires |q.mask| == |mask| == 4 && q.maskOffset == 0 && q.flags.opcode < 16 && q.length == |data|
    ensures ParserOk(AfterLength(q).0)
    ensures var raw := RawBody(q.flags, mask, data);
            var r := Feed(AfterLength(q).0, if q.flags.masked then mask + raw else raw);
            r.0.phase.Start? && AfterLength(q).1 + r.1 == FrameTokens(q.flags, mask, raw, data)
  {
    var raw := RawBody(q.flags, mask, data);
    if q.flags.masked {
      var m := AfterLength(q).0;
      FeedMask(m, mask);
      assert Stored(m.mask, 0, mask) == mask;
      FeedAppend(m, mask, raw);
      var q' := q.(mask := mask, phase := Mask, require := 0);
      FeedAnnounced(q', raw);
      MaskedTwice(data, mask, 0);
      var r := Feed(m, mask + raw);
      assert [] + r.1 == r.1;
    } else {
      FeedAnnounced(q, raw);
    }
  }

  /** Parsing a built frame reports the flags, the length and the payload it was built from. */
  lemma FeedFrame(p: Parser, flags: Flags, mask: seq<byte>, data: seq<byte>)
    requires ParserOk(p) && p.phase.Start? && flags.opcode < 16 && |mask| == 4 && |data| < 0x1_0000_0000_0000_0000
    ensures var r := Feed(p, Frame(flags, mask, data));
            r.0.phase.Start? && r.1 == FrameTokens(flags, mask, RawBody(flags, mask, data), data)
  {
    var q := p.(flags := flags, maskOffset := 0, length := |data|);
    var raw := RawBody(flags, mask, data);
    var rest := if flags.masked then mask + raw else raw;
    assert Frame(flags, mask, data) == HeadBytes(flags, |data|) + rest;
    FeedHeadBytes(p, flags, |data|);
    FeedAppend(p, HeadBytes(flags, |data|), rest);
    FeedRest(q, mask, data);
  }

  /**
   For every flag set, mask and payload: however the built frame is cut into calls, the callbacks are told its
   opcode, FIN mark, length and mask, and the pieces unmasked one after the other make up the payload.
   */
  lemma BuiltFrameParses(p: Parser, flags: Flags, mask: seq<byte>, data: seq<byte>, chunks: seq<seq<byte>>)
    requires ParserOk(p) && p.phase.Start? && flags.opcode < 16 && |mask| == 4 && |data| < 0x1_0000_0000_0000_0000
    requires Concat(chunks) == Frame(flags, mask, data)
    ensures var r := FeedAll(p, chunks);
            r.0.phase.Start? && r.1 == FrameTokens(flags, mask, RawBody(flags, mask, data), data)
  {
    CuttingDoesNotMatter(p, chunks);
    FeedFrame(p, flags, mask, data);
  }

  lemma FrameSizeIsLength(flags: Flags, mask: seq<byte>, data: seq<byte>)
    requires flags.opcode < 16 && |mask| == 4
    ensures |Frame(flags, mask, data)| == FrameSize(flags, |data|)
  {
  }

  lemma ShrFour(n: nat)
    ensures Shr(n, 4) == n / 16
  {
    assert Shr(n, 4) == Shr(n / 2, 3) == Shr(n / 2 / 2, 2) == Shr(n / 2 / 2 / 2, 1) == Shr(n / 2 / 2 / 2 / 2, 0);
  }

  lemma ShrEight(n: nat)
    ensures Shr(n, 8) == n / 256
  {
    ShrFour(n);
    ShrFour(n / 16);
    ShrAdd(n, 4, 4);
  }

  /** Byte i of a big-endian number is the number shifted down to it. */
  lemma {:induction false} ByteByShift(n: nat, w: nat, i: nat)
    requires i < w
    ensures ToBE(n, w)[i] == Shr(n, 8 * (w - 1 - i)) % 256
  {
    if i < w - 1 {
      ByteByShift(n / 256, w - 1, i);
      ShrEight(n);
      ShrAdd(n, 8, 8 * (w - 2 - i));
    }
  }

  /** websocket_decode: masks or unmasks src into dst and returns where in the mask it stopped. */
  method XorInto(dst: array<byte>, at: nat, src: seq<byte>, mask: seq<byte>, maskOffset: nat) returns (next: nat)
    requires at + |src| <= dst.Length && |mask| == 4
    modifies dst
    ensures dst[..at] == old(dst[..at])
    ensures dst[at..at + |src|] == Masked(src, mask, maskOffset)
    ensures next == MaskPlace(|src| + maskOffset)
  {
    ghost var result := Masked(src, mask, maskOffset);
    var i := 0;
    while i < |src|
      invariant 0 <= i <= |src|
      invariant dst[..at] == old(dst[..at])
      invariant forall k | 0 <= k < i :: dst[at + k] == result[k]
    {
      dst[at + i] := Xor(src[i], mask[MaskPlace(i + maskOffset)]);
      i := i + 1;
    }
    next := MaskPlace(i + maskOffset);
  }

  /** memcpy. */
  method CopyInto(dst: array<byte>, at: nat, src: seq<byte>)
    requires at + |src| <= dst.Length
    modifies dst
    ensures dst[..at] == old(dst[..at])
    ensures dst[at..at + |src|] == src
    ensures dst[at + |src|..] == old(dst[at + |src|..])
  {
    for i := 0 to |src|
      invariant dst[..at] == old(dst[..at])
      invariant forall k | 0 <= k < i :: dst[at + k] == src[k]
      invariant forall k | at + i <= k < dst.Length :: dst[k] == old(dst[k])
    {
      dst[at + i] := src[i];
    }
  }

  /** The 64-bit length, shifted out byte by byte. */
  method WriteLength64(frame: array<byte>, n: nat)
    requires frame.Length >= 10
    modifies frame
    ensures frame[..2] == old(frame[..2]) && frame[2..10] == ToBE(n, 8) && frame[10..] == old(frame[10..])
  {
    forall i | 0 <= i < 8 ensures ToBE(n, 8)[i] == Shr(n, 8 * (7 - i)) % 256 {
      ByteByShift(n, 8, i);
    }
    frame[2], frame[3], frame[4], frame[5] := Shr(n, 56) % 256, Shr(n, 48) % 256, Shr(n, 40) % 256, Shr(n, 32) % 256;
    frame[6], frame[7], frame[8], frame[9] := Shr(n, 24) % 256, Shr(n, 16) % 256, Shr(n, 8) % 256, Shr(n, 0) % 256;
  }

  /** The 16-bit length. */
  method WriteLength16(frame: array<byte>, n: nat)
    requires frame.Length >= 4
    modifies frame
    ensures frame[..2] == old(frame[..2]) && frame[2..4] == ToBE(n, 2) && frame[4..] == old(frame[4..])
  {
    ByteByShift(n, 2, 0);
    ByteByShift(n, 2, 1);
    frame[2], frame[3] := Shr(n, 8) % 256, n % 256;
  }

  /** The first part of websocket_build_frame: everything up to the mask or body. */
  method BuildHead(frame: array<byte>, flags: Flags, n: nat) returns (bodyOffset: nat)
    requires flags.opcode < 16 && n < 0x1_0000_0000_0000_0000 && |HeadBytes(flags, n)| <= frame.Length
    modifies frame
    ensures bodyOffset == |HeadBytes(flags, n)| && frame[..bodyOffset] == HeadBytes(flags, n)
    ensures frame[bodyOffset..] == old(frame[bodyOffset..])
  {
    frame[0], frame[1] := 0, 0;
    if flags.fin {
      frame[0] := 128;
    }
    frame[0] := frame[0] + flags.opcode;
    if flags.masked {
      frame[1] := 128;
    }
    frame[1] := frame[1] + if n < 126 then n else if n <= 0xFFFF then 126 else 127;
    ghost var two := frame[..2];
    assert two == [(if flags.fin then 128 else 0) + flags.opcode, LengthByte(flags, n)];
    bodyOffset := 2;
    if 126 <= n <= 0xFFFF {
      WriteLength16(frame, n);
      bodyOffset := 4;
    } else if n > 0xFFFF {
      WriteLength64(frame, n);
      bodyOffset := 10;
    }
    assert frame[..bodyOffset] == two + frame[2..bodyOffset];
  }

  /** websocket_build_frame.  Without a mask the bytes already in the frame at its place are used. */
  method BuildFrame(frame: array<byte>, flags: Flags, mask: Option<seq<byte>>, data: seq<byte>) returns (size: nat)
    requires flags.opcode < 16 && |data| < 0x1_0000_0000_0000_0000 && (mask.Some? ==> |mask.value| == 4)
    requires FrameSize(flags, |data|) <= frame.Length
    modifies frame
    ensures size == FrameSize(flags, |data|)
    ensures var h := |HeadBytes(flags, |data|)|;
            var m := if !flags.masked then NO_MASK else if mask.Some? then mask.value else old(frame[h..h + 4]);
            frame[..size] == Frame(flags, m, data)
  {
    ghost var room := frame[..];
    var bodyOffset := BuildHead(frame, flags, |data|);
    SameRest(room, frame[..], bodyOffset);
    size := WriteBody(frame, bodyOffset, flags, mask, data);
  }

  /** The second part of websocket_build_frame: the mask and the body. */
  method WriteBody(frame: array<byte>, at: nat, flags: Flags, mask: Option<seq<byte>>, data: seq<byte>)
    returns (size: nat)
    requires mask.Some? ==> |mask.value| == 4
    requires at + (if flags.masked then 4 else 0) + |data| <= frame.Length
    modifies frame
    ensures size == at + (if flags.masked then 4 else 0) + |data|
    ensures var m := if !flags.masked then NO_MASK else if mask.Some? then mask.value else old(frame[at..at + 4]);
            frame[..size] == old(frame[..at]) + if flags.masked then m + Masked(data, m, 0) else data
  {
    ghost var head := frame[..at];
    if flags.masked {
      WriteMasked(frame, at, mask, data);
      size := at + 4 + |data|;
      Join(frame[..], at, at + 4, size);
    } else {
      CopyInto(frame, at, data);
      size := at + |data|;
      Join(frame[..], at, at, size);
    }
  }

  lemma Join(s: seq<byte>, i: nat, j: nat, k: nat)
    requires i <= j <= k <= |s|
    ensures s[..k] == s[..i] + s[i..j] + s[j..k]
  {
  }

  lemma SameRest(s: seq<byte>, t: seq<byte>, i: nat)
    requires i <= |s| == |t| && s[i..] == t[i..]
    ensures i + 4 <= |s| ==> s[i..i + 4] == t[i..i + 4]
  {
    if i + 4 <= |s| {
      assert s[i..i + 4] == s[i..][..4] && t[i..i + 4] == t[i..][..4];
    }
  }

  /** The mask, unless the one already there is to be used, and the body masked with it. */
  method WriteMasked(frame: array<byte>, at: nat, mask: Option<seq<byte>>, data: seq<byte>)
    requires at + 4 + |data| <= frame.Length && (mask.Some? ==> |mask.value| == 4)
    modifies frame
    ensures frame[..at] == old(frame[..at])
    ensures var m := if mask.Some? then mask.value else old(frame[at..at + 4]);
            frame[at..at + 4] == m && frame[at + 4..at + 4 + |data|] == Masked(data, m, 0)
  {
    ghost var head := frame[..at];
    if mask.Some? {
      CopyInto(frame, at, mask.value);
    }
    var m := frame[at..at + 4];
    ghost var before := frame[..at + 4];
    assert before[..at] == head && before[at..] == m;
    var next := XorInto(frame, at + 4, data, m, 0);
    assert frame[..at] == frame[..at + 4][..at];
    assert frame[at..at + 4] == frame[..at + 4][at..];
  }

  /** b is the exclusive or of a payload byte and a mask byte. */
  ghost predicate IsXor(b: byte, data: byte, mask: byte) {
    forall k: nat | k < 8 :: Bit(b, k) == (Bit(data, k) + Bit(mask, k)) % 2
  }

  /** Every byte of a piece that starts at place `at` of the payload is masked by the mask byte in turn. */
  lemma MaskedBytes(data: seq<byte>, mask: seq<byte>, at: nat, i: nat)
    requires |mask| == 4 && i < |data|
    ensures IsXor(Masked(data, mask, at)[i], data[i], mask[(i + at) % 4])
  {
    MaskPlaceIsRemainder(i + at);
    var m := mask[(i + at) % 4];
    forall k: nat | k < 8 ensures Bit(Masked(data, mask, at)[i], k) == (Bit(data[i], k) + Bit(m, k)) % 2 {
      XorAt(data[i], m, k);
    }
  }

  /**
   The body of a built frame, which ends it: with a mask, byte i is the exclusive or of payload byte i and mask byte
   i % 4, behind the mask itself; without one it is the payload.
   */
  lemma BodyOnTheWire(flags: Flags, mask: seq<byte>, data: seq<byte>)
    requires flags.opcode < 16 && |mask| == 4
    ensures
      var f := Frame(flags, mask, data);
      var at := |f| - |data|;
      && at >= 2
      && (!flags.masked ==> f[at..] == data)
      && (flags.masked ==> at >= 6 && f[at - 4..at] == mask)
      && (flags.masked ==> forall i | 0 <= i < |data| :: IsXor(f[at + i], data[i], mask[i % 4]))
  {
    var f, head := Frame(flags, mask, data), HeadBytes(flags, |data|);
    if flags.masked {
      var body := Masked(data, mask, 0);
      assert f == head + (mask + body);
      assert f[|head|..|head| + 4] == mask;
      forall i | 0 <= i < |data| ensures IsXor(f[|head| + 4 + i], data[i], mask[i % 4]) {
        MaskedBytes(data, mask, 0, i);
        assert f[|head| + 4 + i] == body[i];
      }
    } else {
      assert f[|head|..] == data;
    }
  }
}
