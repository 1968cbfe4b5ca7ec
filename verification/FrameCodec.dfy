/** The length-prefixed frames of the server and the controller, and their whole-buffer decoder. */
module FrameCodec {
  import opened Bytes

  /** Frames of this many bytes and more are refused. */
  const LIMIT: nat := 1024 * 1024 * 2

  /** `send_message`: the length as a big-endian u32 (truncated to 32 bits), then the payload. */
  function Encode(payload: seq<byte>): seq<byte> {
    ToBE(|payload| % 0x1_0000_0000, 4) + payload
  }

  datatype Extracted = NeedMore | TooLong | Frame(payload: seq<byte>, rest: seq<byte>)

  /** What `try_extract_frame` / `on_try_extract_frame` makes of a buffer. */
  function Extract(buffer: seq<byte>): Extracted {
    if |buffer| < 4 then NeedMore
    else
      var len := FromBE(buffer[..4]);
      if len <= 0 || len >= LIMIT then TooLong
      else if |buffer| < 4 + len then NeedMore
      else Frame(buffer[4..4 + len], buffer[4 + len..])
  }

  /** All frames at the start of a stream: what remains, and whether a length was refused. */
  datatype Parsed = Parsed(frames: seq<seq<byte>>, rest: seq<byte>, failed: bool)

  function Parse(stream: seq<byte>): Parsed
    decreases |stream|
  {
    match Extract(stream)
    case NeedMore => Parsed([], stream, false)
    case TooLong => Parsed([], stream, true)
    case Frame(payload, rest) => var p := Parse(rest); Parsed([payload] + p.frames, p.rest, p.failed)
  }

  /** A connection's receiving side: `poll_read` with its read buffer. */
  class Receiver {
    var buffer: seq<byte>
    var frames: seq<seq<byte>>   // handed to on_recv_message, in order
    var failed: bool             // poll_read has returned an error

    constructor ()
      ensures buffer == [] && frames == [] && !failed
    {
      buffer, frames, failed := [], [], false;
    }

    /** `try_extract_frame`: consumes a complete frame from the buffer. */
    method TryExtractFrame() returns (frame: Extracted)
      modifies this`buffer
      ensures frame == Extract(old(buffer))
      ensures buffer == if frame.Frame? then frame.rest else old(buffer)
      ensures frame.Frame? ==> |buffer| < |old(buffer)|
    {
      if |buffer| < 4 {
        return NeedMore;
      }
      var len := FromBE(buffer[..4]);
      if len <= 0 || len >= LIMIT {
        return TooLong;
      }
      if |buffer| < 4 + len {
        return NeedMore;
      }
      var packet := buffer[..4 + len];
      buffer := buffer[4 + len..];
      frame := Frame(packet[4..], buffer);
    }

    /** One turn of the read loop: the bytes read are appended, then every complete frame is unpacked. */
    method Read(chunk: seq<byte>)
      requires !failed
      modifies this
      ensures var p := Parse(old(buffer) + chunk);
              frames == old(frames) + p.frames && buffer == p.rest && failed == p.failed
    {
      buffer := buffer + chunk;
      ghost var whole, done := Parse(buffer), [];
      Finds([], buffer);
      while buffer != []
        invariant !failed && frames == old(frames) + done
        invariant whole == Onward(done, buffer)
        decreases |buffer|
      {
        ghost var before := buffer;
        Finds(done, before);
        var result := TryExtractFrame();
        match result
        case NeedMore =>
          return;
        case TooLong =>
          failed := true;
          return;
        case Frame(payload, _) =>
          frames := frames + [payload];
          done := done + [payload];
      }
      Finds(done, buffer);
    }
  }

  /** What a stream gives in all, once the frames done were found and buffer is left. */
  function Onward(done: seq<seq<byte>>, buffer: seq<byte>): Parsed {
    var p := Parse(buffer);
    Parsed(done + p.frames, p.rest, p.failed)
  }

  lemma Finds(done: seq<seq<byte>>, buffer: seq<byte>)
    ensures Onward([], buffer) == Parse(buffer)
    ensures
      match Extract(buffer)
      case NeedMore => Onward(done, buffer) == Parsed(done, buffer, false)
      case TooLong => Onward(done, buffer) == Parsed(done, buffer, true)
      case Frame(payload, rest) => Onward(done, buffer) == Onward(done + [payload], rest)
    ensures buffer == [] ==> Onward(done, buffer) == Parsed(done, [], false)
  {
    assert [] + Parse(buffer).frames == Parse(buffer).frames;
    assert done + [] == done;
    var e := Extract(buffer);
    if e.Frame? {
      Associative(done, [e.payload], Parse(e.rest).frames);
    }
  }

  /** More input does not change what was extracted, nor a refusal. */
  lemma ExtractAppend(a: seq<byte>, b: seq<byte>)
    requires !Extract(a).NeedMore?
    ensures Extract(a + b) == if Extract(a).Frame? then Frame(Extract(a).payload, Extract(a).rest + b) else TooLong
  {
    assert (a + b)[..4] == a[..4];
    var len := FromBE(a[..4]);
    if Extract(a).Frame? {
      assert (a + b)[4..4 + len] == a[4..4 + len];
      assert (a + b)[4 + len..] == a[4 + len..] + b;
    }
  }

  /** More input never changes the frames already found. */
  lemma {:induction false} ParseAppend(a: seq<byte>, b: seq<byte>)
    ensures var p := Parse(a);
            var q := Parse(p.rest + b);
            if p.failed then Parse(a + b).frames == p.frames && Parse(a + b).failed
            else Parse(a + b) == Parsed(p.frames + q.frames, q.rest, q.failed)
    decreases |a|
  {
    var e := Extract(a);
    if e.NeedMore? {
      assert [] + Parse(a + b).frames == Parse(a + b).frames;
    } else {
      ExtractAppend(a, b);
      if e.Frame? {
        ParseAppend(e.rest, b);
        var p := Parse(e.rest);
        Associative([e.payload], p.frames, Parse(p.rest + b).frames);
        assert Parse(a) == Parsed([e.payload] + p.frames, p.rest, p.failed);
      }
    }
  }

  /** Feeding the chunks one after the other, stopping at an error: the frames found and the state left. */
  function ReadAll(buffer: seq<byte>, chunks: seq<seq<byte>>): Parsed
    decreases |chunks|
  {
    if chunks == [] then Parsed([], buffer, false)
    else
      var p := Parse(buffer + chunks[0]);
      if p.failed then p
      else var q := ReadAll(p.rest, chunks[1..]); Parsed(p.frames + q.frames, q.rest, q.failed)
  }

  /** However a stream is cut into reads, the same frames come out, and the same verdict. */
  lemma {:induction false} CuttingDoesNotMatter(buffer: seq<byte>, chunks: seq<seq<byte>>)
    requires Parse(buffer) == Parsed([], buffer, false)
    ensures var whole := Parse(buffer + Concat(chunks));
            var r := ReadAll(buffer, chunks);
            r.frames == whole.frames && r.failed == whole.failed && (!r.failed ==> r.rest == whole.rest)
    decreases |chunks|
  {
    if chunks == [] {
      assert buffer + [] == buffer;
    } else {
      var p := Parse(buffer + chunks[0]);
      Associative(buffer, chunks[0], Concat(chunks[1..]));
      ParseAppend(buffer + chunks[0], Concat(chunks[1..]));
      if !p.failed {
        RestIsStable(buffer + chunks[0]);
        CuttingDoesNotMatter(p.rest, chunks[1..]);
        var q := ReadAll(p.rest, chunks[1..]);
        assert ReadAll(buffer, chunks) == Parsed(p.frames + q.frames, q.rest, q.failed);
      }
    }
  }

  /** What is left over holds no complete frame. */
  lemma {:induction false} RestIsStable(stream: seq<byte>)
    requires !Parse(stream).failed
    ensures Parse(Parse(stream).rest) == Parsed([], Parse(stream).rest, false)
    decreases |stream|
  {
    var e := Extract(stream);
    if e.Frame? {
      RestIsStable(e.rest);
    }
  }

  /** A header is refused at once, whatever follows it, exactly if it announces nothing or 2 MiB and more. */
  lemma RefusedIff(stream: seq<byte>)
    requires |stream| >= 4
    ensures Extract(stream).TooLong? <==> FromBE(stream[..4]) == 0 || FromBE(stream[..4]) >= 2097152
  {
  }

  /** Decoding undoes framing exactly for payloads that are not empty and below the limit. */
  lemma FramingInvertsIff(payload: seq<byte>, rest: seq<byte>)
    ensures Extract(Encode(payload) + rest) == Frame(payload, rest) <==> 0 < |payload| < 2097152
  {
    var s, n := Encode(payload) + rest, |payload| % 0x1_0000_0000;
    assert s[..4] == ToBE(n, 4);
    assert Pow256(4) == 0x1_0000_0000;
    BigEndianRoundTrip(n, 4);
    if 0 < |payload| < LIMIT {
      assert s[4..4 + |payload|] == payload && s[4 + |payload|..] == rest;
    }
    assert Extract(s) == Frame(payload, rest) ==> |payload| == n < LIMIT;
  }

  /** The decoder only ever reads back what the encoder writes. */
  lemma ExtractedWasEncoded(stream: seq<byte>)
    requires Extract(stream).Frame?
    ensures stream == Encode(Extract(stream).payload) + Extract(stream).rest
  {
    BytesRoundTrip(stream[..4]);
  }

  function EncodeAll(payloads: seq<seq<byte>>): seq<byte> {
    if payloads == [] then [] else Encode(payloads[0]) + EncodeAll(payloads[1..])
  }

  /** Messages that the framing can carry. */
  predicate Admissible(payloads: seq<seq<byte>>) {
    forall i | 0 <= i < |payloads| :: 0 < |payloads[i]| < 2097152
  }

  lemma SamePrefix(a: seq<byte>, b: seq<byte>, c: seq<byte>)
    requires a + b == a + c
    ensures b == c
  {
    assert b == (a + b)[|a|..] && c == (a + c)[|a|..];
  }

  /** A stream of framed messages is read back as these messages, with nothing left, exactly if all are admissible. */
  lemma {:induction false} StreamRoundTrip(payloads: seq<seq<byte>>)
    ensures Parse(EncodeAll(payloads)) == Parsed(payloads, [], false) <==> Admissible(payloads)
  {
    if payloads != [] {
      var first, others := payloads[0], payloads[1..];
      var s := Encode(first) + EncodeAll(others);
      FramingInvertsIff(first, EncodeAll(others));
      StreamRoundTrip(others);
      assert payloads == [first] + others;
      if Parse(s) == Parsed(payloads, [], false) {
        ExtractedWasEncoded(s);
        assert Extract(s).payload == first;
        SamePrefix(Encode(first), EncodeAll(others), Extract(s).rest);
        assert Parse(EncodeAll(others)).frames == others;
      }
    }
  }
}
