/** yasio's incremental frame decoder: a fixed receive buffer, a partial packet, one frame per read at most. */
module Transport {
  import opened Bytes

  const BUFFER_SIZE: nat := 65536

  /** The unpack parameters of a channel. */
  datatype Params = Params(
    maxFrame: int, lengthOffset: int, lengthSize: int, adjustment: int, noSwap: bool, strip: int)
  {
    /** What the source asserts of them, and that stripping does not reach past the length field. */
    ghost predicate Valid() {
      && 0 <= strip
      && (lengthOffset >= 0 ==> 1 <= lengthSize <= 4 && strip <= HeaderEnd() <= BUFFER_SIZE)
    }

    /** How many bytes it takes to know the length. */
    function HeaderEnd(): int {
      lengthOffset + lengthSize
    }
  }

  /** The value of a 32-bit pattern as a signed int, wrapping round. */
  function Int32(x: int): (r: int)
    ensures -0x8000_0000 <= r < 0x8000_0000
  {
    if -0x8000_0000 <= x < 0x8000_0000 then x
    else (x + 0x8000_0000) % 0x1_0000_0000 - 0x8000_0000
  }

  /** It is the one signed 32-bit number that differs from x by a multiple of 2^32. */
  lemma Int32Wraps(x: int)
    ensures (x - Int32(x)) % 0x1_0000_0000 == 0
  {
  }

  /** `__builtin_decode_len`: 0 if the header is not there yet, negative if the frame is too long. */
  function DecodeLen(u: Params, data: seq<byte>): int
    requires u.Valid()
  {
    if u.lengthOffset >= 0 then
      if |data| < u.HeaderEnd() then 0
      else
        var field := data[u.lengthOffset..u.HeaderEnd()];
        var len := Int32(Int32(if u.noSwap then FromLE(field) else FromBE(field)) + u.adjustment);
        if len > u.maxFrame then -1 else len
    else |data|
  }

  /**
   The decoder's state on values.  `pending` is `buffer_[..offset_]`; `raw` and `part` are the bytes that made up
   the fired packets and the incomplete one, before stripping.
   */
  datatype Link = Link(
    pending: seq<byte>, expected: int, packet: seq<byte>, fired: seq<seq<byte>>,
    raw: seq<seq<byte>>, part: seq<byte>)

  const EMPTY_LINK := Link([], -1, [], [], [], [])

  datatype Outcome = Closed | Open(link: Link)

  /** `io_service::unpack`. */
  function Unpack(l: Link, data: seq<byte>, want: int, strip: int): Link
    requires 0 <= strip <= want && strip <= |data|
  {
    var take := if want <= |data| then want else |data|;
    var packet, part := l.packet + data[strip..take], l.part + data[..take];
    if want <= |data|
    then Link(data[want..], -1, [], l.fired + [packet], l.raw + [part], [])
    else Link([], l.expected, packet, l.fired, l.raw, part)
  }

  /** `io_service::do_read` after `chunk` has arrived behind the pending bytes. */
  function Step(u: Params, l: Link, chunk: seq<byte>): Outcome
    requires LinkOk(u, l)
  {
    var data := l.pending + chunk;
    if l.expected == -1 then
      var len := DecodeLen(u, data);
      if len > 0 then
        if len < u.strip then Closed else Open(Unpack(l.(expected := len), data, len, u.strip))
      else if len == 0 then Open(l.(pending := data))
      else Closed
    else Open(Unpack(l, data, l.expected - (|l.packet| + u.strip), 0))
  }

  /** Between reads: an incomplete packet has its length known and leaves nothing pending. */
  ghost predicate LinkOk(u: Params, l: Link) {
    && u.Valid()
    && |l.fired| == |l.raw|
    && (forall i | 0 <= i < |l.raw| :: u.strip <= |l.raw[i]| && l.fired[i] == l.raw[i][u.strip..])
    && (if l.expected == -1 then l.packet == [] && l.part == []
        else && l.pending == [] && u.strip <= |l.part| < l.expected && l.packet == l.part[u.strip..])
  }

  /** Every byte received so far, in order: fired frames, then the incomplete one, then the pending bytes. */
  ghost function Received(l: Link): seq<byte> {
    Concat(l.raw) + l.part + l.pending
  }

  /** `unpack` moves the head of the data to the packet, and strips only what comes before the packet. */
  lemma UnpackConserves(l: Link, data: seq<byte>, want: int, strip: int)
    requires 0 <= strip <= want && strip <= |data|
    ensures Received(Unpack(l, data, want, strip)) == Concat(l.raw) + l.part + data
  {
    var take := if want <= |data| then want else |data|;
    assert data == data[..take] + data[take..];
    if want <= |data| {
      ConcatAppend(l.raw, l.part + data[..take]);
    }
  }

  lemma UnpackKeeps(u: Params, l: Link, data: seq<byte>, want: int, strip: int)
    requires LinkOk(u, l.(expected := if l.part == [] then -1 else l.expected))
    requires 0 <= strip <= want && strip <= |data| && l.expected == |l.part| + want
    requires if l.part == [] then strip == u.strip else strip == 0
    ensures LinkOk(u, Unpack(l, data, want, strip))
  {
  }

  /** No byte is lost, duplicated or reordered by a read. */
  lemma StepConserves(u: Params, l: Link, chunk: seq<byte>)
    requires LinkOk(u, l) && Step(u, l, chunk).Open?
    ensures LinkOk(u, Step(u, l, chunk).link)
    ensures Received(Step(u, l, chunk).link) == Received(l) + chunk
  {
    var data := l.pending + chunk;
    if l.expected != -1 {
      var want := l.expected - (|l.packet| + u.strip);
      UnpackConserves(l, data, want, 0);
      UnpackKeeps(u, l, data, want, 0);
    } else if DecodeLen(u, data) > 0 {
      var len := DecodeLen(u, data);
      UnpackConserves(l.(expected := len), data, len, u.strip);
      UnpackKeeps(u, l.(expected := len), data, len, u.strip);
    }
    assert Concat(l.raw) + l.part + data == Received(l) + chunk;
  }

  /**
   A read that fits the buffer leaves room for the next one, except when the buffer is full and the
   complete length field in it decodes to 0.
   */
  lemma RoomLeftIff(u: Params, l: Link, chunk: seq<byte>)
    requires LinkOk(u, l) && |l.pending| + |chunk| <= BUFFER_SIZE && Step(u, l, chunk).Open?
    ensures |Step(u, l, chunk).link.pending| < BUFFER_SIZE <==>
            !(l.expected == -1 && |l.pending| + |chunk| == BUFFER_SIZE && DecodeLen(u, l.pending + chunk) == 0)
  {
  }

  /** The length field of a frame, in the channel's byte order. */
  function LengthField(u: Params, n: nat): seq<byte>
    requires u.Valid() && u.lengthOffset >= 0
  {
    if u.noSwap then ToLE(n, u.lengthSize) else ToBE(n, u.lengthSize)
  }

  /**
   A length that fits its field and an int, with the adjustment, is the length of the frame, unless it exceeds the
   maximum; before the field is complete nothing is decided.
   */
  lemma LengthDecoded(u: Params, data: seq<byte>, n: nat)
    requires u.Valid() && u.lengthOffset >= 0 && n < Pow256(u.lengthSize) && n < 0x8000_0000
    requires -0x8000_0000 <= n + u.adjustment < 0x8000_0000
    ensures |data| < u.lengthOffset + u.lengthSize ==> DecodeLen(u, data) == 0
    ensures |data| >= u.lengthOffset + u.lengthSize
            && data[u.lengthOffset..u.lengthOffset + u.lengthSize] == LengthField(u, n) ==>
              DecodeLen(u, data) == if n + u.adjustment > u.maxFrame then -1 else n + u.adjustment
  {
    BigEndianRoundTrip(n, u.lengthSize);
    LittleEndianRoundTrip(n, u.lengthSize);
  }

  /** Without a length field every read is a packet of its own, less what is stripped. */
  lemma ReadsArePackets(u: Params, l: Link, chunk: seq<byte>)
    requires LinkOk(u, l) && u.lengthOffset < 0 && l.expected == -1 && l.pending == [] && |chunk| > 0
    ensures if |chunk| < u.strip then Step(u, l, chunk).Closed?
            else Step(u, l, chunk) ==
                 Open(l.(fired := l.fired + [chunk[u.strip..]], raw := l.raw + [chunk]))
  {
    assert [] + chunk == chunk && chunk[..|chunk|] == chunk && chunk[|chunk|..] == [];
    if |chunk| >= u.strip {
      assert [] + chunk[u.strip..] == chunk[u.strip..];
    }
  }

  /** `io_transport`, the receiving side. */
  class IoTransport {
    const params: Params
    const buffer: array<byte>
    var offset: nat
    var expected: int
    var packet: seq<byte>
    var fired: seq<seq<byte>>
    ghost var raw: seq<seq<byte>>
    ghost var part: seq<byte>

    ghost predicate Valid()
      reads this, buffer
    {
      buffer.Length == BUFFER_SIZE && offset <= BUFFER_SIZE && LinkOk(params, View())
    }

    ghost function View(): Link
      reads this, buffer
      requires offset <= buffer.Length
    {
      Link(buffer[..offset], expected, packet, fired, raw, part)
    }

    constructor (params: Params)
      requires params.Valid()
      ensures Valid() && fresh(buffer) && buffer.Length == 65536 && this.params == params && View() == EMPTY_LINK
    {
      this.params := params;
      buffer := new byte[BUFFER_SIZE](_ => 0);
      offset, expected, packet, fired, raw, part := 0, -1, [], [], [], [];
    }

    /** `io_transport::do_read`: the socket puts the chunk behind the pending bytes. */
    method Receive(chunk: seq<byte>)
      requires offset + |chunk| <= buffer.Length
      modifies buffer
      ensures buffer[..offset + |chunk|] == old(buffer[..offset]) + chunk
    {
      for i := 0 to |chunk|
        invariant buffer[..offset + i] == old(buffer[..offset]) + chunk[..i]
      {
        buffer[offset + i] := chunk[i];
        assert buffer[..offset + i + 1] == buffer[..offset + i] + [chunk[i]];
      }
    }

    /** `memmove(buffer, buffer + from, count)` with the regions overlapping downwards. */
    method MoveDown(from: nat, count: nat)
      requires from + count <= buffer.Length
      modifies buffer
      ensures buffer[..count] == old(buffer[from..from + count])
    {
      for i := 0 to count
        invariant buffer[..i] == old(buffer[from..from + i])
        invariant forall k | i <= k < buffer.Length :: buffer[k] == old(buffer[k])
      {
        buffer[i] := buffer[from + i];
        assert buffer[..i + 1] == buffer[..i] + [buffer[i]];
        assert old(buffer[from..from + i + 1]) == old(buffer[from..from + i]) + [old(buffer[from + i])];
      }
    }

    /** `io_service::unpack`. */
    method UnpackInPlace(want: int, transferred: nat, strip: int)
      requires offset + transferred <= buffer.Length
      requires 0 <= strip <= want && strip <= offset + transferred
      modifies this, buffer
      ensures offset <= buffer.Length
      ensures View() == Unpack(old(View()), old(buffer[..offset + transferred]), want, strip)
    {
      var available := offset + transferred;
      var take := if want <= available then want else available;
      ghost var data := buffer[..available];
      assert data[strip..take] == buffer[strip..take];
      assert data[..take] == buffer[..take];
      packet := packet + buffer[strip..take];
      part := part + buffer[..take];
      if want <= available {
        var rest := available - want;
        if rest > 0 {
          MoveDown(want, rest);
        }
        assert buffer[..rest] == data[want..];
        offset := rest;
        fired, raw := fired + [packet], raw + [part];
        packet, part, expected := [], [], -1;
      } else {
        offset := 0;
      }
    }

    /** The part of `io_service::do_read` that runs once n bytes have arrived behind the pending ones. */
    method Decode(n: nat) returns (open: bool)
      requires offset + n <= buffer.Length && LinkOk(params, View())
      modifies this, buffer
      ensures open == Step(params, old(View()), old(buffer[offset..offset + n])).Open?
      ensures open ==> offset <= buffer.Length
      ensures open ==> View() == Step(params, old(View()), old(buffer[offset..offset + n])).link
    {
      assert buffer[..offset + n] == buffer[..offset] + buffer[offset..offset + n];
      if expected == -1 {
        var length := DecodeLen(params, buffer[..offset + n]);
        if length > 0 {
          if length < params.strip {
            return false;
          }
          expected := length;
          UnpackInPlace(expected, n, params.strip);
        } else if length == 0 {
          offset := offset + n;
        } else {
          return false;
        }
      } else {
        UnpackInPlace(expected - (|packet| + params.strip), n, 0);
      }
      open := true;
    }

    /** `io_service::do_read`: false when the connection is to be closed. */
    method DoRead(chunk: seq<byte>) returns (open: bool)
      requires Valid() && offset + |chunk| <= BUFFER_SIZE
      modifies this, buffer
      ensures open == Step(params, old(View()), chunk).Open?
      ensures open ==> Valid() && View() == Step(params, old(View()), chunk).link
    {
      ghost var before, end := View(), offset + |chunk|;
      Receive(chunk);
      assert buffer[..offset] == buffer[..end][..offset] == before.pending;
      assert buffer[offset..end] == buffer[..end][offset..] == chunk;
      assert View() == before;
      open := Decode(|chunk|);
      if open {
        StepConserves(params, before, chunk);
      }
    }
  }

  /** All reads of a connection, the last of which may close it; earlier state is kept when it does. */
  function Run(u: Params, l: Link, chunks: seq<seq<byte>>): (r: (Link, bool))
    requires LinkOk(u, l)
    ensures LinkOk(u, r.0)
    decreases |chunks|
  {
    if chunks == [] then (l, true)
    else
      match Step(u, l, chunks[0])
      case Closed => (l, false)
      case Open(l') => StepConserves(u, l, chunks[0]); Run(u, l', chunks[1..])
  }

  /** More reads go on from where the first ones ended, unless these closed the connection. */
  lemma {:induction false} RunTwo(u: Params, l: Link, a: seq<seq<byte>>, b: seq<seq<byte>>)
    requires LinkOk(u, l)
    ensures var x := Run(u, l, a); Run(u, l, a + b) == if x.1 then Run(u, x.0, b) else x
    decreases |a|
  {
    if a == [] {
      assert a + b == b;
    } else {
      assert (a + b)[0] == a[0] && (a + b)[1..] == a[1..] + b;
      if Step(u, l, a[0]).Open? {
        StepConserves(u, l, a[0]);
        RunTwo(u, Step(u, l, a[0]).link, a[1..], b);
      }
    }
  }

  /** Over any number of reads: what was received is what the chunks brought, however they were cut. */
  lemma {:induction false} RunConserves(u: Params, l: Link, chunks: seq<seq<byte>>)
    requires LinkOk(u, l) && Run(u, l, chunks).1
    ensures Received(Run(u, l, chunks).0) == Received(l) + Concat(chunks)
    decreases |chunks|
  {
    if chunks != [] {
      StepConserves(u, l, chunks[0]);
      RunConserves(u, Step(u, l, chunks[0]).link, chunks[1..]);
      Associative(Received(l), chunks[0], Concat(chunks[1..]));
    }
  }

  /** Reads that fit the buffer, none of which completes a length field that decodes to 0. */
  ghost predicate Sound(u: Params, l: Link, chunks: seq<seq<byte>>)
    requires LinkOk(u, l)
    decreases |chunks|
  {
    chunks == [] ||
    (var data := l.pending + chunks[0];
     && |data| <= BUFFER_SIZE
     && !(l.expected == -1 && 0 <= u.lengthOffset && u.HeaderEnd() <= |data| && DecodeLen(u, data) == 0)
     && match Step(u, l, chunks[0])
        case Closed => true
        case Open(l') => (StepConserves(u, l, chunks[0]); Sound(u, l', chunks[1..])))
  }

  /** Over any number of such reads there is always room for the next one. */
  lemma {:induction false} RunLeavesRoom(u: Params, l: Link, chunks: seq<seq<byte>>)
    requires LinkOk(u, l) && |l.pending| < BUFFER_SIZE && Sound(u, l, chunks)
    ensures |Run(u, l, chunks).0.pending| < BUFFER_SIZE
    decreases |chunks|
  {
    if chunks != [] && Step(u, l, chunks[0]).Open? {
      StepConserves(u, l, chunks[0]);
      RoomLeftIff(u, l, chunks[0]);
      RunLeavesRoom(u, Step(u, l, chunks[0]).link, chunks[1..]);
    }
  }
}
