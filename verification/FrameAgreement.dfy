/** The client's incremental decoder and the server's whole-buffer decoder agree. */
module FrameAgreement {
  import opened Bytes
  import F = FrameCodec
  import T = Transport

  /** The Android client's settings: 10 MiB at most, a 4-byte length at the start that does not count itself. */
  const APP := T.Params(1024 * 1024 * 10, 0, 4, 4, false, 4)

  /** The bytes of one frame as the client takes it off the stream: the length field says how many follow. */
  ghost predicate WholeFrame(raw: seq<byte>) {
    |raw| >= 4 && |raw| == 4 + FromBE(raw[..4])
  }

  /** What the client has taken apart so far really were frames. */
  ghost predicate FramesOk(l: T.Link) {
    && T.LinkOk(APP, l)
    && (forall i | 0 <= i < |l.raw| :: WholeFrame(l.raw[i]))
    && (l.expected != -1 ==> |l.part| >= 4 && l.expected == 4 + FromBE(l.part[..4]))
  }

  lemma Int32Value(x: int)
    requires -0x8000_0000 <= x < 0x1_0000_0000
    ensures T.Int32(x) == if x < 0x8000_0000 then x else x - 0x1_0000_0000
  {
  }

  lemma LengthField(h: nat)
    requires h < 0x1_0000_0000
    ensures var len := T.Int32(T.Int32(h) + 4);
            if 4 <= len <= APP.maxFrame then len == h + 4 else h >= F.LIMIT
  {
    Int32Value(h);
    Int32Value(T.Int32(h) + 4);
  }

  /**
   With the client's settings a complete length field either says how long the frame is, or it makes
   the read fail or wait, and then the server would refuse it too.
   */
  lemma AppLength(data: seq<byte>)
    requires |data| >= 4
    ensures APP.Valid()
    ensures var h, len := FromBE(data[..4]), T.DecodeLen(APP, data);
            if len >= 4 then len == h + 4 else h >= F.LIMIT
  {
    var h := FromBE(data[..4]);
    FourBytes(data[..4]);
    assert data[APP.lengthOffset..APP.HeaderEnd()] == data[..4];
    var len := T.Int32(T.Int32(h) + 4);
    assert if 4 <= len <= APP.maxFrame then len == h + 4 else h >= F.LIMIT by {
      LengthField(h);
    }
  }

  lemma FourBytes(s: seq<byte>)
    requires |s| == 4
    ensures FromBE(s) < 0x1_0000_0000
  {
    assert Pow256(4) == 0x1_0000_0000;
  }

  /** Taking bytes off the stream completes a frame at the length its first four bytes announce. */
  lemma UnpackFrames(l: T.Link, data: seq<byte>, want: int, strip: int)
    requires (forall i | 0 <= i < |l.raw| :: WholeFrame(l.raw[i]))
    requires 0 <= strip <= want && strip <= |data| && l.expected == |l.part| + want
    requires |l.part + data| >= 4 && |l.part| + want == 4 + FromBE((l.part + data)[..4])
    ensures var l' := T.Unpack(l, data, want, strip);
            && (forall i | 0 <= i < |l'.raw| :: WholeFrame(l'.raw[i]))
            && (l'.expected != -1 ==> |l'.part| >= 4 && l'.expected == 4 + FromBE(l'.part[..4]))
  {
    var take := if want <= |data| then want else |data|;
    assert (l.part + data[..take])[..4] == (l.part + data)[..4];
  }

  lemma StepFrames(l: T.Link, chunk: seq<byte>)
    requires FramesOk(l) && T.Step(APP, l, chunk).Open?
    ensures FramesOk(T.Step(APP, l, chunk).link)
  {
    T.StepConserves(APP, l, chunk);
    var data := l.pending + chunk;
    if l.expected != -1 {
      assert (l.part + data)[..4] == l.part[..4];
      UnpackFrames(l, data, l.expected - (|l.packet| + APP.strip), 0);
    } else if T.DecodeLen(APP, data) > 0 {
      AppLength(data);
      assert l.part + data == data;
      UnpackFrames(l.(expected := T.DecodeLen(APP, data)), data, T.DecodeLen(APP, data), APP.strip);
    }
  }

  /** The server's decoder on a frame the client has taken off: same payload, or refused. */
  lemma ExtractWhole(raw: seq<byte>, rest: seq<byte>)
    requires WholeFrame(raw)
    ensures F.Extract(raw + rest) == if 4 < |raw| < 4 + F.LIMIT then F.Frame(raw[4..], rest) else F.TooLong
  {
    assert (raw + rest)[..4] == raw[..4];
    assert (raw + rest)[4..|raw|] == raw[4..];
    assert (raw + rest)[|raw|..] == rest;
  }

  /** The server's decoder on all of them: the client's packets up to the first refusal. */
  lemma {:induction false} ParseWhole(raw: seq<seq<byte>>, fired: seq<seq<byte>>, tail: seq<byte>)
    requires |raw| == |fired|
    requires forall i | 0 <= i < |raw| :: WholeFrame(raw[i]) && fired[i] == raw[i][4..]
    requires F.Parse(tail).frames == []
    ensures var p := F.Parse(Concat(raw) + tail);
            && p.frames <= fired && (!p.failed ==> p.frames == fired)
            && (p.frames == fired ==> p.failed == F.Parse(tail).failed)
  {
    if raw == [] {
      assert Concat(raw) + tail == tail;
    } else {
      var rest := Concat(raw[1..]) + tail;
      assert Concat(raw) + tail == raw[0] + rest;
      ExtractWhole(raw[0], rest);
      ParseWhole(raw[1..], fired[1..], tail);
    }
  }

  /** Another read that brings nothing would not complete a packet either. */
  ghost predicate Settled(l: T.Link)
    requires T.LinkOk(APP, l)
  {
    match T.Step(APP, l, [])
    case Closed => true
    case Open(l') => l'.fired == l.fired
  }

  /** The bytes the client still holds contain no complete frame for the server either. */
  lemma TailHasNoFrame(l: T.Link)
    requires FramesOk(l) && Settled(l)
    ensures F.Parse(l.part + l.pending).frames == []
  {
    var tail := l.part + l.pending;
    if l.expected != -1 {
      assert tail == l.part;
    } else {
      assert tail == l.pending == l.pending + [];
      if |tail| >= 4 {
        AppLength(tail);
      }
    }
  }

  lemma {:induction false} RunFrames(l: T.Link, chunks: seq<seq<byte>>)
    requires FramesOk(l)
    ensures FramesOk(T.Run(APP, l, chunks).0)
    decreases |chunks|
  {
    if chunks != [] && T.Step(APP, l, chunks[0]).Open? {
      StepFrames(l, chunks[0]);
      RunFrames(T.Step(APP, l, chunks[0]).link, chunks[1..]);
    }
  }

  /** The client's packets against the server's view of everything received. */
  lemma SettledAgrees(l: T.Link)
    requires FramesOk(l) && Settled(l)
    ensures var p := F.Parse(T.Received(l));
            p.frames <= l.fired && (!p.failed ==> p.frames == l.fired)
  {
    TailHasNoFrame(l);
    ParseWhole(l.raw, l.fired, l.part + l.pending);
    assert Concat(l.raw) + (l.part + l.pending) == T.Received(l);
  }

  /** However the server's reads are cut, its frames are those of the whole stream. */
  lemma ServerReads(cuts: seq<seq<byte>>)
    ensures F.ReadAll([], cuts).frames == F.Parse(Concat(cuts)).frames
    ensures F.ReadAll([], cuts).failed == F.Parse(Concat(cuts)).failed
  {
    F.CuttingDoesNotMatter([], cuts);
    assert [] + Concat(cuts) == Concat(cuts);
  }

  /** When the client closes a connection over a length, the server refuses that length as well. */
  lemma ClosedMeansRefused(l: T.Link, chunk: seq<byte>)
    requires FramesOk(l) && T.Step(APP, l, chunk).Closed?
    ensures var p := F.Parse(T.Received(l) + chunk);
            p.failed && p.frames <= l.fired
  {
    ClosedTail(l, chunk);
    RefusedTail(l, l.pending + chunk);
    BetweenFrames(l, chunk);
  }

  lemma RefusedTail(l: T.Link, tail: seq<byte>)
    requires FramesOk(l) && F.Parse(tail) == F.Parsed([], tail, true)
    ensures var p := F.Parse(Concat(l.raw) + tail);
            p.failed && p.frames <= l.fired
  {
    ParseWhole(l.raw, l.fired, tail);
  }

  /** The client gives up between frames only, at a length field that the server refuses. */
  lemma ClosedTail(l: T.Link, chunk: seq<byte>)
    requires FramesOk(l) && T.Step(APP, l, chunk).Closed?
    ensures l.part == [] && F.Parse(l.pending + chunk) == F.Parsed([], l.pending + chunk, true)
  {
    AppLength(l.pending + chunk);
  }

  /** n reads that bring nothing. */
  ghost function EmptyReads(n: nat): seq<seq<byte>> {
    seq(n, _ => [])
  }

  /** A few reads that bring nothing settle the client: each completes a packet and shortens what is pending. */
  lemma {:induction false} Settles(l: T.Link) returns (n: nat)
    requires FramesOk(l)
    ensures var r := T.Run(APP, l, EmptyReads(n)); r.1 ==> Settled(r.0)
    ensures n <= |l.pending|
    decreases |l.pending|
  {
    if Settled(l) {
      n := 0;
    } else {
      var l' := T.Step(APP, l, []).link;
      StepFrames(l, []);
      var data := l.pending + [];
      if |data| >= 4 {
        AppLength(data);
      }
      n := Settles(l');
      n := n + 1;
      assert EmptyReads(n)[1..] == EmptyReads(n - 1);
    }
  }

  lemma {:induction false} ConcatTwo(a: seq<seq<byte>>, b: seq<seq<byte>>)
    ensures Concat(a + b) == Concat(a) + Concat(b)
    decreases |a|
  {
    if a == [] {
      assert a + b == b;
    } else {
      assert (a + b)[1..] == a[1..] + b;
      ConcatTwo(a[1..], b);
    }
  }

  lemma {:induction false} ConcatEmpty(n: nat)
    ensures Concat(EmptyReads(n)) == []
  {
    if n > 0 {
      assert EmptyReads(n)[1..] == EmptyReads(n - 1);
      ConcatEmpty(n - 1);
    }
  }

  /** When reads end with the client closing the connection, the server refuses what they brought. */
  lemma {:induction false} RunClosedMeansRefused(l: T.Link, chunks: seq<seq<byte>>)
    requires FramesOk(l) && !T.Run(APP, l, chunks).1
    ensures var p := F.Parse(T.Received(l) + Concat(chunks));
            p.failed && p.frames <= T.Run(APP, l, chunks).0.fired
    decreases |chunks|
  {
    var first, rest := chunks[0], Concat(chunks[1..]);
    assert T.Received(l) + first + rest == T.Received(l) + Concat(chunks);
    if T.Step(APP, l, first).Closed? {
      ClosedMeansRefused(l, first);
      F.ParseAppend(T.Received(l) + first, rest);
    } else {
      StepFrames(l, first);
      T.StepConserves(APP, l, first);
      RunClosedMeansRefused(T.Step(APP, l, first).link, chunks[1..]);
    }
  }

  lemma EmptyLinkOk()
    ensures FramesOk(T.EMPTY_LINK) && T.Received(T.EMPTY_LINK) == []
  {
  }

  /** The client from the start of a connection: what it holds, and whether it is still open. */
  ghost function Client(cuts: seq<seq<byte>>): (r: (T.Link, bool))
    ensures T.LinkOk(APP, r.0)
  {
    EmptyLinkOk();
    T.Run(APP, T.EMPTY_LINK, cuts)
  }

  /** The client's packets against the server's view of everything received, after any reads. */
  lemma RunAgrees(cuts: seq<seq<byte>>)
    requires Client(cuts).1 ==> Settled(Client(cuts).0)
    ensures var c, p := Client(cuts), F.Parse(Concat(cuts));
            p.frames <= c.0.fired && (!p.failed ==> c.1 && p.frames == c.0.fired)
  {
    EmptyLinkOk();
    assert [] + Concat(cuts) == Concat(cuts);
    if Client(cuts).1 {
      RunFrames(T.EMPTY_LINK, cuts);
      T.RunConserves(APP, T.EMPTY_LINK, cuts);
      SettledAgrees(Client(cuts).0);
    } else {
      RunClosedMeansRefused(T.EMPTY_LINK, cuts);
    }
  }

  /** Some number of reads that bring nothing lets the client deliver all it holds, or makes it close. */
  lemma SettledAfter(cuts: seq<seq<byte>>) returns (n: nat)
    ensures var c := Client(cuts + EmptyReads(n)); c.1 ==> Settled(c.0)
    ensures n <= |Client(cuts).0.pending|
  {
    EmptyLinkOk();
    if Client(cuts).1 {
      RunFrames(T.EMPTY_LINK, cuts);
      n := Settles(Client(cuts).0);
    } else {
      n := 0;
    }
    T.RunTwo(APP, T.EMPTY_LINK, cuts, EmptyReads(n));
  }

  /**
   Any stream, cut in any way for the client and in any way for the server: once the client has had the further reads
   it needs for what it holds, the server's decoder has delivered the client's payloads up to the first length that it
   refuses; if it refuses none, the client is still open and has delivered the same payloads.
   */
  lemma DecodersAgree(clientCuts: seq<seq<byte>>, serverCuts: seq<seq<byte>>) returns (n: nat)
    requires Concat(clientCuts) == Concat(serverCuts)
    ensures var c, r := Client(clientCuts + EmptyReads(n)), F.ReadAll([], serverCuts);
            r.frames <= c.0.fired && (!r.failed ==> c.1 && r.frames == c.0.fired)
    ensures n <= |Client(clientCuts).0.pending|
  {
    n := SettledAfter(clientCuts);
    ConcatTwo(clientCuts, EmptyReads(n));
    ConcatEmpty(n);
    assert Concat(clientCuts) + [] == Concat(clientCuts);
    RunAgrees(clientCuts + EmptyReads(n));
    ServerReads(serverCuts);
  }

  // ----- What the client does at a header -----

  /**
   With the app's settings, between frames: a header of h makes the client close exactly if the frame would exceed
   10 MiB, except at the one value that its arithmetic turns into 0.
   */
  lemma ClosesIff(l: T.Link, chunk: seq<byte>)
    requires FramesOk(l) && l.expected == -1 && |l.pending + chunk| >= 4
    ensures
      var h := FromBE((l.pending + chunk)[..4]);
      T.Step(APP, l, chunk).Closed? <==> h > 10485756 && h != 4294967292
  {
    var data := l.pending + chunk;
    FourBytes(data[..4]);
    assert data[APP.lengthOffset..APP.HeaderEnd()] == data[..4];
    HeaderLength(FromBE(data[..4]));
  }

  /** What the client's arithmetic makes of a header. */
  lemma HeaderLength(h: nat)
    requires h < 0x1_0000_0000
    ensures
      var sum := T.Int32(T.Int32(h) + 4);
      var len := if sum > APP.maxFrame then -1 else sum;
      && (h <= 10485756 ==> len == h + 4)
      && (h > 10485756 && h != 4294967292 ==> len < 4 && len != 0)
      && (h == 4294967292 ==> len == 0)
  {
    Int32Value(h);
    Int32Value(T.Int32(h) + 4);
  }

  /** Up to that size a frame is delivered as soon as all of it is there, and what follows it is kept. */
  lemma DeliversFrame(l: T.Link, chunk: seq<byte>)
    requires FramesOk(l) && l.expected == -1 && |l.pending + chunk| >= 4
    requires FromBE((l.pending + chunk)[..4]) <= 10485756
    ensures
      var data := l.pending + chunk;
      var n := 4 + FromBE(data[..4]);
      |data| >= n ==>
        T.Step(APP, l, chunk)
        == T.Open(l.(pending := data[n..], fired := l.fired + [data[4..n]], raw := l.raw + [data[..n]]))
  {
    var data := l.pending + chunk;
    var n := 4 + FromBE(data[..4]);
    FourBytes(data[..4]);
    assert data[APP.lengthOffset..APP.HeaderEnd()] == data[..4];
    HeaderLength(FromBE(data[..4]));
    if |data| >= n {
      assert [] + data[4..n] == data[4..n] && [] + data[..n] == data[..n];
    }
  }

  // ----- The one header that the client cannot decide -----

  /** A length of 2^32 - 4, which the client's 32-bit arithmetic turns into 0. */
  const ZERO_HEADER: seq<byte> := [255, 255, 255, 252]

  lemma ZeroHeaderNumber()
    ensures FromBE(ZERO_HEADER) == 0xFFFF_FFFC
  {
    assert ZERO_HEADER[..3] == [255, 255, 255] && [255, 255, 255][..2] == [255, 255] && [255, 255][..1] == [255];
    assert FromBE([255]) == 255;
    assert FromBE([255, 255]) == 0xFFFF;
    assert FromBE([255, 255, 255]) == 0xFF_FFFF;
  }

  /** With the client's settings, a complete length field decodes to 0 exactly if it is that one. */
  lemma UndecidedIff(data: seq<byte>)
    requires |data| >= 4
    ensures T.DecodeLen(APP, data) == 0 <==> data[..4] == ZERO_HEADER
  {
    var h := FromBE(data[..4]);
    FourBytes(data[..4]);
    assert data[APP.lengthOffset..APP.HeaderEnd()] == data[..4];
    UndecidedLength(h);
    ZeroHeaderNumber();
    BytesRoundTrip(data[..4]);
    BytesRoundTrip(ZERO_HEADER);
  }

  lemma UndecidedLength(h: nat)
    requires h < 0x1_0000_0000
    ensures var len := T.Int32(T.Int32(h) + 4);
            (if len > APP.maxFrame then -1 else len) == 0 <==> h == 0xFFFF_FFFC
  {
    Int32Value(h);
    Int32Value(T.Int32(h) + 4);
  }

  /**
   Wherever in a stream this header follows the frames delivered so far: however the stream goes on and is cut, nothing
   more is ever delivered and every byte stays pending, up to the last place in the buffer; the server refuses it all.
   */
  lemma ZeroHeaderSticks(l: T.Link, cuts: seq<seq<byte>>)
    requires FramesOk(l) && l.expected == -1
    requires var s := l.pending + Concat(cuts); |s| >= 4 && s[..4] == ZERO_HEADER
    ensures T.Run(APP, l, cuts) == (l.(pending := l.pending + Concat(cuts)), true)
    ensures var p := F.Parse(T.Received(l) + Concat(cuts)); p.failed && p.frames <= l.fired
  {
    StickyRun(l, cuts);
    ZeroHeaderRefused(l.pending + Concat(cuts));
    RefusedTail(l, l.pending + Concat(cuts));
    BetweenFrames(l, Concat(cuts));
  }

  lemma ZeroHeaderRefused(s: seq<byte>)
    requires |s| >= 4 && s[..4] == ZERO_HEADER
    ensures F.Parse(s) == F.Parsed([], s, true)
  {
    ZeroHeaderNumber();
  }

  /** Between frames, all that was received are the frames and the pending bytes. */
  lemma BetweenFrames(l: T.Link, more: seq<byte>)
    requires T.LinkOk(APP, l) && l.expected == -1
    ensures T.Received(l) + more == Concat(l.raw) + (l.pending + more)
  {
    assert Concat(l.raw) + [] == Concat(l.raw);
    Associative(Concat(l.raw), l.pending, more);
  }

  lemma {:induction false} StickyRun(l: T.Link, cuts: seq<seq<byte>>)
    requires T.LinkOk(APP, l) && l.expected == -1
    requires var s := l.pending + Concat(cuts); |s| >= 4 && s[..4] == ZERO_HEADER
    ensures T.Run(APP, l, cuts) == (l.(pending := l.pending + Concat(cuts)), true)
    decreases |cuts|
  {
    if cuts == [] {
      assert l.pending + [] == l.pending;
    } else {
      var data, rest := l.pending + cuts[0], Concat(cuts[1..]);
      Associative(l.pending, cuts[0], rest);
      if |data| >= 4 {
        assert data[..4] == (data + rest)[..4];
        UndecidedIff(data);
      }
      StickyRun(l.(pending := data), cuts[1..]);
    }
  }
}
