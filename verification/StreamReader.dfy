/** yasio's binary reader: a cursor over a block of bytes (ibstream.hpp). */
module StreamReader {
  import opened Bytes
  import opened StreamFormat
  import opened StreamItems

  /** What i bytes that gave result make of the outcome of reading the digits above, whose unit is scale. */
  function Lifted(r: Result<nat>, result: nat, scale: nat, i: nat): Result<nat> {
    match r
    case Ok(v, used) => Ok(result + scale * v, i + used)
    case OutOfRange => OutOfRange
    case BadInteger => BadInteger
  }

  /** Reading on from s gives goal. */
  ghost predicate ReadsOn(s: seq<byte>, n: nat, top: nat, result: nat, scale: nat, i: nat, goal: Result<nat>) {
    Lifted(Decode7(s, n, top), result, scale, i) == goal
  }

  lemma ReadsStart(s: seq<byte>, n: nat, top: nat)
    ensures ReadsOn(s, n, top, 0, 1, 0, Decode7(s, n, top))
  {
  }

  lemma ReadsNothing(n: nat, top: nat, result: nat, scale: nat, i: nat, goal: Result<nat>)
    requires ReadsOn([], n, top, result, scale, i, goal)
    ensures goal == OutOfRange
  {
  }

  lemma ReadsStep(s: seq<byte>, n: nat, top: nat, result: nat, scale: nat, i: nat, goal: Result<nat>)
    requires s != [] && n > 0 && ReadsOn(s, n, top, result, scale, i, goal)
    ensures s[0] < 0x80 ==> goal == Ok(result + scale * s[0], i + 1)
    ensures s[0] >= 0x80 ==> ReadsOn(s[1..], n - 1, top, result + scale * (s[0] - 0x80), 0x80 * scale, i + 1, goal)
  {
    var r := Decode7(s[1..], n - 1, top);
    if r.Ok? && s[0] >= 0x80 {
      Distribute(scale, s[0] - 0x80, r.value);
    }
  }

  lemma ReadsLast(s: seq<byte>, top: nat, result: nat, scale: nat, i: nat, goal: Result<nat>)
    requires s != [] && ReadsOn(s, 0, top, result, scale, i, goal)
    ensures goal == if s[0] <= top then Ok(result + scale * s[0], i + 1) else BadInteger
  {
  }

  lemma Distribute(p: nat, a: nat, v: nat)
    ensures p * (a + 0x80 * v) == p * a + 0x80 * p * v
  {
  }

  class Reader {
    const data: seq<byte>
    var pos: nat

    ghost predicate Valid()
      reads this
    {
      pos <= |data|
    }

    ghost function Rest(): seq<byte>
      requires Valid()
      reads this
    {
      data[pos..]
    }

    constructor (bytes: seq<byte>)
      ensures Valid() && Rest() == data == bytes
    {
      data := bytes;
      pos := 0;
    }

    predicate Eof()
      reads this
    {
      pos == |data|
    }

    /** `consume`: moves the cursor over n bytes, or fails and leaves it. */
    method Consume(n: nat) returns (r: Result<seq<byte>>)
      requires Valid()
      modifies this
      ensures Valid() && r == Take(old(Rest()), n)
      ensures pos == old(pos) + if r.Ok? then n else 0
    {
      if pos + n <= |data| {
        r := Ok(data[pos..pos + n], n);
        assert data[pos..][..n] == data[pos..pos + n];
        pos := pos + n;
      } else {
        r := OutOfRange;
      }
    }

    method ReadByte() returns (r: Result<byte>)
      requires Valid()
      modifies this
      ensures Valid()
      ensures if old(Rest()) == [] then r == OutOfRange && pos == old(pos)
              else r == Ok(old(Rest())[0], 1) && Rest() == old(Rest())[1..] && pos == old(pos) + 1
    {
      var b := Consume(1);
      r := if b.Ok? then Ok(b.value[0], 1) else OutOfRange;
    }

    /** `read_ix`: n bytes cannot overflow the result, the one after them is checked against top. */
    method ReadIx(n: nat, top: nat) returns (r: Result<nat>)
      requires Valid()
      modifies this
      ensures Valid() && r == Decode7(old(Rest()), n, top)
      ensures r.Ok? ==> pos == old(pos) + r.used
    {
      var result: nat, scale: nat, i: nat := 0, 1, 0;
      ghost var goal := Decode7(Rest(), n, top);
      ReadsStart(Rest(), n, top);
      while i < n
        invariant i <= n && Valid() && pos == old(pos) + i
        invariant ReadsOn(Rest(), n - i, top, result, scale, i, goal)
      {
        ghost var s := Rest();
        var b := ReadByte();
        if !b.Ok? {
          ReadsNothing(n - i, top, result, scale, i, goal);
          return OutOfRange;
        }
        ReadsStep(s, n - i, top, result, scale, i, goal);
        if b.value < 0x80 {
          return Ok(result + scale * b.value, i + 1);
        }
        result, scale, i := result + scale * (b.value - 0x80), 0x80 * scale, i + 1;
      }
      ghost var s := Rest();
      var b := ReadByte();
      if !b.Ok? {
        ReadsNothing(0, top, result, scale, n, goal);
        return OutOfRange;
      }
      ReadsLast(s, top, result, scale, n, goal);
      r := if b.value <= top then Ok(result + scale * b.value, n + 1) else BadInteger;
    }

    method ReadNumber(w: nat) returns (r: Result<nat>)
      requires Valid()
      modifies this
      ensures Valid() && r == ParseNumber(old(Rest()), w)
      ensures r.Ok? ==> pos == old(pos) + r.used
    {
      var b := Consume(w);
      r := Wrapped(b, s => FromBE(s));
    }

    /** `read_varint`: the bytes are copied into a zeroed int, which is swapped and shifted. */
    method ReadVarint(size: int) returns (r: Result<int>)
      requires Valid()
      modifies this
      ensures Valid() && r == Wrapped(ParseNumber(old(Rest()), Clamp(size)), u => Signed(u, 4))
      ensures r.Ok? ==> pos == old(pos) + if size < 1 then 1 else if size > 4 then 4 else size
      ensures r.Ok? ==> pos == old(pos) + r.used
      ensures r.Ok? <==> old(|Rest()|) >= if size < 1 then 1 else if size > 4 then 4 else size
    {
      var n := Clamp(size);
      var b := Consume(n);
      if b.Ok? {
        VarintNumber(b.value);
        r := Ok(Signed(SwapLow(FromLE(b.value + Zeros(4 - n)), n), 4), n);
      } else {
        r := OutOfRange;
      }
    }

    /** `read_bytes` after a header of used bytes. */
    method ReadBytes(count: int, used: nat, ghost start: seq<byte>) returns (r: Result<seq<byte>>)
      requires Valid() && used <= |start| && Rest() == start[used..]
      modifies this
      ensures Valid() && r == ParseData(start, used, count)
      ensures r.Ok? ==> pos == old(pos) + r.used - used
    {
      if count <= 0 {
        return Ok([], used);
      }
      var b := Consume(count);
      if b.Ok? {
        assert start[used..][..count] == start[used..used + count];
        r := Ok(b.value, used + count);
      } else {
        r := OutOfRange;
      }
    }

    /** `read_v`. */
    method ReadV() returns (r: Result<seq<byte>>)
      requires Valid()
      modifies this
      ensures Valid() && r == ParseBlob(old(Rest()))
      ensures r.Ok? ==> pos == old(pos) + r.used
    {
      ghost var start := Rest();
      SevenBitFits(start, 4, 15);
      var n := ReadIx(4, 15);
      match n
      case OutOfRange => return OutOfRange;
      case BadInteger => return BadInteger;
      case Ok(u, used) =>
        assert Rest() == start[used..];
        r := ReadBytes(Signed(u, 4), used, start);
    }

    /** `read_v8`, `read_v16`, `read_v32`. */
    method ReadVFx(w: nat) returns (r: Result<seq<byte>>)
      requires Valid()
      modifies this
      ensures Valid() && r == ParseSizedBlob(old(Rest()), w)
      ensures r.Ok? ==> pos == old(pos) + r.used
    {
      ghost var start := Rest();
      var n := ReadNumber(w);
      if !n.Ok? {
        return OutOfRange;
      }
      assert Rest() == start[w..];
      if n.value > 0 {
        r := ReadBytes(Signed(n.value, 4), w, start);
      } else {
        r := Ok([], w);
      }
    }

    method ReadItem(shape: Shape) returns (r: Result<Item>)
      requires Valid()
      modifies this
      ensures Valid() && r == Parse(shape, old(Rest()))
      ensures r.Ok? ==> pos == old(pos) + r.used
      decreases shape, 1
    {
      match shape
      case FixedShape(w, signed) =>
        var n := ReadNumber(w);
        r := Wrapped(n, u => Fixed(w, signed, if signed then Signed(u, w) else u));
      case SevenBitShape(wide) =>
        var n := ReadIx(if wide then 9 else 4, if wide then 1 else 15);
        r := Wrapped(n, u => SevenBit(wide, Signed(u, Width7(wide))));
      case VarintShape(size) =>
        var n := ReadVarint(size);
        r := Wrapped(n, v => Varint(size, v));
      case BlobShape =>
        var d := ReadV();
        r := Wrapped(d, data => Blob(data));
      case SizedBlobShape(w) =>
        var d := ReadVFx(w);
        r := Wrapped(d, data => SizedBlob(w, data));
      case RegionShape(w, shapes) =>
        r := ReadRegion(shape, w, shapes);
    }

    method ReadRegion(ghost shape: Shape, w: nat, shapes: seq<Shape>) returns (r: Result<Item>)
      requires Valid() && shape == RegionShape(w, shapes)
      modifies this
      ensures Valid() && r == Parse(shape, old(Rest()))
      ensures r.Ok? ==> pos == old(pos) + r.used
      decreases shape, 0
    {
      ghost var start := Rest();
      var n := ReadNumber(w);
      if !n.Ok? {
        return OutOfRange;
      }
      assert Rest() == start[w..];
      var items := ReadAll(shapes);
      match items
      case Ok(inner, used) => r := Ok(Region(w, n.value, inner), w + used);
      case OutOfRange => r := OutOfRange;
      case BadInteger => r := BadInteger;
    }

    /** A sequence of reads. */
    method ReadAll(shapes: seq<Shape>) returns (r: Result<seq<Item>>)
      requires Valid()
      modifies this
      ensures Valid() && r == ParseAll(shapes, old(Rest()))
      ensures r.Ok? ==> pos == old(pos) + r.used
      decreases shapes, 0
    {
      ghost var start := Rest();
      if shapes == [] {
        return Ok([], 0);
      }
      var first := ReadItem(shapes[0]);
      match first
      case OutOfRange => return OutOfRange;
      case BadInteger => return BadInteger;
      case Ok(item, used) =>
        assert Rest() == start[used..];
        var others := ReadAll(shapes[1..]);
        match others
        case OutOfRange => return OutOfRange;
        case BadInteger => return BadInteger;
        case Ok(items, more) => return Ok([item] + items, used + more);
    }
  }
}
