/** yasio's binary writer over a growing buffer (obstream.hpp). */
module StreamWriter {
  import opened Bytes
  import opened StreamFormat
  import opened StreamItems

  class Writer {
    var buf: seq<byte>

    constructor ()
      ensures buf == []
    {
      buf := [];
    }

    method WriteByte(b: byte)
      modifies this
      ensures buf == old(buf) + [b]
    {
      buf := buf + [b];
    }

    /** Appends the first n bytes of d, none if n is not positive. */
    method WriteBytes(d: seq<byte>, n: int)
      requires n <= |d|
      modifies this
      ensures buf == old(buf) + if n > 0 then d[..n] else []
    {
      if n > 0 {
        buf := buf + d[..n];
      } else {
        assert buf + [] == buf;
      }
    }

    /** `write`: a fixed-width integer in network order. */
    method Write(v: int, w: nat)
      modifies this
      ensures buf == old(buf) + ToBE(Pattern(v, w), w)
    {
      var nv := ToBE(Pattern(v, w), w);
      WriteBytes(nv, w);
      assert nv[..w] == nv;
    }

    /** `write_ix`: seven bits at a time; negative numbers are written as the unsigned number with the same bytes. */
    method WriteIx(value: int, wide: bool)
      modifies this
      ensures buf == old(buf) + Encode7(Pattern(value, Width7(wide)))
    {
      var v := Pattern(value, Width7(wide));
      while v >= 0x80
        invariant buf + Encode7(v) == old(buf) + Encode7(Pattern(value, Width7(wide)))
      {
        ghost var before, rest := buf, Encode7(v / 0x80);
        assert before + Encode7(v) == (before + [v % 0x80 + 0x80]) + rest;
        WriteByte(v % 0x80 + 0x80);
        v := v / 0x80;
      }
      WriteByte(v);
    }

    /** `write_varint`: the low bytes of an int, byte-swapped and shifted as one number. */
    method WriteVarint(value: int, size: int)
      modifies this
      ensures buf == old(buf) + ToBE(Pattern(value, 4), Clamp(size))
      ensures |buf| == |old(buf)| + if size < 1 then 1 else if size > 4 then 4 else size
    {
      var n := Clamp(size);
      var net := ToLE(SwapLow(Pattern(value, 4), n), n);
      VarintBytes(Pattern(value, 4), n);
      WriteBytes(net, n);
      assert net[..n] == net;
    }

    /** `write_v`: a blob after its length in seven-bit form. */
    method WriteV(data: seq<byte>)
      modifies this
      ensures buf == old(buf) + Encode(Blob(data))
    {
      var len := IntOf(|data|);
      WriteIx(len, false);
      WriteBytes(data, len);
      assert buf == old(buf) + (Encode7(Pattern(len, 4)) + Body(data));
    }

    /** `write_v8`, `write_v16`, `write_v32`: a blob after its length in w bytes. */
    method WriteVFx(data: seq<byte>, w: nat)
      modifies this
      ensures buf == old(buf) + Encode(SizedBlob(w, data))
    {
      var size := IntOf(|data|);
      ghost var header := ToBE(Pattern(size, 4), w);
      buf := buf + ToBE(Pattern(size, 4), w);
      if size != 0 {
        WriteBytes(data, size);
      }
      assert buf == old(buf) + (header + Body(data));
    }

    /** `push`: leaves room for the length of what follows. */
    method Push(w: nat) returns (where: nat)
      modifies this
      ensures where == old(|buf|) && buf == old(buf) + Zeros(w)
    {
      where := |buf|;
      buf := buf + Zeros(w);
    }

    /** `pop`: patches the room left at offset with the number of bytes written since. */
    method Pop(w: nat, offset: nat)
      requires offset + w <= |buf|
      modifies this
      ensures buf == old(buf[..offset] + ToBE(|buf| - offset - w, w) + buf[offset + w..])
    {
      var nv := ToBE(|buf| - offset - w, w);
      buf := buf[..offset] + nv + buf[offset + w..];
    }

    method WriteItem(item: Item)
      modifies this
      ensures buf == old(buf) + Encode(item)
      decreases item, 1
    {
      match item
      case Fixed(w, _, v) => Write(v, w);
      case SevenBit(wide, v) => WriteIx(v, wide);
      case Varint(size, v) => WriteVarint(v, size);
      case Blob(data) => WriteV(data);
      case SizedBlob(w, data) => WriteVFx(data, w);
      case Region(w, _, items) => WriteRegion(item, w, items);
    }

    method WriteRegion(ghost item: Item, w: nat, items: seq<Item>)
      requires item.Region? && item.width == w && item.items == items
      modifies this
      ensures buf == old(buf) + Encode(item)
      decreases item, 0
    {
      ghost var inner := EncodeAll(items);
      var where := Push(w);
      WriteAll(items);
      assert buf == old(buf) + Zeros(w) + inner;
      Pop(w, where);
      assert buf == old(buf) + (ToBE(|inner|, w) + inner);
    }

    /** Any sequence of typed writes appends the concatenation of their encodings. */
    method WriteAll(items: seq<Item>)
      modifies this
      ensures buf == old(buf) + EncodeAll(items)
      decreases items, 0
    {
      if items == [] {
        assert buf + [] == buf;
      } else {
        WriteItem(items[0]);
        WriteAll(items[1..]);
        assert buf == old(buf) + (Encode(items[0]) + EncodeAll(items[1..]));
      }
    }
  }
}
