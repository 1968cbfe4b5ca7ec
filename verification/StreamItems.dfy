/** Typed values in a binary stream: their bytes, how they are read back, and when the two undo each other. */
module StreamItems {
  import opened Bytes
  import opened StreamFormat

  datatype Item =
    | Fixed(width: nat, signed: bool, value: int)
    | SevenBit(wide: bool, value: int)
    | Varint(size: int, value: int)
    | Blob(data: seq<byte>)
    | SizedBlob(width: nat, data: seq<byte>)
      /** What was written between a push and its pop; length is the number of its bytes. */
    | Region(width: nat, length: nat, items: seq<Item>)

  datatype Shape =
    | FixedShape(width: nat, signed: bool)
    | SevenBitShape(wide: bool)
    | VarintShape(size: int)
    | BlobShape
    | SizedBlobShape(width: nat)
    | RegionShape(width: nat, shapes: seq<Shape>)

  function ShapeOf(item: Item): Shape
    decreases item
  {
    match item
    case Fixed(w, signed, _) => FixedShape(w, signed)
    case SevenBit(wide, _) => SevenBitShape(wide)
    case Varint(size, _) => VarintShape(size)
    case Blob(_) => BlobShape
    case SizedBlob(w, _) => SizedBlobShape(w)
    case Region(w, _, items) => RegionShape(w, ShapesOf(items))
  }

  function ShapesOf(items: seq<Item>): (r: seq<Shape>)
    ensures |r| == |items|
    decreases items
  {
    if items == [] then [] else [ShapeOf(items[0])] + ShapesOf(items[1..])
  }

  function Clamp(size: int): (r: nat)
    ensures 1 <= r <= 4
  {
    if size < 1 then 1 else if size > 4 then 4 else size
  }

  /** A length converted to a 32-bit `int`. */
  function IntOf(n: nat): (r: int)
    ensures r <= n
    ensures n < 0x8000_0000 ==> r == n
    ensures -0x8000_0000 <= r < 0x8000_0000
    ensures (n - r) % 0x1_0000_0000 == 0
  {
    if n < 0x8000_0000 then n
    else var m := n % 0x1_0000_0000; if m < 0x8000_0000 then m else m - 0x1_0000_0000
  }

  function Width7(wide: bool): nat {
    if wide then 8 else 4
  }

  /** The number of data bytes that a blob's header and body agree on. */
  function Body(data: seq<byte>): seq<byte> {
    if IntOf(|data|) > 0 then data[..IntOf(|data|)] else []
  }

  /** The arguments have the types that the calls declare, and a region's length is what it holds. */
  predicate Typed(item: Item)
    decreases item
  {
    match item
    case Fixed(w, signed, v) => w in {1, 2, 4, 8} && InRange(v, w, signed)
    case SevenBit(wide, v) => InRange(v, Width7(wide), true)
    case Varint(_, v) => InRange(v, 4, true)
    case Blob(_) => true
    case SizedBlob(w, _) => w in {1, 2, 4}
    case Region(w, length, items) => w in {1, 2, 4, 8} && AllTyped(items) && length == |EncodeAll(items)|
  }

  predicate AllTyped(items: seq<Item>)
    decreases items
  {
    items == [] || (Typed(items[0]) && AllTyped(items[1..]))
  }

  function Encode(item: Item): seq<byte>
    decreases item
  {
    match item
    case Fixed(w, _, v) => ToBE(Pattern(v, w), w)
    case SevenBit(wide, v) => Encode7(Pattern(v, Width7(wide)))
    case Varint(size, v) => ToBE(Pattern(v, 4), Clamp(size))
    case Blob(data) => Encode7(Pattern(IntOf(|data|), 4)) + Body(data)
    case SizedBlob(w, data) => ToBE(Pattern(IntOf(|data|), 4), w) + Body(data)
    case Region(w, _, items) => ToBE(|EncodeAll(items)|, w) + EncodeAll(items)
  }

  function EncodeAll(items: seq<Item>): seq<byte>
    decreases items
  {
    if items == [] then [] else Encode(items[0]) + EncodeAll(items[1..])
  }

  function Take(s: seq<byte>, n: nat): Result<seq<byte>> {
    if n <= |s| then Ok(s[..n], n) else OutOfRange
  }

  function ParseNumber(s: seq<byte>, w: nat): Result<nat> {
    if w <= |s| then Ok(FromBE(s[..w]), w) else OutOfRange
  }

  /** The data after a header of used bytes that announced count bytes, none if count is not positive. */
  function ParseData(s: seq<byte>, used: nat, count: int): Result<seq<byte>>
    requires used <= |s|
  {
    if count <= 0 then Ok([], used)
    else if used + count <= |s| then Ok(s[used..used + count], used + count)
    else OutOfRange
  }

  function ParseBlob(s: seq<byte>): Result<seq<byte>> {
    SevenBitFits(s, 4, 15);
    match Decode7(s, 4, 15)
    case Ok(n, used) => ParseData(s, used, Signed(n, 4))
    case OutOfRange => OutOfRange
    case BadInteger => BadInteger
  }

  function ParseSizedBlob(s: seq<byte>, w: nat): Result<seq<byte>> {
    match ParseNumber(s, w)
    case Ok(n, used) => ParseData(s, used, Signed(n, 4))
    case _ => OutOfRange
  }

  function Wrapped<T, U>(r: Result<T>, f: T -> U): Result<U> {
    match r
    case Ok(v, used) => Ok(f(v), used)
    case OutOfRange => OutOfRange
    case BadInteger => BadInteger
  }

  function Parse(shape: Shape, s: seq<byte>): (r: Result<Item>)
    ensures r.Ok? ==> r.used <= |s|
    decreases shape
  {
    SevenBitFits(s, 9, 1);
    SevenBitFits(s, 4, 15);
    match shape
    case FixedShape(w, signed) => Wrapped(ParseNumber(s, w), u => Fixed(w, signed, if signed then Signed(u, w) else u))
    case SevenBitShape(wide) =>
      Wrapped(if wide then Decode7(s, 9, 1) else Decode7(s, 4, 15), u => SevenBit(wide, Signed(u, Width7(wide))))
    case VarintShape(size) => Wrapped(ParseNumber(s, Clamp(size)), u => Varint(size, Signed(u, 4)))
    case BlobShape => Wrapped(ParseBlob(s), data => Blob(data))
    case SizedBlobShape(w) => Wrapped(ParseSizedBlob(s, w), data => SizedBlob(w, data))
    case RegionShape(w, shapes) =>
      if w > |s| then OutOfRange
      else match ParseAll(shapes, s[w..])
           case Ok(items, used) => Ok(Region(w, FromBE(s[..w]), items), w + used)
           case OutOfRange => OutOfRange
           case BadInteger => BadInteger
  }

  function ParseAll(shapes: seq<Shape>, s: seq<byte>): (r: Result<seq<Item>>)
    ensures r.Ok? ==> r.used <= |s|
    decreases shapes
  {
    if shapes == [] then Ok([], 0)
    else match Parse(shapes[0], s)
         case OutOfRange => OutOfRange
         case BadInteger => BadInteger
         case Ok(item, used) =>
           match ParseAll(shapes[1..], s[used..])
           case Ok(items, more) => Ok([item] + items, used + more)
           case OutOfRange => OutOfRange
           case BadInteger => BadInteger
  }

  /** What the format can carry: the value survives the width it is given. */
  predicate Fits(item: Item)
    decreases item
  {
    match item
    case Fixed(_, _, _) => true
    case SevenBit(_, _) => true
    case Varint(size, v) => Clamp(size) == 4 || 0 <= v < Pow256(Clamp(size))
    case Blob(data) => |data| < 0x8000_0000
    case SizedBlob(w, data) => |data| < Pow256(w) && |data| < 0x8000_0000
    case Region(w, length, items) => length < Pow256(w) && AllFit(items)
  }

  predicate AllFit(items: seq<Item>)
    decreases items
  {
    items == [] || (Fits(items[0]) && AllFit(items[1..]))
  }

  /** The item comes back, and exactly its own bytes are used. */
  predicate ReadsBack(item: Item, rest: seq<byte>) {
    Parse(ShapeOf(item), Encode(item) + rest) == Ok(item, |Encode(item)|)
  }

  predicate Returns<T(==)>(r: Result<T>, value: T) {
    r.Ok? && r.value == value
  }

  lemma SignedPattern(v: int, w: nat)
    requires InRange(v, w, true)
    ensures Pattern(v, w) < Pow256(w) && Signed(Pattern(v, w), w) == v
  {
  }

  lemma NumberBack(n: nat, w: nat, rest: seq<byte>)
    ensures n < Pow256(w) ==> ParseNumber(ToBE(n, w) + rest, w) == Ok(n, w)
    ensures ParseNumber(ToBE(n, w) + rest, w).Ok? && ParseNumber(ToBE(n, w) + rest, w).value < Pow256(w)
  {
    assert (ToBE(n, w) + rest)[..w] == ToBE(n, w);
    BigEndianRoundTrip(n, w);
  }

  lemma FixedBack(item: Item, rest: seq<byte>)
    requires item.Fixed? && Typed(item)
    ensures ReadsBack(item, rest)
  {
    if item.signed {
      SignedPattern(item.value, item.width);
    }
    NumberBack(Pattern(item.value, item.width), item.width, rest);
  }

  lemma Capacities()
    ensures Pow128(4) * 16 == Pow256(4) && Pow128(9) * 2 == Pow256(8)
  {
    Sizes();
    assert Pow128(4) == 0x1000_0000;
    assert Pow128(5) == 128 * Pow128(4);
    assert Pow128(6) == 128 * Pow128(5);
    assert Pow128(7) == 128 * Pow128(6);
    assert Pow128(8) == 128 * Pow128(7);
    assert Pow128(9) == 128 * Pow128(8);
  }

  lemma SevenBitBack(item: Item, rest: seq<byte>)
    requires item.SevenBit? && Typed(item)
    ensures ReadsBack(item, rest)
  {
    var w := Width7(item.wide);
    SignedPattern(item.value, w);
    Capacities();
    SevenBitRoundTrip(Pattern(item.value, w), if item.wide then 9 else 4, if item.wide then 1 else 15, rest);
  }

  lemma VarintBack(item: Item, rest: seq<byte>)
    requires item.Varint? && Typed(item)
    ensures Fits(item) ==> ReadsBack(item, rest)
    ensures !Fits(item) ==> !Returns(Parse(ShapeOf(item), Encode(item) + rest), item)
  {
    Sizes();
    SignedPattern(item.value, 4);
    NumberBack(Pattern(item.value, 4), Clamp(item.size), rest);
  }

  lemma DataBack(header: seq<byte>, data: seq<byte>, rest: seq<byte>, count: int)
    requires |data| < 0x8000_0000 ==> count == |data|
    requires |data| >= 0x8000_0000 ==> count < 0x8000_0000
    ensures |data| < 0x8000_0000 ==>
              ParseData(header + Body(data) + rest, |header|, count) == Ok(data, |header| + |data|)
    ensures |data| >= 0x8000_0000 ==> !Returns(ParseData(header + Body(data) + rest, |header|, count), data)
  {
    if |data| < 0x8000_0000 {
      assert Body(data) == data;
      var s := header + Body(data) + rest;
      assert s[|header|..|header| + |data|] == data;
    }
  }

  lemma BlobBack(item: Item, rest: seq<byte>)
    requires item.Blob?
    ensures Fits(item) ==> ReadsBack(item, rest)
    ensures !Fits(item) ==> !Returns(Parse(ShapeOf(item), Encode(item) + rest), item)
  {
    Sizes();
    Capacities();
    var len := IntOf(|item.data|);
    SignedPattern(len, 4);
    var n := Pattern(len, 4);
    var header := Encode7(n);
    SevenBitRoundTrip(n, 4, 15, Body(item.data) + rest);
    assert header + (Body(item.data) + rest) == Encode(item) + rest == header + Body(item.data) + rest;
    DataBack(header, item.data, rest, len);
  }

  lemma SizedBlobBack(item: Item, rest: seq<byte>)
    requires item.SizedBlob? && Typed(item)
    ensures Fits(item) ==> ReadsBack(item, rest)
    ensures !Fits(item) ==> !Returns(Parse(ShapeOf(item), Encode(item) + rest), item)
  {
    Sizes();
    var w, len := item.width, IntOf(|item.data|);
    SignedPattern(len, 4);
    var n := Pattern(len, 4);
    var header := ToBE(n, w);
    NumberBack(n, w, Body(item.data) + rest);
    assert header + (Body(item.data) + rest) == Encode(item) + rest == header + Body(item.data) + rest;
    if Fits(item) || w == 4 {
      DataBack(header, item.data, rest, len);
    }
  }

  /** A region is read as its length and then its items. */
  lemma ParseRegion(w: nat, shapes: seq<Shape>, header: seq<byte>, body: seq<byte>)
    requires |header| == w
    ensures Parse(RegionShape(w, shapes), header + body)
         == match ParseAll(shapes, body)
            case Ok(items, used) => Ok(Region(w, FromBE(header), items), w + used)
            case OutOfRange => OutOfRange
            case BadInteger => BadInteger
  {
    var s := header + body;
    assert s[..w] == header && s[w..] == body;
  }

  lemma {:induction false} RegionBack(item: Item, rest: seq<byte>)
    requires item.Region? && Typed(item)
    ensures Fits(item) ==> ReadsBack(item, rest)
    ensures !Fits(item) ==> !Returns(Parse(ShapeOf(item), Encode(item) + rest), item)
    decreases item, 0
  {
    var w, inner, shapes := item.width, EncodeAll(item.items), ShapesOf(item.items);
    var header := ToBE(|inner|, w);
    assert Encode(item) + rest == header + (inner + rest);
    BigEndianRoundTrip(|inner|, w);
    AllReadBack(item.items, rest);
    ParseRegion(w, shapes, header, inner + rest);
    var r := Parse(RegionShape(w, shapes), header + (inner + rest));
    assert ShapeOf(item) == RegionShape(w, shapes);
    assert !AllFit(item.items) ==> !Returns(r, item);
    assert |inner| >= Pow256(w) ==> !Returns(r, item);
  }

  /** One typed write is read back, with nothing of what follows, exactly if its value fits. */
  lemma {:induction false} ItemReadsBack(item: Item, rest: seq<byte>)
    requires Typed(item)
    ensures Fits(item) ==> ReadsBack(item, rest)
    ensures !Fits(item) ==> !Returns(Parse(ShapeOf(item), Encode(item) + rest), item)
    decreases item, 1
  {
    match item
    case Fixed(_, _, _) => FixedBack(item, rest);
    case SevenBit(_, _) => SevenBitBack(item, rest);
    case Varint(_, _) => VarintBack(item, rest);
    case Blob(_) => BlobBack(item, rest);
    case SizedBlob(_, _) => SizedBlobBack(item, rest);
    case Region(_, _, _) => RegionBack(item, rest);
  }

  /** Reading a sequence is reading its first item and then the others from where that ended. */
  lemma {:induction false} ParseFirst(shape: Shape, others: seq<Shape>, s: seq<byte>)
    ensures
      var r, first := ParseAll([shape] + others, s), Parse(shape, s);
      if !first.Ok? then !r.Ok?
      else
        var more := ParseAll(others, s[first.used..]);
        if more.Ok? then r == Ok([first.value] + more.value, first.used + more.used) else !r.Ok?
  {
    assert ([shape] + others)[1..] == others;
  }

  /** The same for any sequence of writes. */
  lemma {:induction false} AllReadBack(items: seq<Item>, rest: seq<byte>)
    requires AllTyped(items)
    ensures AllFit(items) ==> ParseAll(ShapesOf(items), EncodeAll(items) + rest) == Ok(items, |EncodeAll(items)|)
    ensures !AllFit(items) ==> !Returns(ParseAll(ShapesOf(items), EncodeAll(items) + rest), items)
    decreases items, 0
  {
    if items != [] {
      var first, others := items[0], items[1..];
      var tail := EncodeAll(others) + rest;
      Associative(Encode(first), EncodeAll(others), rest);
      ItemReadsBack(first, tail);
      ParseFirst(ShapeOf(first), ShapesOf(others), Encode(first) + tail);
      assert items == [first] + others;
      if Fits(first) {
        assert (Encode(first) + tail)[|Encode(first)|..] == tail;
        AllReadBack(others, rest);
      }
    }
  }

  /** Any sequence of typed writes is read back by the same reads, up to the end, exactly if all values fit. */
  lemma RoundTripIff(items: seq<Item>)
    requires AllTyped(items)
    ensures ParseAll(ShapesOf(items), EncodeAll(items)) == Ok(items, |EncodeAll(items)|) <==> AllFit(items)
    ensures Returns(ParseAll(ShapesOf(items), EncodeAll(items)), items) <==> AllFit(items)
  {
    AllReadBack(items, []);
    assert EncodeAll(items) + [] == EncodeAll(items);
  }

  /** A negative number loses its sign in fewer than four bytes. */
  lemma NarrowNegativeLost()
    ensures var item := Varint(2, -1); Typed(item) && Parse(ShapeOf(item), Encode(item)) == Ok(Varint(2, 0xFFFF), 2)
  {
    Sizes();
    assert ToBE(0xFFFF_FFFF, 2) == [255, 255];
    assert FromBE([255, 255]) == 0xFFFF by {
      assert [255, 255][..1] == [255];
      assert FromBE([255]) == 255;
    }
  }

  /** The number of bytes that a requested size stands for. */
  lemma VarintSize(size: int, v: int)
    requires Typed(Varint(size, v))
    ensures 1 <= size <= 4 ==> Encode(Varint(size, v)) == ToBE(v % 0x1_0000_0000, size)
    ensures size < 1 ==> Encode(Varint(size, v)) == ToBE(v % 0x1_0000_0000, 1)
    ensures size > 4 ==> Encode(Varint(size, v)) == ToBE(v % 0x1_0000_0000, 4)
  {
    Sizes();
  }

  /** How many seven-bit bytes a number takes: n if it has more than n - 1 groups of seven bits and no more than n. */
  lemma {:induction false} SevenBitLength(v: nat, n: nat)
    requires n >= 1 && v < Pow128(n) && (n >= 2 ==> v >= Pow128(n - 1))
    ensures |Encode7(v)| == n
  {
    if n >= 2 {
      assert Pow128(n) == 128 * Pow128(n - 1);
      assert n >= 3 ==> Pow128(n - 1) == 128 * Pow128(n - 2);
      SevenBitLength(v / 0x80, n - 1);
    }
  }

  /** The widths of seven-bit integers: minus one takes five bytes as a 32-bit number and ten as a 64-bit number. */
  lemma MinusOneLength()
    ensures |Encode(SevenBit(false, -1))| == 5 && |Encode(SevenBit(true, -1))| == 10
  {
    Sizes();
    Capacities();
    assert Pow128(5) == 128 * Pow128(4) && Pow128(10) == 128 * Pow128(9);
    SevenBitLength(0xFFFF_FFFF, 5);
    SevenBitLength(0xFFFF_FFFF_FFFF_FFFF, 10);
  }

  /** Every 32-bit, or 64-bit, number is read back. */
  lemma SevenBitRange(wide: bool, v: int, rest: seq<byte>)
    requires if wide then -0x8000_0000_0000_0000 <= v < 0x8000_0000_0000_0000 else -0x8000_0000 <= v < 0x8000_0000
    ensures Typed(SevenBit(wide, v)) && ReadsBack(SevenBit(wide, v), rest)
  {
    Sizes();
    SevenBitBack(SevenBit(wide, v), rest);
  }

  /** What is accepted as a seven-bit integer is in that range and took no more than five, or ten, bytes. */
  lemma SevenBitAccepted(wide: bool, s: seq<byte>)
    requires Parse(SevenBitShape(wide), s).Ok?
    ensures
      var r := Parse(SevenBitShape(wide), s);
      && r.value.SevenBit? && r.value.wide == wide
      && (if wide then -0x8000_0000_0000_0000 <= r.value.value < 0x8000_0000_0000_0000 && r.used <= 10
          else -0x8000_0000 <= r.value.value < 0x8000_0000 && r.used <= 5)
  {
    Sizes();
    Capacities();
    SevenBitFits(s, if wide then 9 else 4, if wide then 1 else 15);
    DecodedLength(s, if wide then 9 else 4, if wide then 1 else 15);
  }

  lemma {:induction false} DecodedLength(s: seq<byte>, n: nat, top: nat)
    ensures Decode7(s, n, top).Ok? ==> Decode7(s, n, top).used <= n + 1
  {
    if s != [] && n > 0 {
      DecodedLength(s[1..], n - 1, top);
    }
  }
}
