/** The byte format of yasio's binary streams: what the writer appends and what the reader makes of it. */
module StreamFormat {
  import opened Bytes

  // ----- Integers -----

  /** The unsigned number with the same w bytes as v, for v of that width. */
  function Pattern(v: int, w: nat): nat {
    if v >= 0 then v else if v + Pow256(w) >= 0 then v + Pow256(w) else 0
  }

  /** The signed number with the same w bytes. */
  function Signed(u: nat, w: nat): int {
    if 2 * u >= Pow256(w) then u - Pow256(w) else u
  }

  predicate InRange(v: int, w: nat, signed: bool) {
    if signed then -(Pow256(w) as int) <= 2 * v < Pow256(w) else 0 <= v < Pow256(w)
  }

  lemma Sizes()
    ensures Pow256(1) == 0x100 && Pow256(2) == 0x1_0000 && Pow256(3) == 0x100_0000
    ensures Pow256(4) == 0x1_0000_0000 && Pow256(8) == 0x1_0000_0000_0000_0000
  {
    assert Pow256(5) == 256 * Pow256(4);
    assert Pow256(6) == 256 * Pow256(5);
    assert Pow256(7) == 256 * Pow256(6);
  }

  /** Seven bits to a byte, least significant first, the top bit set on all bytes but the last. */
  function Encode7(v: nat): (s: seq<byte>)
    ensures |s| > 0
  {
    if v < 0x80 then [v] else [v % 0x80 + 0x80] + Encode7(v / 0x80)
  }

  function Pow128(n: nat): (p: nat)
    ensures p > 0
  {
    if n == 0 then 1 else 128 * Pow128(n - 1)
  }

  datatype Result<T> = Ok(value: T, used: nat) | OutOfRange | BadInteger

  /** n bytes of seven bits each and then a last one, which must not exceed top. */
  function Decode7(s: seq<byte>, n: nat, top: nat): Result<nat> {
    if s == [] then OutOfRange
    else if n == 0 then (if s[0] <= top then Ok(s[0], 1) else BadInteger)
    else if s[0] < 0x80 then Ok(s[0], 1)
    else match Decode7(s[1..], n - 1, top)
         case Ok(v, used) => Ok(s[0] - 0x80 + 0x80 * v, used + 1)
         case error => error
  }

  /** Every number that fits is read back, whatever follows it. */
  lemma {:induction false} SevenBitRoundTrip(v: nat, n: nat, top: nat, rest: seq<byte>)
    requires top < 0x80 && v < Pow128(n) * (top + 1)
    ensures Decode7(Encode7(v) + rest, n, top) == Ok(v, |Encode7(v)|)
  {
    var s := Encode7(v) + rest;
    if v < 0x80 {
      assert s[0] == v;
      assert n == 0 ==> v <= top;
    } else if n == 0 {
      assert false;
    } else {
      assert Pow128(n) * (top + 1) == 128 * (Pow128(n - 1) * (top + 1));
      assert s[1..] == Encode7(v / 0x80) + rest;
      SevenBitRoundTrip(v / 0x80, n - 1, top, rest);
    }
  }

  /** What is accepted fits: the last byte's limit excludes integer overflow. */
  lemma {:induction false} SevenBitFits(s: seq<byte>, n: nat, top: nat)
    requires top < 0x80
    ensures Decode7(s, n, top).Ok? ==>
              Decode7(s, n, top).value < Pow128(n) * (top + 1) && Decode7(s, n, top).used <= |s|
  {
    if s != [] && n > 0 {
      assert Pow128(n) * (top + 1) == 128 * (Pow128(n - 1) * (top + 1));
      assert Pow128(n - 1) * (top + 1) >= 1;
      SevenBitFits(s[1..], n - 1, top);
    }
  }

  // ----- Byte order -----

  /** The 32-bit byte swap of a little-endian host, seen as a number. */
  function Swap32(v: nat): nat {
    FromLE(ToBE(v, 4))
  }

  /**
   `host_to_network(value, size)` and `network_to_host(value, size)`, which are the same on a little-endian host:
   swapped, then shifted down to the low bytes.
   */
  function SwapLow(v: nat, size: nat): nat
    requires 1 <= size <= 4
  {
    Swap32(v) / Pow256(4 - size)
  }

  lemma {:induction false} LittleEndianBytes(s: seq<byte>)
    ensures ToLE(FromLE(s), |s|) == s
  {
    if s != [] {
      LittleEndianBytes(s[1..]);
    }
  }

  lemma {:induction false} DropLow(s: seq<byte>, k: nat)
    requires k <= |s|
    ensures FromLE(s) / Pow256(k) == FromLE(s[k..])
  {
    if k > 0 {
      DropLow(s[1..], k - 1);
      assert s[1..][k - 1..] == s[k..];
      DivideTwice(FromLE(s), Pow256(k - 1));
    } else {
      assert s[0..] == s;
    }
  }

  lemma DivideTwice(n: nat, p: nat)
    requires p > 0
    ensures n / (256 * p) == n / 256 / p
  {
    var q := n / 256 / p;
    var r := n / 256 - q * p;
    assert n == 256 * p * q + (256 * r + n % 256);
    assert 0 <= 256 * r + n % 256 < 256 * p;
    Quotient(n, 256 * p, q, 256 * r + n % 256);
  }

  lemma Quotient(n: nat, d: nat, q: nat, r: nat)
    requires n == d * q + r && r < d
    ensures n / d == q
  {
    var k := n / d - q;
    assert d * k == r - n % d;
    assert k >= 1 ==> d * k >= d;
    assert k <= -1 ==> d * k <= -(d as int);
  }

  lemma {:induction false} LowBytes(v: nat, w: nat, k: nat)
    requires k <= w
    ensures ToBE(v, w)[w - k..] == ToBE(v, k)
  {
    if k > 0 {
      LowBytes(v / 256, w - 1, k - 1);
      assert ToBE(v, w)[w - k..] == ToBE(v / 256, w - 1)[w - k..] + [v % 256];
    }
  }

  /** The bytes that a partial integer leaves in memory are its low bytes in network order. */
  lemma VarintBytes(v: nat, size: nat)
    requires 1 <= size <= 4
    ensures ToLE(SwapLow(v, size), size) == ToBE(v, size)
  {
    DropLow(ToBE(v, 4), 4 - size);
    LowBytes(v, 4, size);
    LittleEndianBytes(ToBE(v, size));
  }

  function Zeros(k: nat): (s: seq<byte>)
    ensures |s| == k
  {
    if k == 0 then [] else Zeros(k - 1) + [0]
  }

  lemma FromBEAppend(s: seq<byte>, b: byte)
    ensures FromBE(s + [b]) == FromBE(s) * 256 + b
  {
    assert (s + [b])[..|s|] == s;
  }

  lemma {:induction false} TrailingZeros(s: seq<byte>, k: nat)
    ensures FromBE(s + Zeros(k)) == FromBE(s) * Pow256(k)
  {
    if k == 0 {
      assert s + Zeros(0) == s;
    } else {
      TrailingZeros(s, k - 1);
      Associative(s, Zeros(k - 1), [0]);
      FromBEAppend(s + Zeros(k - 1), 0);
      Times256(FromBE(s), Pow256(k - 1));
    }
  }

  lemma Times256(a: nat, p: nat)
    ensures a * (256 * p) == a * p * 256
  {
  }

  lemma {:induction false} Mirror(s: seq<byte>, w: nat)
    requires |s| == w
    ensures FromLE(ToBE(FromLE(s), w)) == FromBE(s)
  {
    if w > 0 {
      var n := FromLE(s);
      var init, last := s[..w - 1], s[w - 1];
      FromLEAppend(init, last);
      Mirror(init, w - 1);
      ToBEHead(FromLE(init), last, w - 1);
      assert s == init + [last];
      FromLECons(last, ToBE(FromLE(init), w - 1));
    }
  }

  lemma FromLECons(b: byte, s: seq<byte>)
    ensures FromLE([b] + s) == b + 256 * FromLE(s)
  {
    assert ([b] + s)[1..] == s;
  }

  lemma {:induction false} FromLEAppend(s: seq<byte>, b: byte)
    ensures FromLE(s + [b]) == FromLE(s) + b * Pow256(|s|)
    ensures FromLE(s) < Pow256(|s|)
  {
    if s != [] {
      FromLEAppend(s[1..], b);
      assert (s + [b])[1..] == s[1..] + [b];
      assert b * Pow256(|s|) == 256 * (b * Pow256(|s| - 1));
    }
  }

  lemma {:induction false} ToBEHead(n: nat, b: byte, w: nat)
    requires n < Pow256(w)
    ensures ToBE(n + b * Pow256(w), w + 1) == [b] + ToBE(n, w)
  {
    if w == 0 {
      assert ToBE(b, 1) == ToBE(b / 256, 0) + [b % 256];
    } else {
      var m := n + b * Pow256(w);
      assert b * Pow256(w) == 256 * (b * Pow256(w - 1));
      assert m / 256 == n / 256 + b * Pow256(w - 1) && m % 256 == n % 256;
      ToBEHead(n / 256, b, w - 1);
      assert ([b] + ToBE(n / 256, w - 1)) + [n % 256] == [b] + (ToBE(n / 256, w - 1) + [n % 256]);
    }
  }

  /** Copied into a zeroed integer and swapped back, the bytes give the number they spell in network order. */
  lemma VarintNumber(s: seq<byte>)
    requires 1 <= |s| <= 4
    ensures SwapLow(FromLE(s + Zeros(4 - |s|)), |s|) == FromBE(s)
  {
    var t := s + Zeros(4 - |s|);
    Mirror(t, 4);
    TrailingZeros(s, 4 - |s|);
    var p := Pow256(4 - |s|);
    Exactly(FromBE(s), p);
  }

  lemma Exactly(q: nat, p: nat)
    requires p > 0
    ensures q * p / p == q
  {
    Quotient(q * p, p, q, 0);
  }
}
