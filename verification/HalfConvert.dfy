/** Conversion of a double to half precision (`float2half_impl` of half.hpp). */
module HalfConvert {
  import opened PowersOfTwo
  import opened HalfRounding

  /** The fields of an IEEE 754 binary64 number. */
  predicate Negative(dbits: nat) {
    dbits / 0x8000_0000_0000_0000 % 2 == 1
  }

  function BiasedExponent(dbits: nat): nat {
    dbits / 0x10_0000_0000_0000 % 0x800
  }

  function Fraction(dbits: nat): nat {
    dbits % 0x10_0000_0000_0000
  }

  /** The last place of a double with biased exponent e is 2^(e - BIAS) units of 2^-25: 1023 + 52 - 25. */
  const BIAS: nat := 1050

  /** A significand times 2^(e - 1075), in units of 2^-25. */
  function Scaled(significand: nat, e: nat): Target {
    Exact(significand * Pow2(e), Pow2(BIAS))
  }

  /** A finite magnitude: subnormal doubles have no leading one and the exponent of the smallest normal. */
  function Value(e: nat, f: nat): Target {
    if e == 0 then Scaled(f, 1) else Scaled(0x10_0000_0000_0000 + f, e)
  }

  /** Discarded bits l out of 2 * h: their top bit is the guard, the rest the sticky bit. */
  lemma WithinBits(m: nat, k: positive, d: positive, a: nat, h: nat, l: nat, lo: nat, mid: nat, hi: nat)
    requires m == a * (2 * h) + l && l < 2 * h
    requires lo * d == a * (2 * h) * k && mid * d == (a * (2 * h) + h) * k && hi * d == (a * (2 * h) + 2 * h) * k
    ensures Within(Exact(m * k, d), lo, mid, hi, if l >= h then 1 else 0, if l == h || l == 0 then 0 else 1)
  {
    var b := a * (2 * h);
    Cancel(m, b, k);
    Cancel(m, b + h, k);
    Cancel(m, b + 2 * h, k);
    Cancel(b, m, k);
    Cancel(b + h, m, k);
  }

  lemma StepPoints(a: nat, p: nat, d: nat, h: nat, k: nat)
    requires p * d == h * k
    ensures 2 * (a * p) * d == a * (2 * h) * k
    ensures (a * p + (a * p + p)) * d == (a * (2 * h) + h) * k
    ensures 2 * (a * p + p) * d == (a * (2 * h) + 2 * h) * k
  {
    var u := a * (p * d);
    assert a * p * d == u && a * h * k == a * (h * k);
    assert a * (2 * h) * k == 2 * u;
    assert (a * (2 * h) + h) * k == 2 * u + h * k;
    assert (a * (2 * h) + 2 * h) * k == 2 * u + 2 * (h * k);
    assert (a * p + (a * p + p)) * d == 2 * u + p * d;
    assert 2 * (a * p + p) * d == 2 * u + 2 * (p * d);
  }

  /** A significand m = 2ah + l whose quotient a is the significand of the half with code c. */
  lemma BracketBits(m: nat, k: positive, d: positive, c: nat, a: nat, h: nat, l: nat)
    requires c < INFINITY && Magnitude(c) == a * Pow2(Exponent(c))
    requires Pow2(Exponent(c)) * d == h * k
    requires m == a * (2 * h) + l && l < 2 * h
    ensures Bracket(Exact(m * k, d), c, if l >= h then 1 else 0, if l == h || l == 0 then 0 else 1)
  {
    var p := Pow2(Exponent(c));
    NextMagnitude(c);
    StepPoints(a, p, d, h, k);
    WithinBits(m, k, d, a, h, l, Point(c), Mid(c, c + 1), Point(c + 1));
  }

  lemma Constants()
    ensures Pow2(11) == 2048 && Pow2(32) == 0x1_0000_0000 && Pow2(41) == 0x200_0000_0000
    ensures Pow2(52) == 0x10_0000_0000_0000 && Pow2(53) == 0x20_0000_0000_0000
  {
    assert Pow2(10) == 1024 && Pow2(9) == 512;
    Pow2Add(11, 11);
    Pow2Add(22, 10);
    Pow2Add(32, 9);
    Pow2Add(32, 10);
    Pow2Add(42, 11);
  }

  lemma NormalStep(e: nat)
    requires 1009 <= e
    ensures Pow2(e - 1009) * Pow2(BIAS) == 0x200_0000_0000 * Pow2(e)
  {
    Constants();
    Pow2Add(e - 1009, BIAS);
    Pow2Add(41, e);
  }

  lemma NormalBits(fh: nat, lo: nat)
    requires fh < 0x10_0000 && lo < 0x1_0000_0000
    ensures
      var h, l := 0x200_0000_0000, fh % 1024 * 0x1_0000_0000 + lo;
      && 0x10_0000_0000_0000 + fh * 0x1_0000_0000 + lo == (1024 + fh / 1024) * (2 * h) + l
      && l < 2 * h
      && (l >= h <==> fh / 512 % 2 == 1)
      && (l == h || l == 0 <==> fh % 512 == 0 && lo == 0)
  {
  }

  /** A double in the range of normal halves: its top ten fraction bits are kept, forty-two are cut off. */
  lemma NormalCase(e: nat, fh: nat, lo: nat)
    requires 1009 <= e <= 1038 && fh < 0x10_0000 && lo < 0x1_0000_0000
    ensures Bracket(Scaled(0x10_0000_0000_0000 + fh * 0x1_0000_0000 + lo, e), (e - 1008) * 1024 + fh / 1024,
                    fh / 512 % 2, if fh % 512 == 0 && lo == 0 then 0 else 1)
  {
    var c, f := (e - 1008) * 1024 + fh / 1024, fh / 1024;
    NormalCode(e, f);
    NormalStep(e);
    NormalBits(fh, lo);
    BracketBits(0x10_0000_0000_0000 + fh * 0x1_0000_0000 + lo, Pow2(e), Pow2(BIAS), c,
                1024 + f, 0x200_0000_0000, fh % 1024 * 0x1_0000_0000 + lo);
  }

  lemma NormalCode(e: nat, f: nat)
    requires 1009 <= e <= 1038 && f < 1024
    ensures
      var c := (e - 1008) * 1024 + f;
      c < INFINITY && Exponent(c) == e - 1009 && Magnitude(c) == (1024 + f) * Pow2(e - 1009)
  {
    var c := (e - 1008) * 1024 + f;
    assert c / 1024 == e - 1008 && c % 1024 == f;
  }

  lemma FractionField(hi: nat)
    ensures hi / 0x400 % 0x400 == hi % 0x10_0000 / 0x400
  {
    var q, r := hi / 0x400, hi % 0x400;
    var a, t := q / 0x400, q % 0x400;
    assert hi == a * 0x10_0000 + (t * 0x400 + r);
    assert hi % 0x10_0000 == t * 0x400 + r;
  }

  lemma SameParity(q: nat, a: nat, t: nat)
    requires q == 2 * a + t
    ensures q % 2 == t % 2
  {
  }

  lemma GuardField(hi: nat)
    ensures hi / 0x200 % 2 == hi % 0x10_0000 / 0x200 % 2
  {
    var q, r := hi / 0x200, hi % 0x200;
    var a, t := q / 0x800, q % 0x800;
    assert hi == a * 0x10_0000 + (t * 0x200 + r);
    assert hi % 0x10_0000 == t * 0x200 + r;
    SameParity(q, a * 0x400, t);
  }

  lemma Remainder(n: nat, q: nat, r: nat)
    requires n == q * 0x200 + r && r < 0x200
    ensures n % 0x200 == r
  {
  }

  lemma StickyField(hi: nat)
    ensures hi % 0x200 == hi % 0x10_0000 % 0x200
  {
    var a, f := hi / 0x10_0000, hi % 0x10_0000;
    Remainder(hi, a * 0x800 + f / 0x200, f % 0x200);
  }

  lemma NormalCorrect(mode: Mode, negative: bool, hi: nat, lo: nat)
    requires 0x3F10_0000 <= hi < 0x40F0_0000 && lo < 0x1_0000_0000
    ensures Correct(mode, negative, Value(hi / 0x10_0000, hi % 0x10_0000 * 0x1_0000_0000 + lo),
                    Rounded(mode,
                            (if negative then 0x8000 else 0) + ((hi / 0x10_0000 - 1008) * 0x400 + hi / 0x400 % 0x400),
                            hi / 0x200 % 2, if hi % 0x200 == 0 && lo == 0 then 0 else 1))
  {
    var e, fh := hi / 0x10_0000, hi % 0x10_0000;
    FractionField(hi);
    GuardField(hi);
    StickyField(hi);
    NormalCase(e, fh, lo);
    var t := Scaled(0x10_0000_0000_0000 + fh * 0x1_0000_0000 + lo, e);
    assert Value(e, fh * 0x1_0000_0000 + lo) == t;
    RoundedCorrectly(mode, negative, t, (e - 1008) * 1024 + fh / 1024, fh / 512 % 2,
                     if fh % 512 == 0 && lo == 0 then 0 else 1);
  }

  /** The k low bits of x. */
  function LowBits(x: nat, k: nat): (r: nat)
    ensures r < Pow2(k)
  {
    ShrSplit(x, k);
    x - Shr(x, k) * Pow2(k)
  }

  lemma SplitTwice(w: nat, i: nat)
    ensures w == Shr(w, i + 1) * (2 * Pow2(i)) + Shr(w, i) % 2 * Pow2(i) + LowBits(w, i)
  {
    ShrAdd(w, i, 1);
    var k := Shr(w, i);
    assert k == Shr(w, i + 1) * 2 + k % 2;
    SplitProduct(Shr(w, i + 1), k % 2, Pow2(i));
  }

  lemma SplitProduct(k: nat, b: nat, p: nat)
    ensures (k * 2 + b) * p == k * (2 * p) + b * p
  {
  }

  lemma SmallShift(w: nat, i: nat)
    requires w < 0x20_0000 && i >= 10
    ensures Shr(w, i + 1) < 1024
  {
    ShrAdd(w, 11, i - 10);
    ShrBound(Shr(w, 11), i - 10);
    ShrSplit(w, 11);
    Constants();
  }

  /** The bits shifted out of w and the word lo below it, as one number. */
  lemma ShiftedOut(w: nat, c: nat, p: nat, g: nat, low: nat, lo: nat)
    requires w == c * (2 * p) + g * p + low && g <= 1 && low < p && lo < 0x1_0000_0000
    ensures
      var h, l := p * 0x1_0000_0000, (g * p + low) * 0x1_0000_0000 + lo;
      && w * 0x1_0000_0000 + lo == c * (2 * h) + l
      && l < 2 * h
      && (l >= h <==> g == 1)
      && (l == h || l == 0 <==> low == 0 && lo == 0)
  {
    assert c * (2 * p) * 0x1_0000_0000 == c * (2 * (p * 0x1_0000_0000));
    if g == 0 {
      assert g * p == 0;
    } else {
      assert g * p == p;
    }
  }

  lemma SmallCode(c: nat)
    requires c < 1024
    ensures Exponent(c) == 0 && Pow2(Exponent(c)) == 1 && Magnitude(c) == c * Pow2(Exponent(c))
  {
  }

  lemma SubnormalStep(e: nat, i: nat)
    requires e + i == 1018
    ensures Pow2(BIAS) == Pow2(i) * 0x1_0000_0000 * Pow2(e)
  {
    Constants();
    Pow2Add(i, 32);
    Pow2Add(i + 32, e);
  }

  /** A double in the range of subnormal halves: the significand, leading one included, is shifted out. */
  lemma SubnormalCase(e: nat, fh: nat, lo: nat, i: nat)
    requires 998 <= e <= 1008 && fh < 0x10_0000 && lo < 0x1_0000_0000 && i == 1018 - e
    ensures Bracket(Scaled(0x10_0000_0000_0000 + fh * 0x1_0000_0000 + lo, e), Shr(0x10_0000 + fh, i + 1),
                    Shr(0x10_0000 + fh, i) % 2, if LowBits(0x10_0000 + fh, i) == 0 && lo == 0 then 0 else 1)
  {
    var w := 0x10_0000 + fh;
    var c, g, low, p := Shr(w, i + 1), Shr(w, i) % 2, LowBits(w, i), Pow2(i);
    SplitTwice(w, i);
    ShiftedOut(w, c, p, g, low, lo);
    SmallShift(w, i);
    SmallCode(c);
    SubnormalStep(e, i);
    BracketBits(w * 0x1_0000_0000 + lo, Pow2(e), Pow2(BIAS), c, c,
                p * 0x1_0000_0000, (g * p + low) * 0x1_0000_0000 + lo);
  }

  lemma SubnormalCorrect(mode: Mode, negative: bool, e: nat, fh: nat, lo: nat, i: nat)
    requires 998 <= e <= 1008 && fh < 0x10_0000 && lo < 0x1_0000_0000 && i == 1018 - e
    ensures Correct(mode, negative, Value(e, fh * 0x1_0000_0000 + lo),
                    Rounded(mode, (if negative then 0x8000 else 0) + Shr(0x10_0000 + fh, i + 1),
                            Shr(0x10_0000 + fh, i) % 2, if LowBits(0x10_0000 + fh, i) == 0 && lo == 0 then 0 else 1))
  {
    SubnormalCase(e, fh, lo, i);
    var w, t := 0x10_0000 + fh, Scaled(0x10_0000_0000_0000 + fh * 0x1_0000_0000 + lo, e);
    assert Value(e, fh * 0x1_0000_0000 + lo) == t;
    RoundedCorrectly(mode, negative, t, Shr(w, i + 1), Shr(w, i) % 2, if LowBits(w, i) == 0 && lo == 0 then 0 else 1);
  }

  /** A significand and exponent above zero and below half the smallest half. */
  lemma TooSmall(m: nat, e: nat)
    requires 0 < m < 0x20_0000_0000_0000 && e <= 997
    ensures !AtMost(Scaled(m, e), 0) && !AtLeast(Scaled(m, e), 1)
  {
    Constants();
    Pow2Monotone(e, BIAS - 53);
    Pow2Add(53, BIAS - 53);
    ProductGrows(m, Pow2(53), Pow2(e));
    ProductGrows(0, m, Pow2(e));
    assert Pow2(53) * Pow2(e) <= Pow2(53) * Pow2(BIAS - 53);
  }

  lemma UnderflowCase(mode: Mode, negative: bool, e: nat, f: nat)
    requires e <= 997 && f < 0x10_0000_0000_0000 && (e > 0 || f > 0)
    ensures Correct(mode, negative, Value(e, f), Underflow(mode, if negative then 0x8000 else 0))
  {
    if e == 0 {
      TooSmall(f, 1);
    } else {
      TooSmall(0x10_0000_0000_0000 + f, e);
    }
    UnderflowCorrect(mode, negative, Value(e, f));
  }

  lemma ZeroCase(mode: Mode, negative: bool)
    ensures Correct(mode, negative, Value(0, 0), if negative then 0x8000 else 0)
  {
    RoundedCorrectly(mode, negative, Scaled(0, 1), 0, 0, 0);
  }

  lemma InfinityPoint()
    ensures Point(INFINITY) == Pow2(41)
  {
    Pow2Add(11, 30);
    assert Pow2(11) == 2048;
    assert Exponent(INFINITY) == 30;
  }

  lemma PowerReach(m: nat, a: nat, e: nat)
    requires m >= Pow2(a)
    ensures m * Pow2(e) >= Pow2(a + e)
  {
    Cancel(m, Pow2(a), Pow2(e));
    Pow2Add(a, e);
  }

  /** A significand and exponent of at least 2^16. */
  lemma TooLarge(m: nat, e: nat)
    requires 0x10_0000_0000_0000 <= m && 1039 <= e
    ensures m * Pow2(e) >= Pow2(41) * Pow2(BIAS)
  {
    Constants();
    PowerReach(m, 52, e);
    Pow2Monotone(41 + BIAS, 52 + e);
    Pow2Add(41, BIAS);
  }

  lemma OverflowCase(mode: Mode, negative: bool, e: nat, f: nat)
    requires 1039 <= e
    ensures Correct(mode, negative, Value(e, f), Overflow(mode, if negative then 0x8000 else 0))
  {
    InfinityPoint();
    TooLarge(0x10_0000_0000_0000 + f, e);
    OverflowCorrect(mode, negative, Value(e, f));
  }

  /** The two 32-bit words of a double, the upper one without the sign. */
  lemma Words(dbits: nat)
    requires dbits < 0x1_0000_0000_0000_0000
    ensures
      var hi, lo := dbits / 0x1_0000_0000 % 0x8000_0000, dbits % 0x1_0000_0000;
      && BiasedExponent(dbits) == hi / 0x10_0000
      && Fraction(dbits) == hi % 0x10_0000 * 0x1_0000_0000 + lo
      && Negative(dbits) == (dbits / 0x1_0000_0000 / 0x8000_0000 == 1)
  {
    var top, lo := dbits / 0x1_0000_0000, dbits % 0x1_0000_0000;
    var sign, e, fh := top / 0x8000_0000, top % 0x8000_0000 / 0x10_0000, top % 0x10_0000;
    assert top == (sign * 0x800 + e) * 0x10_0000 + fh;
    assert top % 0x8000_0000 == e * 0x10_0000 + fh;
    assert dbits == (sign * 0x800 + e) * 0x10_0000_0000_0000 + (fh * 0x1_0000_0000 + lo);
    assert dbits / 0x10_0000_0000_0000 == sign * 0x800 + e;
    assert dbits == sign * 0x8000_0000_0000_0000 + (e * 0x10_0000_0000_0000 + fh * 0x1_0000_0000 + lo);
    assert dbits / 0x8000_0000_0000_0000 == sign;
  }

  predicate IsNaN(h: nat) {
    h % 0x8000 > INFINITY
  }

  /**
   `float2half_impl`: a finite double becomes the half that rounding it correctly gives, an infinite one the infinity
   of its sign, and a NaN a quiet NaN of its sign.
   */
  method Float2Half(mode: Mode, dbits: nat) returns (h: nat)
    requires dbits < 0x1_0000_0000_0000_0000
    ensures BiasedExponent(dbits) < 0x7FF ==>
              Correct(mode, Negative(dbits), Value(BiasedExponent(dbits), Fraction(dbits)), h)
    ensures BiasedExponent(dbits) == 0x7FF && Fraction(dbits) == 0 ==>
              h == (if Negative(dbits) then 0x8000 else 0) + INFINITY
    ensures BiasedExponent(dbits) == 0x7FF && Fraction(dbits) != 0 ==>
              h < 0x1_0000 && IsNaN(h) && h / 0x200 % 2 == 1 && (h >= 0x8000 <==> Negative(dbits))
  {
    ghost var negative, e, f := Negative(dbits), BiasedExponent(dbits), Fraction(dbits);
    var hi, lo := dbits / 0x1_0000_0000, dbits % 0x1_0000_0000;
    var sign := if hi / 0x8000_0000 == 1 then 0x8000 else 0;
    hi := hi % 0x8000_0000;
    Words(dbits);
    if hi >= 0x7FF0_0000 {
      h := SpecialValue(sign, hi, dbits % 0x10_0000_0000_0000 != 0);
      return;
    }
    h := Finite(mode, negative, Value(e, f), sign, hi, lo);
  }

  /** The branch for infinity and NaN, whose payload keeps its top bits and becomes quiet. */
  method SpecialValue(sign: nat, hi: nat, nan: bool) returns (h: nat)
    requires sign == 0 || sign == 0x8000
    ensures !nan ==> h == sign + INFINITY
    ensures nan ==> h < 0x1_0000 && IsNaN(h) && h / 0x200 % 2 == 1 && (h >= 0x8000 <==> sign == 0x8000)
    ensures nan ==> h % 0x200 == hi / 0x400 % 0x200
  {
    var top := hi / 0x400 % 0x400;
    QuietTop(hi / 0x400, top, if top < 0x200 then 0x200 + top else top);
    h := sign + 0x7C00 + if !nan then 0 else if top < 0x200 then 0x200 + top else top;
  }

  /** The top ten bits of a fraction with the quiet bit set. */
  lemma QuietTop(n: nat, top: nat, quiet: nat)
    requires top == n % 0x400 && quiet == if top < 0x200 then 0x200 + top else top
    ensures 0x200 <= quiet < 0x400 && quiet % 0x200 == n % 0x200
  {
    assert n % 0x200 == top % 0x200 by {
      var q := n / 0x400;
      assert n == 2 * q * 0x200 + top;
    }
  }

  /** The branches for finite doubles. */
  method Finite(mode: Mode, ghost negative: bool, ghost t: Target, sign: nat, hi: nat, lo: nat) returns (h: nat)
    requires sign == if negative then 0x8000 else 0
    requires t == Value(hi / 0x10_0000, hi % 0x10_0000 * 0x1_0000_0000 + lo) && lo < 0x1_0000_0000
    requires hi < 0x7FF0_0000
    ensures Correct(mode, negative, t, h)
  {
    if hi >= 0x40F0_0000 {
      OverflowCase(mode, negative, hi / 0x10_0000, hi % 0x10_0000 * 0x1_0000_0000 + lo);
      h := Overflow(mode, sign);
    } else if hi >= 0x3F10_0000 {
      h := FromNormal(mode, negative, t, sign, hi, lo);
    } else if hi >= 0x3E60_0000 {
      h := FromSubnormal(mode, negative, t, sign, hi, lo);
    } else {
      h := FromTiny(mode, negative, t, sign, hi, lo);
    }
  }

  method FromNormal(mode: Mode, ghost negative: bool, ghost t: Target, sign: nat, hi: nat, lo: nat) returns (h: nat)
    requires sign == if negative then 0x8000 else 0
    requires t == Value(hi / 0x10_0000, hi % 0x10_0000 * 0x1_0000_0000 + lo) && lo < 0x1_0000_0000
    requires 0x3F10_0000 <= hi < 0x40F0_0000
    ensures Correct(mode, negative, t, h)
  {
    NormalCorrect(mode, negative, hi, lo);
    h := Rounded(mode, sign + ((hi / 0x10_0000 - 1008) * 0x400 + hi / 0x400 % 0x400),
                 hi / 0x200 % 2, if hi % 0x200 == 0 && lo == 0 then 0 else 1);
  }

  method FromSubnormal(mode: Mode, ghost negative: bool, ghost t: Target, sign: nat, hi: nat, lo: nat) returns (h: nat)
    requires sign == if negative then 0x8000 else 0
    requires t == Value(hi / 0x10_0000, hi % 0x10_0000 * 0x1_0000_0000 + lo) && lo < 0x1_0000_0000
    requires 0x3E60_0000 <= hi < 0x3F10_0000
    ensures Correct(mode, negative, t, h)
  {
    var i, w := 1018 - hi / 0x10_0000, hi % 0x10_0000 + 0x10_0000;
    SubnormalCorrect(mode, negative, hi / 0x10_0000, hi % 0x10_0000, lo, i);
    h := Rounded(mode, sign + Shr(w, i + 1), Shr(w, i) % 2, if LowBits(w, i) == 0 && lo == 0 then 0 else 1);
  }

  /** Zero, and what is too small for the guard bit. */
  method FromTiny(mode: Mode, ghost negative: bool, ghost t: Target, sign: nat, hi: nat, lo: nat) returns (h: nat)
    requires sign == if negative then 0x8000 else 0
    requires t == Value(hi / 0x10_0000, hi % 0x10_0000 * 0x1_0000_0000 + lo) && lo < 0x1_0000_0000
    requires hi < 0x3E60_0000
    ensures Correct(mode, negative, t, h)
  {
    if hi != 0 || lo != 0 {
      UnderflowCase(mode, negative, hi / 0x10_0000, hi % 0x10_0000 * 0x1_0000_0000 + lo);
      h := Underflow(mode, sign);
    } else {
      ZeroCase(mode, negative);
      h := sign;
    }
  }
}
