/** Square roots of half-precision numbers (`detail::sqrt` and `sqrt` of half.hpp). */
module HalfSqrt {
  import opened PowersOfTwo
  import opened HalfRounding

  /** The digits of the root above w are known: root is theirs, r the remainder and m carries root in place. */
  ghost predicate Partial(n: nat, root: nat, w: nat, m: nat, r: nat) {
    m == root * w && r + root * root == n && n < (root + w) * (root + w)
  }

  lemma DigitStep(n: nat, root: nat, v: nat, m: nat, r: nat)
    requires Partial(n, root, 2 * v, m, r)
    ensures r < m + v * v ==> Partial(n, root, v, m / 2, r)
    ensures r >= m + v * v ==> Partial(n, root + v, v, m / 2 + v * v, r - (m + v * v))
  {
    var a := root * v;
    assert m == 2 * a;
    assert (root + v) * (root + v) == root * root + 2 * a + v * v;
    assert (root + v) * v == a + v * v;
    assert root + v + v == root + 2 * v;
  }

  /** While bit is left, it is the square of half the width w. */
  ghost predicate Digit(bit: nat, w: nat, k: nat) {
    if bit == 0 then w == 1 else w == 2 * Pow2(k) && bit == Pow2(k) * Pow2(k)
  }

  lemma AllDigits(n: nat, root: nat, m: nat, r: nat)
    requires Partial(n, root, 1, m, r)
    ensures m * m + r == n < (m + 1) * (m + 1)
  {
    assert m == root;
  }

  /** The loop of `detail::sqrt`: the digit-by-digit integer square root of n and its remainder. */
  method Digits(f: nat, n: nat) returns (m: nat, r: nat)
    requires f % 2 == 0 && n < 4 * Pow2(f)
    ensures m * m + r == n < (m + 1) * (m + 1)
  {
    r, m := n, 0;
    var bit := Pow2(f);
    ghost var root: nat, w: nat, k: nat := 0, 2 * Pow2(f / 2), f / 2;
    WidestDigit(f, n);
    while bit != 0
      invariant Partial(n, root, w, m, r)
      invariant Digit(bit, w, k)
      decreases bit
    {
      ghost var v := Pow2(k);
      DigitStep(n, root, v, m, r);
      if r < m + bit {
        m := m / 2;
      } else {
        r := r - (m + bit);
        m := m / 2 + bit;
        root := root + v;
      }
      Quarter(bit, k);
      bit, w, k := bit / 4, v, if k > 0 then k - 1 else 0;
    }
    AllDigits(n, root, m, r);
  }

  /** `detail::sqrt<F>`: the radicand is shifted to make the exponent even; r is the remainder it leaves. */
  method FixedSqrt(f: nat, radicand: nat, exponent: int) returns (m: nat, r: nat, exp: int)
    requires f % 2 == 0 && radicand < 2 * Pow2(f)
    ensures exponent == 2 * exp + exponent % 2
    ensures m * m + r == radicand * (1 + exponent % 2) < (m + 1) * (m + 1)
  {
    var i := exponent % 2;
    r := if i == 1 then radicand * 2 else radicand;
    exp := (exponent - i) / 2;
    m, r := Digits(f, r);
  }

  lemma WidestDigit(f: nat, n: nat)
    requires f % 2 == 0 && n < 4 * Pow2(f)
    ensures Pow2(f) == Pow2(f / 2) * Pow2(f / 2)
    ensures Partial(n, 0, 2 * Pow2(f / 2), 0, n)
  {
    Pow2Add(f / 2, f / 2);
    var v := Pow2(f / 2);
    assert (2 * v) * (2 * v) == 4 * (v * v);
  }

  lemma Quarter(bit: nat, k: nat)
    requires bit == Pow2(k) * Pow2(k)
    ensures bit / 4 < bit && Digit(bit / 4, Pow2(k), if k > 0 then k - 1 else 0)
  {
    if k > 0 {
      var v := Pow2(k - 1);
      assert bit == 4 * (v * v) && v * v > 0;
    }
  }

  lemma Squares(m: nat, p: nat)
    ensures 2 * (m * p) * (2 * (m * p)) == 4 * (m * m) * (p * p)
    ensures (m * p + (m * p + p)) * (m * p + (m * p + p)) == (4 * (m * m) + 4 * m + 1) * (p * p)
    ensures 2 * (m * p + p) * (2 * (m * p + p)) == 4 * ((m + 1) * (m + 1)) * (p * p)
  {
    var a := m * p;
    assert a * a == m * m * (p * p) && a * p == m * (p * p);
    assert (a + (a + p)) * (a + (a + p)) == 4 * (a * a) + 4 * (a * p) + p * p;
    assert 2 * (a + p) * (2 * (a + p)) == 4 * (a * a) + 8 * (a * p) + 4 * (p * p);
    assert 4 * ((m + 1) * (m + 1)) * (p * p) == 4 * (m * m * (p * p)) + 8 * (m * (p * p)) + 4 * (p * p);
  }

  /** The root lies in the upper half of its gap exactly if the remainder exceeds it; it is never the midpoint. */
  lemma WithinRoot(n: nat, m: nat, r: nat, p: positive)
    requires m * m + r == n < (m + 1) * (m + 1)
    ensures Within(Root(4 * n * (p * p)), 2 * (m * p), m * p + (m * p + p), 2 * (m * p + p),
                   if r > m then 1 else 0, if r != 0 then 1 else 0)
  {
    var k: positive := p * p;
    Squares(m, p);
    WithinSquares(n, m, r, k);
    var lo, mid, hi := 2 * (m * p), m * p + (m * p + p), 2 * (m * p + p);
    assert lo * lo == 4 * (m * m) * k && mid * mid == (4 * (m * m) + 4 * m + 1) * k;
    assert hi * hi == 4 * ((m + 1) * (m + 1)) * k;
  }

  lemma WithinSquares(n: nat, m: nat, r: nat, k: positive)
    requires m * m + r == n < (m + 1) * (m + 1)
    ensures 4 * n * k >= 4 * (m * m) * k && (4 * n * k <= 4 * (m * m) * k <==> r == 0)
    ensures 4 * n * k < 4 * ((m + 1) * (m + 1)) * k
    ensures 4 * n * k >= (4 * (m * m) + 4 * m + 1) * k <==> r > m
    ensures r > m ==> 4 * n * k > (4 * (m * m) + 4 * m + 1) * k
  {
    Cancel(4 * n, 4 * (m * m), k);
    Cancel(4 * (m * m), 4 * n, k);
    Cancel(4 * n, 4 * (m * m) + 4 * m + 1, k);
    Cancel(4 * (m * m) + 4 * m + 1, 4 * n, k);
    Cancel(4 * n, 4 * ((m + 1) * (m + 1)), k);
  }

  lemma RootBracket(n: nat, m: nat, r: nat, x: nat)
    requires 1024 <= m < 2048 && 1 <= x <= 30 && m * m + r == n < (m + 1) * (m + 1)
    ensures Bracket(Root(4 * n * (Pow2(x - 1) * Pow2(x - 1))), x * 1024 + (m - 1024),
                    if r > m then 1 else 0, if r != 0 then 1 else 0)
  {
    var c, p := x * 1024 + (m - 1024), Pow2(x - 1);
    assert Exponent(c) == x - 1 && c % 1024 == m - 1024;
    NextMagnitude(c);
    WithinRoot(n, m, r, p);
  }

  /** The root of a 21- or 22-bit radicand has eleven bits. */
  lemma RootBits(n: nat, m: nat)
    requires 0x10_0000 <= n < 0x40_0000 && m * m <= n < (m + 1) * (m + 1)
    ensures 1024 <= m < 2048
  {
    if m + 1 < 1024 {
      SquareGrows(m + 1, 1024);
    } else if m > 2048 {
      SquareGrows(2048, m);
    }
  }

  /** What the normalised significand, shifted to an even exponent, has to do with the argument. */
  lemma Radicand(a: nat, sig: nat, exp: nat, x: nat)
    requires exp >= 6 && exp == 2 * x + exp % 2
    requires a * 0x400_0000 == sig * Pow2(exp + 10)
    ensures a * 0x400_0000 == 4 * (sig * 1024 * (1 + exp % 2)) * (Pow2(x - 1) * Pow2(x - 1))
  {
    var i := exp % 2;
    var q := Pow2(x - 1) * Pow2(x - 1);
    EvenPower(x, i);
    Replaced(a * 0x400_0000, sig, Pow2(exp + 10), 4096 * (1 + i) * q);
    RadicandShape(sig, i, q);
  }

  lemma Replaced(r: nat, a: nat, u: nat, v: nat)
    requires r == a * u && u == v
    ensures r == a * v
  {
  }

  lemma EvenPower(x: nat, i: nat)
    requires x >= 1 && i <= 1
    ensures Pow2(2 * x + i + 10) == 4096 * (1 + i) * (Pow2(x - 1) * Pow2(x - 1))
  {
    assert Pow2(12) == 4096 && Pow2(13) == 8192;
    Pow2Add(x - 1, x - 1);
    Pow2Add(12 + i, 2 * x - 2);
  }

  lemma RadicandShape(sig: nat, i: nat, q: nat)
    requires i <= 1
    ensures sig * (4096 * (1 + i) * q) == 4 * (sig * 1024 * (1 + i)) * q
  {
    var u := sig * q;
    assert sig * (4096 * q) == 4096 * u && sig * (8192 * q) == 8192 * u;
    assert 4096 * sig * q == 4096 * u && 8192 * sig * q == 8192 * u;
  }

  lemma Doublings(arg: nat, k: nat, j: nat)
    requires 0 < arg && arg * Pow2(k) < Pow2(j)
    ensures k < j
  {
    if k >= j {
      Pow2Monotone(j, k);
      Cancel(arg, 1, Pow2(k));
    }
  }

  lemma Pow26()
    ensures Pow2(26) == 0x400_0000 && Pow2(11) == 2048 && Pow2(10) == 1024
  {
    Pow2Add(13, 13);
    assert Pow2(13) == 8192;
  }

  lemma NormalPlaced(arg: nat)
    requires 1024 <= arg < 0x7C00
    ensures Magnitude(arg) * 0x400_0000 == (arg % 0x400 + 0x400) * Pow2(15 + arg / 0x400 + 10)
  {
    Pow26();
    var e, s := arg / 1024 - 1, arg % 1024 + 1024;
    Pow2Add(e, 26);
    assert s * Pow2(e) * 0x400_0000 == s * (Pow2(e) * 0x400_0000);
  }

  lemma SubnormalPlaced(arg: nat, k: nat)
    requires arg < 1024 && k <= 10
    ensures Magnitude(arg) * 0x400_0000 == arg * Pow2(k) * Pow2(26 - k)
  {
    Pow26();
    Pow2Add(k, 26 - k);
    assert arg * Pow2(k) * Pow2(26 - k) == arg * (Pow2(k) * Pow2(26 - k));
  }

  /** The loop of `sqrt`: doubles a subnormal until its leading one is in place. */
  method DoubleUp(arg: nat) returns (abs: nat, exp: nat)
    requires 0 < arg
    ensures exp <= 15 && abs >= 0x400 && abs == arg * Pow2(15 - exp)
    ensures arg >= 0x400 ==> exp == 15 && abs == arg
    ensures arg < 0x400 ==> 5 <= exp && abs < 0x800
  {
    abs, exp := arg, 15;
    while abs < 0x400
      invariant exp <= 15 && 0 < abs && (exp == 15 ==> abs == arg) && (exp < 15 ==> arg < 0x400 && abs < 0x800)
      invariant abs == arg * Pow2(15 - exp)
      decreases 0x400 - abs
    {
      Pow26();
      Doublings(arg, 15 - exp, 10);
      Doubled(arg, Pow2(15 - exp));
      abs, exp := abs * 2, exp - 1;
    }
    Pow26();
    if arg < 0x400 {
      Doublings(arg, 15 - exp, 11);
    }
  }

  lemma Doubled(a: nat, p: nat)
    ensures a * p * 2 == a * (2 * p)
  {
  }

  /** The significand with its leading one and the exponent that go into the root. */
  method Normalise(arg: nat) returns (abs: nat, exp: nat)
    requires 0 < arg < 0x7C00
    ensures 6 <= exp <= 45 && 1024 <= abs < 2048
    ensures Magnitude(arg) * 0x400_0000 == abs * Pow2(exp + 10)
  {
    abs, exp := DoubleUp(arg);
    if arg < 0x400 {
      SubnormalPlaced(arg, 15 - exp);
    } else {
      NormalPlaced(arg);
    }
    exp := exp + abs / 0x400;
    abs := abs % 0x400 + 0x400;
  }

  /** `sqrt`: NaN stays NaN, negative arguments are invalid, zeros and positive infinity are their own roots. */
  method Sqrt(mode: Mode, arg: nat) returns (h: nat)
    requires arg < 0x1_0000
    ensures 0 < arg < 0x7C00 ==> Correct(mode, false, Root(Magnitude(arg) * 0x400_0000), h)
    ensures arg % 0x8000 == 0 || arg == 0x7C00 ==> h == arg
    ensures arg % 0x8000 > 0x7C00 ==> h == arg - arg / 0x200 % 2 * 0x200 + 0x200
    ensures 0x8000 < arg <= 0xFC00 ==> h == 0x7FFF
  {
    if arg % 0x8000 == 0 || arg >= 0x7C00 {
      return if arg % 0x8000 > 0x7C00 then (if arg / 0x200 % 2 == 0 then arg + 0x200 else arg)
             else if arg > 0x8000 then 0x7FFF else arg;
    }
    h := PositiveRoot(mode, arg);
  }

  method PositiveRoot(mode: Mode, arg: nat) returns (h: nat)
    requires 0 < arg < 0x7C00
    ensures Correct(mode, false, Root(Magnitude(arg) * 0x400_0000), h)
  {
    var abs, exp := Normalise(arg);
    Pow20();
    var m, r, x := FixedSqrt(20, abs * 1024, exp);
    ghost var n := abs * 1024 * (1 + exp % 2);
    RootBits(n, m);
    ghost var square := Magnitude(arg) * 0x400_0000;
    Radicand(Magnitude(arg), abs, exp, x);
    assert square == 4 * n * (Pow2(x - 1) * Pow2(x - 1));
    h := FinishRoot(mode, n, m, r, x);
  }

  method FinishRoot(mode: Mode, ghost n: nat, m: nat, r: nat, x: nat) returns (h: nat)
    requires 1024 <= m < 2048 && 1 <= x <= 30 && m * m + r == n < (m + 1) * (m + 1)
    ensures Correct(mode, false, Root(4 * n * (Pow2(x - 1) * Pow2(x - 1))), h)
  {
    RootBracket(n, m, r, x);
    var c, g, s := x * 1024 + m % 1024, if r > m then 1 else 0, if r != 0 then 1 else 0;
    h := Rounded(mode, c, g, s);
    RoundedCorrectly(mode, false, Root(4 * n * (Pow2(x - 1) * Pow2(x - 1))), c, g, s);
  }

  lemma Pow20()
    ensures Pow2(20) == 0x10_0000
  {
    Pow2Add(10, 10);
    assert Pow2(10) == 1024;
  }
}
