/**
 Half-precision numbers and correct rounding in the sense of section 4.3 of IEEE 754-2019.
 Magnitudes are measured in units of 2^-24, the smallest positive half; points on the number line, in units of
 2^-25, so that the midpoint of two halves is a whole number too.
 */
module HalfRounding {
  import opened PowersOfTwo

  /** The code of infinity; the codes below it are the finite magnitudes in ascending order. */
  const INFINITY: nat := 0x7C00

  datatype Mode = Nearest | TowardZero | Up | Down

  function Exponent(c: nat): nat {
    if c < 1024 then 0 else c / 1024 - 1
  }

  /**
   The magnitude with code c, in units of 2^-24; for the code of infinity, the number 2^16 that would follow
   the largest half if the exponent range went on.
   */
  function Magnitude(c: nat): nat {
    if c < 1024 then c else (1024 + c % 1024) * Pow2(Exponent(c))
  }

  /** Consecutive magnitudes differ by one unit in the last place, also where the exponent changes. */
  lemma NextMagnitude(c: nat)
    ensures Magnitude(c + 1) == Magnitude(c) + Pow2(Exponent(c))
  {
    var p := Pow2(Exponent(c));
    if c < 1024 {
    } else if c % 1024 < 1023 {
      assert (c + 1) / 1024 == c / 1024 && (c + 1) % 1024 == c % 1024 + 1;
      assert (1024 + c % 1024 + 1) * p == (1024 + c % 1024) * p + p;
    } else {
      assert (c + 1) / 1024 == c / 1024 + 1 && (c + 1) % 1024 == 0;
      assert (1024 + 1023) * p + p == 1024 * (2 * p);
    }
  }

  lemma {:induction false} MagnitudeGrows(c: nat, c': nat)
    requires c < c'
    ensures Magnitude(c) < Magnitude(c')
    decreases c'
  {
    NextMagnitude(c' - 1);
    if c < c' - 1 {
      MagnitudeGrows(c, c' - 1);
    }
  }

  type positive = n: nat | n > 0 witness 1

  /** The number to be rounded, in units of 2^-25: a fraction, or the square root of a natural number. */
  datatype Target = Exact(numerator: nat, denominator: positive) | Root(square: nat)

  predicate AtLeast(t: Target, q: nat) {
    match t
    case Exact(n, d) => n >= q * d
    case Root(n) => n >= q * q
  }

  predicate AtMost(t: Target, q: nat) {
    match t
    case Exact(n, d) => n <= q * d
    case Root(n) => n <= q * q
  }

  lemma ProductGrows(a: nat, b: nat, k: positive)
    requires a < b
    ensures a * k < b * k
  {
    assert (b - a) * k > 0;
  }

  lemma Cancel(x: nat, y: nat, k: positive)
    ensures x * k >= y * k <==> x >= y
  {
    if x < y {
      ProductGrows(x, y, k);
    } else {
      assert (x - y) * k >= 0;
    }
  }

  lemma SquareGrows(a: nat, b: nat)
    requires a < b
    ensures a * a < b * b
  {
    ProductGrows(a, b, b);
    assert a * a <= a * b;
  }

  /** A target that reaches a point lies above every smaller point, and one that does not pass it below every larger. */
  lemma CutMonotone(t: Target, q: nat, q': nat)
    requires q < q'
    ensures AtLeast(t, q') ==> AtLeast(t, q) && !AtMost(t, q)
    ensures AtMost(t, q) ==> AtMost(t, q') && !AtLeast(t, q')
    ensures AtLeast(t, q) || AtMost(t, q)
    ensures AtLeast(t, q') || AtMost(t, q')
  {
    match t
    case Exact(n, d) => ProductGrows(q, q', d);
    case Root(n) => SquareGrows(q, q');
  }

  /** The point of the magnitude with code c. */
  function Point(c: nat): nat {
    2 * Magnitude(c)
  }

  function Mid(c: nat, c': nat): nat {
    Magnitude(c) + Magnitude(c')
  }

  /** The largest finite magnitude not above the target. */
  ghost predicate IsTruncation(t: Target, c: nat) {
    && c < INFINITY && AtLeast(t, Point(c))
    && forall c': nat | c' < INFINITY && AtLeast(t, Point(c')) :: c' <= c
  }

  /** The smallest finite magnitude not below the target, or infinity if there is none. */
  ghost predicate IsAway(t: Target, c: nat) {
    && c <= INFINITY && (c < INFINITY ==> AtMost(t, Point(c)))
    && forall c': nat | c' < INFINITY && AtMost(t, Point(c')) :: c <= c'
  }

  /** c is at least as near to the target as c', and nearer unless its code is even. */
  ghost predicate Preferred(t: Target, c: nat, c': nat) {
    if c < c' then AtMost(t, Mid(c, c')) && (AtLeast(t, Mid(c, c')) ==> c % 2 == 0)
    else if c' < c then AtLeast(t, Mid(c', c)) && (AtMost(t, Mid(c', c)) ==> c % 2 == 0)
    else true
  }

  /** No other magnitude is nearer, and at equal distance the code is even. */
  ghost predicate IsNearest(t: Target, c: nat) {
    c <= INFINITY && forall c': nat | c' <= INFINITY :: Preferred(t, c, c')
  }

  /** `detail::rounded`: value is sign and truncated magnitude, g the guard bit, s the sticky bit. */
  function Rounded(mode: Mode, value: nat, g: nat, s: nat): nat {
    match mode
    case Nearest => value + if g == 1 && (s == 1 || value % 2 == 1) then 1 else 0
    case TowardZero => value
    case Up => value + if value < 0x8000 && (g == 1 || s == 1) then 1 else 0
    case Down => value + if value >= 0x8000 && (g == 1 || s == 1) then 1 else 0
  }

  /** `detail::overflow`. */
  function Overflow(mode: Mode, sign: nat): nat {
    match mode
    case Up => if sign == 0 then 0x7C00 else sign + 0x7C00 - 1
    case Down => if sign == 0 then 0x7BFF else sign + 0x7BFF + 1
    case TowardZero => sign + 0x7BFF
    case Nearest => sign + 0x7C00
  }

  /** `detail::underflow`. */
  function Underflow(mode: Mode, sign: nat): nat {
    match mode
    case Up => if sign == 0 then 1 else sign
    case Down => if sign == 0 then 0 else sign + 1
    case TowardZero => sign
    case Nearest => sign
  }

  /** The guard bit tells on which side of mid the target is, the sticky bit whether it is strictly inside its half. */
  ghost predicate Within(t: Target, lo: nat, mid: nat, hi: nat, g: nat, s: nat) {
    && g <= 1 && s <= 1
    && AtLeast(t, lo) && !AtLeast(t, hi)
    && (g == 1 <==> AtLeast(t, mid))
    && (s == 0 <==> AtMost(t, if g == 1 then mid else lo))
  }

  /** c is the target truncated, g and s are the guard and sticky bit of what was cut off. */
  ghost predicate Bracket(t: Target, c: nat, g: nat, s: nat) {
    c < INFINITY && Within(t, Point(c), Mid(c, c + 1), Point(c + 1), g, s)
  }

  lemma Codes(t: Target, c: nat)
    requires AtLeast(t, Point(c)) && !AtLeast(t, Point(c + 1))
    ensures forall c': nat | AtLeast(t, Point(c')) :: c' <= c
    ensures forall c': nat | c' < c :: !AtMost(t, Point(c'))
    ensures forall c': nat | c < c' :: AtMost(t, Point(c'))
  {
    forall c': nat | c < c' ensures !AtLeast(t, Point(c')) && AtMost(t, Point(c')) {
      if c + 1 < c' {
        MagnitudeGrows(c + 1, c');
        CutMonotone(t, Point(c + 1), Point(c'));
      } else {
        CutMonotone(t, Point(c'), Point(c') + 1);
      }
    }
    forall c': nat | c' < c ensures !AtMost(t, Point(c')) {
      MagnitudeGrows(c', c);
      CutMonotone(t, Point(c'), Point(c));
    }
  }

  lemma TruncationOk(t: Target, c: nat, g: nat, s: nat)
    requires Bracket(t, c, g, s)
    ensures IsTruncation(t, c)
  {
    Codes(t, c);
  }

  lemma AwayOk(t: Target, c: nat, g: nat, s: nat)
    requires Bracket(t, c, g, s)
    ensures IsAway(t, if g == 1 || s == 1 then c + 1 else c)
  {
    Codes(t, c);
    NextMagnitude(c);
    CutMonotone(t, Point(c), Mid(c, c + 1));
  }

  lemma PreferredBelow(t: Target, c: nat, c': nat)
    requires AtLeast(t, Point(c)) && c' < c
    ensures Preferred(t, c, c')
  {
    MagnitudeGrows(c', c);
    CutMonotone(t, Mid(c', c), Point(c));
  }

  /** Up to the midpoint between c and its successor, the target is nearer to c than to any code above these. */
  lemma PreferredAbove(t: Target, c: nat, c': nat)
    requires AtMost(t, Mid(c, c + 1)) && c + 1 < c'
    ensures Preferred(t, c, c')
  {
    MagnitudeGrows(c + 1, c');
    CutMonotone(t, Mid(c, c + 1), Mid(c, c'));
  }

  lemma NearestDown(t: Target, c: nat, g: nat, s: nat)
    requires Bracket(t, c, g, s) && (g == 0 || (s == 0 && c % 2 == 0))
    ensures IsNearest(t, c)
  {
    CutMonotone(t, Mid(c, c + 1), Mid(c, c + 1) + 1);
    forall c': nat | c' <= INFINITY ensures Preferred(t, c, c') {
      if c' < c {
        PreferredBelow(t, c, c');
      } else if c + 1 < c' {
        PreferredAbove(t, c, c');
      }
    }
  }

  lemma NearestUpBelow(t: Target, c: nat, c': nat)
    requires AtLeast(t, Mid(c, c + 1)) && c' < c
    ensures Preferred(t, c + 1, c')
  {
    MagnitudeGrows(c', c);
    CutMonotone(t, Mid(c', c + 1), Mid(c, c + 1));
  }

  lemma NearestUp(t: Target, c: nat, g: nat, s: nat)
    requires Bracket(t, c, g, s) && g == 1 && (s == 1 || c % 2 == 1)
    ensures IsNearest(t, c + 1)
  {
    var d := c + 1;
    assert AtMost(t, Mid(d, d + 1)) && !AtLeast(t, Mid(d, d + 1)) by {
      MagnitudeGrows(d, d + 1);
      CutMonotone(t, Point(d), Mid(d, d + 1));
    }
    assert Preferred(t, d, c);
    forall c': nat | c' <= INFINITY ensures Preferred(t, d, c') {
      if c' < c {
        NearestUpBelow(t, c, c');
      } else if d + 1 < c' {
        PreferredAbove(t, d, c');
      }
    }
  }

  ghost predicate CorrectMagnitude(mode: Mode, negative: bool, t: Target, c: nat) {
    match mode
    case Nearest => IsNearest(t, c)
    case TowardZero => IsTruncation(t, c)
    case Up => if negative then IsTruncation(t, c) else IsAway(t, c)
    case Down => if negative then IsAway(t, c) else IsTruncation(t, c)
  }

  /** r is the sign and the correctly rounded magnitude. */
  ghost predicate Correct(mode: Mode, negative: bool, t: Target, r: nat) {
    if negative then r >= 0x8000 && CorrectMagnitude(mode, negative, t, r - 0x8000)
    else CorrectMagnitude(mode, negative, t, r)
  }

  /** Whether the mode takes the magnitude one up. */
  predicate RoundsUp(mode: Mode, negative: bool, c: nat, g: nat, s: nat) {
    match mode
    case Nearest => g == 1 && (s == 1 || c % 2 == 1)
    case TowardZero => false
    case Up => !negative && (g == 1 || s == 1)
    case Down => negative && (g == 1 || s == 1)
  }

  lemma RoundedIs(mode: Mode, negative: bool, c: nat, g: nat, s: nat)
    requires c < INFINITY
    ensures
      var sign := if negative then 0x8000 else 0;
      Rounded(mode, sign + c, g, s) == sign + if RoundsUp(mode, negative, c, g, s) then c + 1 else c
  {
  }

  lemma RoundedMagnitude(mode: Mode, negative: bool, t: Target, c: nat, g: nat, s: nat)
    requires Bracket(t, c, g, s)
    ensures CorrectMagnitude(mode, negative, t, if RoundsUp(mode, negative, c, g, s) then c + 1 else c)
  {
    if mode.Nearest? && RoundsUp(mode, negative, c, g, s) {
      NearestUp(t, c, g, s);
    } else if mode.Nearest? {
      NearestDown(t, c, g, s);
    } else {
      TruncationOk(t, c, g, s);
      AwayOk(t, c, g, s);
    }
  }

  /** Guard and sticky bit determine the correctly rounded result in every mode, carries into the exponent included. */
  lemma RoundedCorrectly(mode: Mode, negative: bool, t: Target, c: nat, g: nat, s: nat)
    requires Bracket(t, c, g, s)
    ensures Correct(mode, negative, t, Rounded(mode, (if negative then 0x8000 else 0) + c, g, s))
  {
    RoundedIs(mode, negative, c, g, s);
    RoundedMagnitude(mode, negative, t, c, g, s);
  }

  /** A number that is a half already is its own rounding in every mode. */
  lemma RepresentableUnchanged(mode: Mode, negative: bool, t: Target, c: nat)
    requires c < INFINITY && AtLeast(t, Point(c)) && AtMost(t, Point(c))
    ensures Correct(mode, negative, t, (if negative then 0x8000 else 0) + c)
  {
    NextMagnitude(c);
    CutMonotone(t, Point(c), Mid(c, c + 1));
    CutMonotone(t, Point(c), Point(c + 1));
    RoundedCorrectly(mode, negative, t, c, 0, 0);
  }

  /** A target at 2^16 or beyond overflows to infinity or the largest half as the mode demands. */
  lemma OverflowCorrect(mode: Mode, negative: bool, t: Target)
    requires AtLeast(t, Point(INFINITY))
    ensures Correct(mode, negative, t, Overflow(mode, if negative then 0x8000 else 0))
  {
    forall c: nat | c < INFINITY
      ensures AtLeast(t, Point(c)) && !AtMost(t, Point(c)) && Preferred(t, INFINITY, c)
    {
      MagnitudeGrows(c, INFINITY);
      CutMonotone(t, Point(c), Point(INFINITY));
      PreferredBelow(t, INFINITY, c);
    }
  }

  /** A target strictly between 0 and half the smallest half underflows correctly. */
  lemma UnderflowCorrect(mode: Mode, negative: bool, t: Target)
    requires !AtMost(t, 0) && !AtLeast(t, 1)
    ensures Correct(mode, negative, t, Underflow(mode, if negative then 0x8000 else 0))
  {
    NextMagnitude(0);
    CutMonotone(t, 0, 1);
    CutMonotone(t, 1, 2);
    RoundedCorrectly(mode, negative, t, 0, 0, 1);
  }

  /** At every target and mode there is one correct result only. */
  lemma CorrectUnique(mode: Mode, negative: bool, t: Target, r: nat, r': nat)
    requires Correct(mode, negative, t, r) && Correct(mode, negative, t, r')
    ensures r == r'
  {
    var sign := if negative then 0x8000 else 0;
    var c, c' := r - sign, r' - sign;
    if c < c' && mode.Nearest? {
      NearestOnce(t, c, c');
    } else if c' < c && mode.Nearest? {
      NearestOnce(t, c', c);
    }
  }

  lemma NearestOnce(t: Target, a: nat, b: nat)
    requires a < b <= INFINITY && IsNearest(t, a)
    ensures !IsNearest(t, b)
  {
    assert Preferred(t, a, b) && Preferred(t, a, a + 1);
    if AtLeast(t, Mid(a, b)) && a + 1 < b {
      MagnitudeGrows(a + 1, b);
      CutMonotone(t, Mid(a, a + 1), Mid(a, b));
    }
    assert !Preferred(t, b, a);
  }
}
