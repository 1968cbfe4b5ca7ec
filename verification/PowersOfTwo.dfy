/** Powers of two, shifts and bitwise `or` on naturals. */
module PowersOfTwo {

  function Pow2(n: nat): (p: nat)
    ensures p > 0
  {
    if n == 0 then 1 else 2 * Pow2(n - 1)
  }

  ghost predicate IsPower(n: nat) {
    exists k: nat :: n == Pow2(k)
  }

  /** Right shift by k bits. */
  function Shr(x: nat, k: nat): nat {
    if k == 0 then x else Shr(x / 2, k - 1)
  }

  /** Bitwise or. */
  function Or(a: nat, b: nat): nat {
    if a == 0 && b == 0 then 0 else 2 * Or(a / 2, b / 2) + if a % 2 == 1 || b % 2 == 1 then 1 else 0
  }

  lemma {:induction false} Pow2Add(a: nat, b: nat)
    ensures Pow2(a + b) == Pow2(a) * Pow2(b)
  {
    if a > 0 {
      Pow2Add(a - 1, b);
      assert Pow2(a) * Pow2(b) == 2 * (Pow2(a - 1) * Pow2(b));
    }
  }

  lemma {:induction false} Pow2Monotone(a: nat, b: nat)
    requires a <= b
    ensures Pow2(a) <= Pow2(b)
  {
    if a < b {
      Pow2Monotone(a, b - 1);
    }
  }

  lemma {:induction false} ShrAdd(x: nat, a: nat, b: nat)
    ensures Shr(x, a + b) == Shr(Shr(x, a), b)
  {
    if a > 0 {
      ShrAdd(x / 2, a - 1, b);
    }
  }

  /** Shifting splits a number into a high part and a low part below 2^k. */
  lemma {:induction false} ShrSplit(x: nat, k: nat)
    ensures Shr(x, k) * Pow2(k) <= x < Shr(x, k) * Pow2(k) + Pow2(k)
  {
    if k > 0 {
      ShrSplit(x / 2, k - 1);
      var h, p := Shr(x, k), Pow2(k - 1);
      assert h * Pow2(k) == 2 * (h * p);
    }
  }

  /** Or works bit by bit, so it commutes with dropping low bits. */
  lemma {:induction false} OrShr(a: nat, b: nat, j: nat)
    ensures Shr(Or(a, b), j) == Or(Shr(a, j), Shr(b, j))
  {
    if j > 0 {
      OrShr(a / 2, b / 2, j - 1);
    }
  }

  lemma {:induction false} OrBound(a: nat, b: nat, k: nat)
    requires a < Pow2(k) && b < Pow2(k)
    ensures Or(a, b) < Pow2(k)
  {
    if k > 0 {
      OrBound(a / 2, b / 2, k - 1);
    }
  }

  /** Or with n low ones completes a number whose bits above these are all ones. */
  lemma {:induction false} OrLowOnes(a: nat, m: nat, n: nat)
    requires Shr(a, n) == Pow2(m) - 1
    ensures Or(a, Pow2(n) - 1) == Pow2(m + n) - 1
  {
    if n == 0 {
      OrZero(a);
    } else {
      OrLowOnes(a / 2, m, n - 1);
    }
  }

  lemma {:induction false} OrZero(a: nat)
    ensures Or(a, 0) == a
  {
    if a > 0 {
      OrZero(a / 2);
    }
  }

  lemma {:induction false} ShrOnes(m: nat, j: nat)
    requires j <= m
    ensures Shr(Pow2(m) - 1, j) == Pow2(m - j) - 1
  {
    if j > 0 {
      ShrOnes(m - 1, j - 1);
    }
  }

  lemma {:induction false} ShrBound(x: nat, k: nat)
    ensures Shr(x, k) <= x
  {
    if k > 0 {
      ShrBound(x / 2, k - 1);
    }
  }

  /** Bitwise and. */
  function And(a: nat, b: nat): nat {
    if a == 0 || b == 0 then 0 else 2 * And(a / 2, b / 2) + if a % 2 == 1 && b % 2 == 1 then 1 else 0
  }

  /** Masking with 2^k - 1 is the identity below 2^k, and 2^k itself becomes 0. */
  lemma {:induction false} AndMask(a: nat, k: nat)
    requires a <= Pow2(k)
    ensures And(a, Pow2(k) - 1) == if a == Pow2(k) then 0 else a
  {
    if k > 0 && a > 0 {
      var p := Pow2(k - 1);
      assert (2 * p - 1) / 2 == p - 1 && (2 * p - 1) % 2 == 1;
      AndMask(a / 2, k - 1);
      assert And(a, 2 * p - 1) == 2 * And(a / 2, p - 1) + a % 2;
    }
  }

  /** Exclusive or of the low n bits. */
  function XorBits(a: nat, b: nat, n: nat): (r: nat)
    ensures r < Pow2(n)
  {
    if n == 0 then 0 else 2 * XorBits(a / 2, b / 2, n - 1) + if a % 2 == b % 2 then 0 else 1
  }

  lemma {:induction false} XorBitsTwice(a: nat, b: nat, n: nat)
    requires a < Pow2(n)
    ensures XorBits(XorBits(a, b, n), b, n) == a
  {
    if n > 0 {
      XorBitsTwice(a / 2, b / 2, n - 1);
      var x := XorBits(a, b, n);
      assert x / 2 == XorBits(a / 2, b / 2, n - 1) && x % 2 == if a % 2 == b % 2 then 0 else 1;
    }
  }

  /** Bit k of x. */
  function Bit(x: nat, k: nat): nat {
    Shr(x, k) % 2
  }

  /** Each of the low n bits is the sum of the two bits without carry. */
  lemma {:induction false} XorBitsAt(a: nat, b: nat, n: nat, k: nat)
    requires k < n
    ensures Bit(XorBits(a, b, n), k) == (Bit(a, k) + Bit(b, k)) % 2
  {
    var x, half := XorBits(a, b, n), XorBits(a / 2, b / 2, n - 1);
    assert x / 2 == half && x % 2 == if a % 2 == b % 2 then 0 else 1;
    if k > 0 {
      XorBitsAt(a / 2, b / 2, n - 1, k - 1);
      assert Shr(x, k) == Shr(half, k - 1);
    }
  }
}
