/**
 * Non-negative integers as bit strings, the way Python's unbounded `int`
 * behaves under `^`, `|`, `<<`, `bit_length()` and `bit_count()`.
 * Bit j of x is the coefficient of 2^j in the binary expansion of x.
 */
module Bits {

  function Pow2(k: nat): (p: nat)
    ensures p >= 1
  {
    if k == 0 then 1 else 2 * Pow2(k - 1)
  }

  /** The powers of two the 23- and 24-bit Golay words use. */
  lemma Pow2Values()
    ensures Pow2(11) == 0x800 && Pow2(12) == 0x1000
    ensures Pow2(23) == 0x80_0000 && Pow2(24) == 0x100_0000
  {
    assert Pow2(4) == 16;
    assert Pow2(8) == 256;
    assert Pow2(11) == 0x800;
    assert Pow2(12) == 0x1000;
    assert Pow2(16) == 0x1_0000;
    assert Pow2(20) == 0x10_0000;
    assert Pow2(23) == 0x80_0000;
  }

  /** `a << k`. */
  function ShiftLeft(a: nat, k: nat): nat
  {
    a * Pow2(k)
  }

  /** Bit j of x (Python: `(x >> j) & 1 == 1`). */
  predicate Bit(x: nat, j: nat)
  {
    if j == 0 then x % 2 == 1 else Bit(x / 2, j - 1)
  }

  /** Python's `a ^ b` on non-negative integers. */
  function Xor(a: nat, b: nat): nat
    decreases a + b
  {
    if a == 0 && b == 0 then 0
    else 2 * Xor(a / 2, b / 2) + (if a % 2 != b % 2 then 1 else 0)
  }

  /** Bitwise and of non-negative integers. */
  function And(a: nat, b: nat): nat
    decreases a + b
  {
    if a == 0 && b == 0 then 0
    else 2 * And(a / 2, b / 2) + (if a % 2 == 1 && b % 2 == 1 then 1 else 0)
  }

  /** Python's `a | b` on non-negative integers. */
  function Or(a: nat, b: nat): nat
    decreases a + b
  {
    if a == 0 && b == 0 then 0
    else 2 * Or(a / 2, b / 2) + (if a % 2 == 1 || b % 2 == 1 then 1 else 0)
  }

  /** Python's `x.bit_length()`. */
  function BitLength(x: nat): nat
  {
    if x == 0 then 0 else 1 + BitLength(x / 2)
  }

  /** Python's `x.bit_count()`. */
  function Popcount(x: nat): nat
  {
    if x == 0 then 0 else x % 2 + Popcount(x / 2)
  }

  function Ind(b: bool): nat
  {
    if b then 1 else 0
  }

  /** Number of set bits among bits 0 .. n-1. */
  function BitSum(x: nat, n: nat): nat
  {
    if n == 0 then 0 else BitSum(x, n - 1) + Ind(Bit(x, n - 1))
  }

  // ---------------------------------------------------------------------
  // Pointwise characterisations

  lemma {:induction false} ZeroBit(j: nat)
    ensures !Bit(0, j)
  {
    if j > 0 {
      ZeroBit(j - 1);
    }
  }

  lemma {:induction false} XorBit(a: nat, b: nat, j: nat)
    ensures Bit(Xor(a, b), j) == (Bit(a, j) != Bit(b, j))
    decreases j
  {
    XorHalf(a, b);
    if j > 0 {
      XorBit(a / 2, b / 2, j - 1);
    }
  }

  /** The lowest bit of a ^ b and the XOR of the remaining bits. */
  lemma XorHalf(a: nat, b: nat)
    ensures Xor(a, b) / 2 == Xor(a / 2, b / 2)
    ensures (Xor(a, b) % 2 == 1) == (a % 2 != b % 2)
  {
    if a != 0 || b != 0 {
      var x, e := Xor(a / 2, b / 2), if a % 2 != b % 2 then 1 else 0;
      assert Xor(a, b) == 2 * x + e;
      HalfOf(Xor(a, b), x, e);
    }
  }


  lemma {:induction false} OrBit(a: nat, b: nat, j: nat)
    ensures Bit(Or(a, b), j) == (Bit(a, j) || Bit(b, j))
    decreases j
  {
    OrHalf(a, b);
    if j > 0 {
      OrBit(a / 2, b / 2, j - 1);
    }
  }

  /** The lowest bit of a | b and the OR of the remaining bits. */
  lemma OrHalf(a: nat, b: nat)
    ensures Or(a, b) / 2 == Or(a / 2, b / 2)
    ensures (Or(a, b) % 2 == 1) == (a % 2 == 1 || b % 2 == 1)
  {
    if a != 0 || b != 0 {
      var x, e := Or(a / 2, b / 2), if a % 2 == 1 || b % 2 == 1 then 1 else 0;
      assert Or(a, b) == 2 * x + e;
      HalfOf(Or(a, b), x, e);
    }
  }

  /** Halving 2x + e gives x, with remainder e. */
  lemma HalfOf(y: nat, x: nat, e: nat)
    requires e < 2 && y == 2 * x + e
    ensures y / 2 == x && y % 2 == e
  {
  }

  /** Bits of `a << k`. */
  lemma {:induction false} ShiftBit(a: nat, k: nat, j: nat)
    ensures Bit(a * Pow2(k), j) == (k <= j && Bit(a, j - k))
    decreases k
  {
    if k > 0 {
      var y := a * Pow2(k - 1);
      assert a * Pow2(k) == 2 * y;
      if j > 0 {
        assert (2 * y) / 2 == y;
        ShiftBit(a, k - 1, j - 1);
      }
    }
  }

  lemma BitPow2(k: nat, j: nat)
    ensures Bit(Pow2(k), j) == (j == k)
  {
    ShiftBit(1, k, j);
    if j > k {
      ZeroBit(j - k - 1);
    }
  }

  /** Two integers with the same bits are equal. */
  lemma {:induction false} BitsEqual(a: nat, b: nat)
    requires forall j: nat :: Bit(a, j) == Bit(b, j)
    ensures a == b
    decreases a + b
  {
    if a != 0 || b != 0 {
      assert Bit(a, 0) == Bit(b, 0);
      forall j: nat
        ensures Bit(a / 2, j) == Bit(b / 2, j)
      {
        assert Bit(a, j + 1) == Bit(b, j + 1);
      }
      BitsEqual(a / 2, b / 2);
    }
  }

  lemma {:induction false} TopBit(x: nat)
    requires x > 0
    ensures Bit(x, BitLength(x) - 1)
  {
    if x >= 2 {
      TopBit(x / 2);
    }
  }

  lemma {:induction false} HighBitsClear(x: nat, n: nat)
    requires x < Pow2(n)
    ensures forall j: nat :: n <= j ==> !Bit(x, j)
    decreases n
  {
    if n == 0 {
      forall j: nat
        ensures !Bit(0, j)
      {
        ZeroBit(j);
      }
    } else {
      HighBitsClear(x / 2, n - 1);
      forall j: nat | n <= j
        ensures !Bit(x, j)
      {
        assert Bit(x, j) == Bit(x / 2, j - 1);
      }
    }
  }

  lemma {:induction false} BoundFromBits(x: nat, n: nat)
    requires forall j: nat :: n <= j ==> !Bit(x, j)
    ensures x < Pow2(n)
    decreases n
  {
    if n == 0 {
      if x > 0 {
        TopBit(x);
      }
    } else {
      forall j: nat | n - 1 <= j
        ensures !Bit(x / 2, j)
      {
        assert Bit(x / 2, j) == Bit(x, j + 1);
      }
      BoundFromBits(x / 2, n - 1);
    }
  }

  /** `x.bit_length() <= n` exactly when x < 2^n. */
  lemma {:induction false} BitLengthBound(x: nat, n: nat)
    ensures BitLength(x) <= n <==> x < Pow2(n)
    decreases n
  {
    if n > 0 && x > 0 {
      BitLengthBound(x / 2, n - 1);
    }
  }

  /** A word whose bits from n up are clear is at most n bits long. */
  lemma LengthFromClearBits(x: nat, n: nat)
    requires forall j: nat :: n <= j ==> !Bit(x, j)
    ensures BitLength(x) <= n
  {
    BoundFromBits(x, n);
    BitLengthBound(x, n);
  }

  /** No bit at or above the bit length is set. */
  lemma AboveLength(x: nat, j: nat)
    requires BitLength(x) <= j
    ensures !Bit(x, j)
  {
    BitLengthBound(x, BitLength(x));
    HighBitsClear(x, BitLength(x));
  }

  /** The bit length is the position of the highest set bit, plus one. */
  lemma BitLengthFromBits(x: nat, n: nat)
    requires n > 0 && Bit(x, n - 1)
    requires forall j: nat :: n <= j ==> !Bit(x, j)
    ensures BitLength(x) == n
  {
    BoundFromBits(x, n);
    BitLengthBound(x, n);
    if BitLength(x) < n {
      BitLengthBound(x, n - 1);
      HighBitsClear(x, n - 1);
    }
  }

  // ---------------------------------------------------------------------
  // Exclusive-or algebra

  lemma XorComm(a: nat, b: nat)
    ensures Xor(a, b) == Xor(b, a)
  {
    forall j: nat
      ensures Bit(Xor(a, b), j) == Bit(Xor(b, a), j)
    {
      XorBit(a, b, j);
      XorBit(b, a, j);
    }
    BitsEqual(Xor(a, b), Xor(b, a));
  }

  lemma XorAssoc(a: nat, b: nat, c: nat)
    ensures Xor(Xor(a, b), c) == Xor(a, Xor(b, c))
  {
    forall j: nat
      ensures Bit(Xor(Xor(a, b), c), j) == Bit(Xor(a, Xor(b, c)), j)
    {
      XorBit(Xor(a, b), c, j);
      XorBit(a, b, j);
      XorBit(a, Xor(b, c), j);
      XorBit(b, c, j);
    }
    BitsEqual(Xor(Xor(a, b), c), Xor(a, Xor(b, c)));
  }

  lemma XorZero(a: nat)
    ensures Xor(a, 0) == a && Xor(0, a) == a
  {
    forall j: nat
      ensures Bit(Xor(a, 0), j) == Bit(a, j) && Bit(Xor(0, a), j) == Bit(a, j)
    {
      XorBit(a, 0, j);
      XorBit(0, a, j);
      ZeroBit(j);
    }
    BitsEqual(Xor(a, 0), a);
    BitsEqual(Xor(0, a), a);
  }

  lemma XorSelf(a: nat)
    ensures Xor(a, a) == 0
  {
    forall j: nat
      ensures Bit(Xor(a, a), j) == Bit(0, j)
    {
      XorBit(a, a, j);
      ZeroBit(j);
    }
    BitsEqual(Xor(a, a), 0);
  }

  /** x ^ y == 0 only when x == y. */
  lemma XorZeroIff(a: nat, b: nat)
    ensures Xor(a, b) == 0 <==> a == b
  {
    if Xor(a, b) == 0 {
      forall j: nat
        ensures Bit(a, j) == Bit(b, j)
      {
        XorBit(a, b, j);
        ZeroBit(j);
      }
      BitsEqual(a, b);
    } else if a == b {
      XorSelf(a);
    }
  }

  /** Shifting distributes over exclusive-or: (a ^ b) << k == (a << k) ^ (b << k). */
  lemma ShiftXor(a: nat, b: nat, k: nat)
    ensures Xor(a, b) * Pow2(k) == Xor(a * Pow2(k), b * Pow2(k))
  {
    var x, y := Xor(a, b) * Pow2(k), Xor(a * Pow2(k), b * Pow2(k));
    forall j: nat
      ensures Bit(x, j) == Bit(y, j)
    {
      ShiftXorBit(a, b, k, j);
    }
    BitsEqual(x, y);
  }

  lemma ShiftXorBit(a: nat, b: nat, k: nat, j: nat)
    ensures Bit(Xor(a, b) * Pow2(k), j) == Bit(Xor(a * Pow2(k), b * Pow2(k)), j)
  {
    ShiftBit(Xor(a, b), k, j);
    XorBit(a * Pow2(k), b * Pow2(k), j);
    ShiftBit(a, k, j);
    ShiftBit(b, k, j);
    if k <= j {
      XorBit(a, b, j - k);
    }
  }

  lemma XorBelow(a: nat, b: nat, n: nat)
    requires a < Pow2(n) && b < Pow2(n)
    ensures Xor(a, b) < Pow2(n)
  {
    HighBitsClear(a, n);
    HighBitsClear(b, n);
    forall j: nat | n <= j
      ensures !Bit(Xor(a, b), j)
    {
      XorBit(a, b, j);
    }
    BoundFromBits(Xor(a, b), n);
  }

  /** Below 2^n, `c | (1 << n)` adds 2^n. */
  lemma {:induction false} OrHighBit(c: nat, n: nat)
    requires c < Pow2(n)
    ensures Or(c, Pow2(n)) == c + Pow2(n)
    decreases n
  {
    if n > 0 {
      OrHighBit(c / 2, n - 1);
    }
  }

  // ---------------------------------------------------------------------
  // Population count

  lemma {:induction false} PopcountZero(x: nat)
    ensures Popcount(x) == 0 <==> x == 0
  {
    if x > 0 && x % 2 == 0 {
      PopcountZero(x / 2);
    }
  }

  lemma PopcountDouble(y: nat, x: nat, e: nat)
    requires e < 2 && y == 2 * x + e
    ensures Popcount(y) == e + Popcount(x)
  {
    if y != 0 {
      HalfOf(y, x, e);
    }
  }

  /** One step of the recursion behind `(a ^ b).bit_count()`. */
  lemma PopcountXorStep(a: nat, b: nat)
    ensures Popcount(Xor(a, b)) == Ind(a % 2 != b % 2) + Popcount(Xor(a / 2, b / 2))
  {
    if a != 0 || b != 0 {
      PopcountDouble(Xor(a, b), Xor(a / 2, b / 2), Ind(a % 2 != b % 2));
    }
  }

  lemma HighBitStep(c: nat, x: nat, q: nat, h: nat, e: nat)
    requires e < 2 && c == 2 * q + e && x == 2 * (q + h) + e
    requires Popcount(q + h) == Popcount(q) + 1
    ensures Popcount(x) == Popcount(c) + 1
  {
    PopcountDouble(x, q + h, e);
    PopcountDouble(c, q, e);
  }

  lemma {:induction false} PopcountHighBit(c: nat, n: nat)
    requires c < Pow2(n)
    ensures Popcount(c + Pow2(n)) == Popcount(c) + 1
    decreases n
  {
    if n > 0 {
      var h := Pow2(n - 1);
      var q, e := c / 2, c % 2;
      assert c == 2 * q + e;
      assert q < h;
      PopcountHighBit(q, n - 1);
      assert Pow2(n) == 2 * h;
      HighBitStep(c, c + Pow2(n), q, h, e);
    } else {
      assert c == 0;
      PopcountDouble(1, 0, 1);
    }
  }

  /** The parity of a ^ b is the sum of the parities. */
  lemma PopcountAndStep(a: nat, b: nat)
    ensures Popcount(And(a, b)) == Ind(a % 2 == 1 && b % 2 == 1) + Popcount(And(a / 2, b / 2))
  {
    if a != 0 || b != 0 {
      PopcountDouble(And(a, b), And(a / 2, b / 2), Ind(a % 2 == 1 && b % 2 == 1));
    }
  }

  /** Counting both operands' bits counts the bits of a ^ b once and those of a & b twice. */
  lemma {:induction false} PopcountXorAnd(a: nat, b: nat)
    ensures Popcount(Xor(a, b)) + 2 * Popcount(And(a, b)) == Popcount(a) + Popcount(b)
    decreases a + b
  {
    if a != 0 || b != 0 {
      PopcountXorStep(a, b);
      PopcountAndStep(a, b);
      PopcountXorAnd(a / 2, b / 2);
      PopcountDouble(a, a / 2, a % 2);
      PopcountDouble(b, b / 2, b % 2);
    }
  }

  /** The parity of a ^ b is the sum of the parities. */
  lemma PopcountXorParity(a: nat, b: nat)
    ensures Popcount(Xor(a, b)) % 2 == (Popcount(a) + Popcount(b)) % 2
  {
    PopcountXorAnd(a, b);
    EvenDifference(Popcount(Xor(a, b)), Popcount(And(a, b)), Popcount(a) + Popcount(b));
  }

  lemma EvenDifference(x: nat, y: nat, z: nat)
    requires x + 2 * y == z
    ensures x % 2 == z % 2
  {
  }

  /** Hamming distance on integers obeys the triangle inequality. */
  lemma {:induction false} PopcountTriangle(a: nat, b: nat, c: nat)
    ensures Popcount(Xor(a, c)) <= Popcount(Xor(a, b)) + Popcount(Xor(b, c))
    decreases a + b + c
  {
    if a != 0 || b != 0 || c != 0 {
      PopcountXorStep(a, c);
      PopcountXorStep(a, b);
      PopcountXorStep(b, c);
      PopcountTriangle(a / 2, b / 2, c / 2);
    }
  }

  lemma {:induction false} BitSumHalf(x: nat, n: nat)
    requires n > 0
    ensures BitSum(x, n) == Ind(Bit(x, 0)) + BitSum(x / 2, n - 1)
  {
    if n > 1 {
      BitSumHalf(x, n - 1);
    }
  }

  /** Below 2^n, the population count is the number of set bits among bits 0 .. n-1. */
  lemma {:induction false} PopcountBitSum(x: nat, n: nat)
    requires x < Pow2(n)
    ensures Popcount(x) == BitSum(x, n)
    decreases n
  {
    if n > 0 {
      PopcountBitSum(x / 2, n - 1);
      BitSumHalf(x, n);
    }
  }

  lemma ShiftLeftDouble(m: nat, n: nat)
    requires n > 0
    ensures ShiftLeft(m, n) == 2 * ShiftLeft(m, n - 1)
  {
    assert Pow2(n) == 2 * Pow2(n - 1);
  }

  /** Placing c below m shifted by n bits adds their population counts. */
  lemma {:induction false} PopcountConcat(m: nat, c: nat, n: nat)
    requires c < Pow2(n)
    ensures Popcount(Xor(ShiftLeft(m, n), c)) == Popcount(m) + Popcount(c)
  {
    if n == 0 {
      assert c == 0 && ShiftLeft(m, 0) == m;
      XorZero(m);
    } else {
      var s := ShiftLeft(m, n - 1);
      ShiftLeftDouble(m, n);
      var q, e := c / 2, c % 2;
      assert c == 2 * q + e;
      assert Pow2(n) == 2 * Pow2(n - 1);
      PopcountConcat(m, q, n - 1);
      ConcatStep(s, c, q, e, Popcount(m));
    }
  }

  lemma ConcatStep(s: nat, c: nat, q: nat, e: nat, pm: nat)
    requires e < 2 && c == 2 * q + e
    requires Popcount(Xor(s, q)) == pm + Popcount(q)
    ensures Popcount(Xor(2 * s, c)) == pm + Popcount(c)
  {
    HalfOf(2 * s, s, 0);
    HalfOf(c, q, e);
    PopcountXorStep(2 * s, c);
    PopcountDouble(c, q, e);
  }

}
