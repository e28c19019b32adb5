/**
 * Polynomials over GF(2) stored in plain integers, bit j holding the
 * coefficient of x^j: the `_poly_deg` and `_poly_divmod` helpers of the
 * Golay encoder, with the division theorem and the linearity of the
 * remainder that the encoder relies on.
 */
module Gf2Poly {
  import opened Bits

  /** `_poly_deg`: the degree of p, which is -1 for the zero polynomial. */
  function PolyDeg(p: nat): (d: int)
    ensures p == 0 <==> d == -1
  {
    if p > 0 then BitLength(p) - 1 else -1
  }

  /** A non-zero polynomial of degree d lies between 2^d and 2^(d+1). */
  lemma PolyDegBounds(p: nat)
    requires p > 0
    ensures 0 <= PolyDeg(p) && Pow2(PolyDeg(p)) <= p < Pow2(PolyDeg(p) + 1)
  {
    BitLengthBound(p, BitLength(p));
    BitLengthBound(p, BitLength(p) - 1);
  }

  /** Carry-less product q(x) * d(x) over GF(2). */
  function ClMul(q: nat, d: nat): nat
  {
    if q == 0 then 0 else Xor(if q % 2 == 1 then d else 0, 2 * ClMul(q / 2, d))
  }

  /**
   * The `while` loop of `_poly_divmod` from the state (q, r): while r is
   * non-zero and its degree reaches the divisor's, cancel its leading
   * term with a shifted copy of the divisor and record the shift in q.
   */
  function DivModLoop(q: nat, r: nat, divisor: nat): (nat, nat)
    requires divisor > 0
    decreases BitLength(r)
  {
    if r != 0 && PolyDeg(r) >= PolyDeg(divisor) then
      var shift: nat := PolyDeg(r) - PolyDeg(divisor);
      CancelLeading(r, divisor, shift);
      DivModLoop(Xor(q, Pow2(shift)), Xor(r, divisor * Pow2(shift)), divisor)
    else
      (q, r)
  }

  /** `_poly_divmod(dividend, divisor)`: quotient and remainder. */
  function PolyDivMod(dividend: nat, divisor: nat): (res: (nat, nat))
    requires divisor > 0
    ensures dividend == Xor(ClMul(res.0, divisor), res.1)
    ensures res.1 == 0 || PolyDeg(res.1) < PolyDeg(divisor)
  {
    XorZero(dividend);
    LoopInvariant(0, dividend, divisor, dividend);
    DivModLoop(0, dividend, divisor)
  }

  function PolyMod(dividend: nat, divisor: nat): nat
    requires divisor > 0
  {
    PolyDivMod(dividend, divisor).1
  }

  /**
   * The loop of `_poly_divmod`, as written, computes `PolyDivMod`. With
   * divisor 0 the degree bound is -1 and the loop only ends when the
   * dividend is 0, giving (0, 0).
   */
  method PolyDivModLoop(dividend: nat, divisor: nat) returns (q: nat, r: nat)
    requires divisor > 0 || dividend == 0
    ensures divisor == 0 ==> q == 0 && r == 0
    ensures divisor > 0 ==> (q, r) == PolyDivMod(dividend, divisor)
    ensures divisor > 0 ==> dividend == Xor(ClMul(q, divisor), r)
    ensures divisor > 0 ==> r == 0 || PolyDeg(r) < PolyDeg(divisor)
  {
    q := 0;
    r := dividend;
    var dvDeg := PolyDeg(divisor);
    while r != 0 && PolyDeg(r) >= dvDeg
      invariant divisor == 0 ==> q == 0 && r == 0
      invariant divisor > 0 ==> DivModLoop(q, r, divisor) == PolyDivMod(dividend, divisor)
      decreases BitLength(r)
    {
      var shift: nat := PolyDeg(r) - dvDeg;
      LoopStep(q, r, divisor, shift);
      q := Xor(q, Pow2(shift));
      r := Xor(r, ShiftLeft(divisor, shift));
    }
    if divisor > 0 {
      LoopExit(q, r, divisor);
    }
  }

  /** One iteration of the division loop: the remaining loop is unchanged and r shrinks. */
  lemma LoopStep(q: nat, r: nat, divisor: nat, shift: nat)
    requires divisor > 0 && r != 0 && PolyDeg(r) >= PolyDeg(divisor)
    requires shift == PolyDeg(r) - PolyDeg(divisor)
    ensures BitLength(Xor(r, divisor * Pow2(shift))) < BitLength(r)
    ensures DivModLoop(q, r, divisor) == DivModLoop(Xor(q, Pow2(shift)), Xor(r, divisor * Pow2(shift)), divisor)
  {
    CancelLeading(r, divisor, shift);
  }

  /** Once the guard fails the loop returns its state. */
  lemma LoopExit(q: nat, r: nat, divisor: nat)
    requires divisor > 0 && !(r != 0 && PolyDeg(r) >= PolyDeg(divisor))
    ensures DivModLoop(q, r, divisor) == (q, r)
    ensures BitLength(r) < BitLength(divisor)
  {
  }

  // ---------------------------------------------------------------------
  // Termination and the division identity

  /** Cancelling the leading term lowers the degree, so the loop terminates. */
  lemma CancelLeading(r: nat, d: nat, s: nat)
    requires r > 0 && d > 0 && BitLength(r) == BitLength(d) + s
    ensures BitLength(Xor(r, d * Pow2(s))) < BitLength(r)
  {
    var n := BitLength(r);
    var x := Xor(r, d * Pow2(s));
    forall j: nat | n - 1 <= j
      ensures !Bit(x, j)
    {
      CancelLeadingBit(r, d, s, j);
    }
    LengthFromClearBits(x, n - 1);
  }

  /** Bit j >= deg r of r ^ (d << s) is clear when r and d << s have the same degree. */
  lemma CancelLeadingBit(r: nat, d: nat, s: nat, j: nat)
    requires r > 0 && d > 0 && BitLength(r) == BitLength(d) + s && BitLength(r) - 1 <= j
    ensures !Bit(Xor(r, d * Pow2(s)), j)
  {
    ShiftBit(d, s, j);
    XorBit(r, d * Pow2(s), j);
    AlignedBits(r, d, s, j);
  }

  /** From the leading term up, r and d << s have the same bits. */
  lemma AlignedBits(r: nat, d: nat, s: nat, j: nat)
    requires r > 0 && d > 0 && BitLength(r) == BitLength(d) + s && BitLength(r) - 1 <= j
    ensures Bit(r, j) == (s <= j && Bit(d, j - s))
  {
    if j == BitLength(r) - 1 {
      TopBit(r);
      TopBit(d);
    } else {
      AboveLength(r, j);
      AboveLength(d, j - s);
    }
  }

  lemma XorSwap(a: nat, b: nat, c: nat, e: nat)
    ensures Xor(Xor(a, b), Xor(c, e)) == Xor(Xor(a, c), Xor(b, e))
  {
    forall j: nat
      ensures Bit(Xor(Xor(a, b), Xor(c, e)), j) == Bit(Xor(Xor(a, c), Xor(b, e)), j)
    {
      XorBit(Xor(a, b), Xor(c, e), j);
      XorBit(Xor(a, c), Xor(b, e), j);
      XorBit(a, b, j);
      XorBit(c, e, j);
      XorBit(a, c, j);
      XorBit(b, e, j);
    }
    BitsEqual(Xor(Xor(a, b), Xor(c, e)), Xor(Xor(a, c), Xor(b, e)));
  }

  /** Moving terms across an equation: a ^ b == c ^ e gives a ^ c == b ^ e. */
  lemma XorMove(a: nat, b: nat, c: nat, e: nat)
    requires Xor(a, b) == Xor(c, e)
    ensures Xor(a, c) == Xor(b, e)
  {
    forall j: nat
      ensures Bit(Xor(a, c), j) == Bit(Xor(b, e), j)
    {
      XorBit(a, b, j);
      XorBit(c, e, j);
      XorBit(a, c, j);
      XorBit(b, e, j);
    }
    BitsEqual(Xor(a, c), Xor(b, e));
  }

  lemma {:induction false} ClMulPow2(s: nat, d: nat)
    ensures ClMul(Pow2(s), d) == d * Pow2(s)
  {
    if s == 0 {
      XorZero(d);
      assert ClMul(1, d) == Xor(d, 2 * ClMul(0, d));
    } else {
      var p := Pow2(s - 1);
      assert Pow2(s) == 2 * p;
      ClMulDouble(p, d);
      ClMulPow2(s - 1, d);
      MulDouble(d, p);
    }
  }

  lemma MulDouble(d: nat, p: nat)
    ensures d * (2 * p) == 2 * (d * p)
  {
  }

  lemma ClMulDouble(q: nat, d: nat)
    ensures ClMul(2 * q, d) == 2 * ClMul(q, d)
  {
    if q > 0 {
      XorZero(2 * ClMul(q, d));
    }
  }

  /** The low coefficient of q selects d; the rest of q is multiplied by x. */
  function LowTerm(q: nat, d: nat): nat
  {
    if q % 2 == 1 then d else 0
  }

  lemma ClMulUnfold(q: nat, d: nat)
    ensures ClMul(q, d) == Xor(LowTerm(q, d), 2 * ClMul(q / 2, d))
  {
    if q == 0 {
      XorZero(0);
    }
  }

  lemma XorHalves(p: nat, q: nat)
    ensures Xor(p, q) / 2 == Xor(p / 2, q / 2)
    ensures Xor(p, q) % 2 == (if p % 2 != q % 2 then 1 else 0)
  {
  }

  lemma LowTermXor(p: nat, q: nat, d: nat)
    ensures LowTerm(Xor(p, q), d) == Xor(LowTerm(p, d), LowTerm(q, d))
  {
    XorHalves(p, q);
    XorZero(d);
    XorSelf(d);
    XorZero(0);
  }

  lemma DoubleXor(a: nat, b: nat)
    ensures Xor(2 * a, 2 * b) == 2 * Xor(a, b)
  {
    if a != 0 || b != 0 {
      assert (2 * a) / 2 == a && (2 * b) / 2 == b;
    }
  }

  /** The carry-less product distributes over exclusive-or. */
  lemma {:induction false} ClMulXor(p: nat, q: nat, d: nat)
    ensures ClMul(Xor(p, q), d) == Xor(ClMul(p, d), ClMul(q, d))
    decreases p + q
  {
    var x := Xor(p, q);
    if p == 0 && q == 0 {
      XorZero(0);
    } else {
      XorHalves(p, q);
      ClMulXor(p / 2, q / 2, d);
      var a, b := ClMul(p / 2, d), ClMul(q / 2, d);
      assert ClMul(x / 2, d) == Xor(a, b);
      DoubleXor(a, b);
      var lp, lq := LowTerm(p, d), LowTerm(q, d);
      LowTermXor(p, q, d);
      ClMulUnfold(x, d);
      assert ClMul(x, d) == Xor(Xor(lp, lq), Xor(2 * a, 2 * b));
      ClMulUnfold(p, d);
      ClMulUnfold(q, d);
      XorSwap(lp, lq, 2 * a, 2 * b);
    }
  }

  lemma BitLengthDouble(x: nat)
    requires x > 0
    ensures BitLength(2 * x) == BitLength(x) + 1
  {
    assert (2 * x) / 2 == x;
  }

  /** Adding terms of lower degree keeps the degree. */
  lemma XorKeepsLength(a: nat, b: nat)
    requires BitLength(b) < BitLength(a)
    ensures BitLength(Xor(a, b)) == BitLength(a)
  {
    var n := BitLength(a);
    forall j: nat | n <= j
      ensures !Bit(Xor(a, b), j)
    {
      XorBit(a, b, j);
      AboveLength(a, j);
      AboveLength(b, j);
    }
    XorBit(a, b, n - 1);
    TopBit(a);
    AboveLength(b, n - 1);
    BitLengthFromBits(Xor(a, b), n);
  }


  /** deg(q * d) == deg(q) + deg(d) for non-zero q and d. */
  lemma {:induction false} ClMulLength(q: nat, d: nat)
    requires q > 0 && d > 0
    ensures BitLength(ClMul(q, d)) == BitLength(q) + BitLength(d) - 1
  {
    if q == 1 {
      XorZero(d);
    } else {
      var c := ClMul(q / 2, d);
      ClMulLength(q / 2, d);
      BitLengthDouble(c);
      ClMulUnfold(q, d);
      XorComm(LowTerm(q, d), 2 * c);
      XorKeepsLength(2 * c, LowTerm(q, d));
    }
  }

  /** The step of the loop keeps dividend == q * divisor ^ r. */
  lemma StepKeepsIdentity(q: nat, r: nat, d: nat, s: nat)
    ensures Xor(ClMul(Xor(q, Pow2(s)), d), Xor(r, d * Pow2(s))) == Xor(ClMul(q, d), r)
  {
    ClMulXor(q, Pow2(s), d);
    ClMulPow2(s, d);
    var c, y := ClMul(q, d), d * Pow2(s);
    XorSwap(c, y, r, y);
    XorSelf(y);
    XorZero(Xor(c, r));
  }

  lemma {:induction false} LoopInvariant(q: nat, r: nat, d: nat, dividend: nat)
    requires d > 0 && dividend == Xor(ClMul(q, d), r)
    ensures dividend == Xor(ClMul(DivModLoop(q, r, d).0, d), DivModLoop(q, r, d).1)
    ensures BitLength(DivModLoop(q, r, d).1) < BitLength(d)
    decreases BitLength(r)
  {
    if r != 0 && PolyDeg(r) >= PolyDeg(d) {
      var shift: nat := PolyDeg(r) - PolyDeg(d);
      var q', r' := Xor(q, Pow2(shift)), Xor(r, d * Pow2(shift));
      LoopStep(q, r, d, shift);
      StepKeepsIdentity(q, r, d, shift);
      LoopInvariant(q', r', d, dividend);
    } else {
      LoopExit(q, r, d);
    }
  }

  // ---------------------------------------------------------------------
  // Uniqueness of quotient and remainder, and what follows from it

  /** Quotient and remainder are determined by the dividend. */
  lemma DivisionUnique(q1: nat, r1: nat, q2: nat, r2: nat, d: nat)
    requires d > 0
    requires BitLength(r1) < BitLength(d) && BitLength(r2) < BitLength(d)
    requires Xor(ClMul(q1, d), r1) == Xor(ClMul(q2, d), r2)
    ensures q1 == q2 && r1 == r2
  {
    var n := BitLength(d) - 1;
    XorMove(ClMul(q1, d), r1, ClMul(q2, d), r2);
    ClMulXor(q1, q2, d);
    var p, r := Xor(q1, q2), Xor(r1, r2);
    assert ClMul(p, d) == r;
    BitLengthBound(r1, n);
    BitLengthBound(r2, n);
    XorBelow(r1, r2, n);
    BitLengthBound(r, n);
    ShortProduct(p, d);
    XorZeroIff(q1, q2);
    XorZeroIff(r1, r2);
  }

  /** A non-zero multiple of d has at least the degree of d. */
  lemma ShortProduct(p: nat, d: nat)
    requires d > 0 && BitLength(ClMul(p, d)) < BitLength(d)
    ensures p == 0
  {
    if p != 0 {
      ClMulLength(p, d);
    }
  }


  /** A pair (q, r) with dividend == q * d ^ r and deg r < deg d is what `_poly_divmod` returns. */
  lemma DivModCharacterized(dividend: nat, d: nat, q: nat, r: nat)
    requires d > 0 && BitLength(r) < BitLength(d)
    requires dividend == Xor(ClMul(q, d), r)
    ensures PolyDivMod(dividend, d) == (q, r)
  {
    var res := PolyDivMod(dividend, d);
    DivisionUnique(res.0, res.1, q, r, d);
  }

  /** The remainder is linear: (a ^ b) mod d == (a mod d) ^ (b mod d). */
  lemma PolyModXor(a: nat, b: nat, d: nat)
    requires d > 0
    ensures PolyMod(Xor(a, b), d) == Xor(PolyMod(a, d), PolyMod(b, d))
  {
    var (qa, ra) := PolyDivMod(a, d);
    var (qb, rb) := PolyDivMod(b, d);
    XorSwap(ClMul(qa, d), ra, ClMul(qb, d), rb);
    ClMulXor(qa, qb, d);
    var n := BitLength(d) - 1;
    BitLengthBound(ra, n);
    BitLengthBound(rb, n);
    XorBelow(ra, rb, n);
    BitLengthBound(Xor(ra, rb), n);
    DivModCharacterized(Xor(a, b), d, Xor(qa, qb), Xor(ra, rb));
  }

  /** Multiples of d leave no remainder. */
  lemma PolyModMultiple(q: nat, d: nat)
    requires d > 0
    ensures PolyMod(ClMul(q, d), d) == 0
  {
    XorZero(ClMul(q, d));
    DivModCharacterized(ClMul(q, d), d, q, 0);
  }

  /** A dividend of lower degree than d is its own remainder. */
  lemma PolyModSmall(a: nat, d: nat)
    requires d > 0 && BitLength(a) < BitLength(d)
    ensures PolyMod(a, d) == a
  {
    XorZero(a);
    DivModCharacterized(a, d, 0, a);
  }

  /** Multiplying by x commutes with reduction: (x * a) mod d == (x * (a mod d)) mod d. */
  lemma PolyModDouble(a: nat, d: nat)
    requires d > 0
    ensures PolyMod(2 * a, d) == PolyMod(2 * PolyMod(a, d), d)
  {
    var (q, r) := PolyDivMod(a, d);
    DoubleXor(ClMul(q, d), r);
    ClMulDouble(q, d);
    PolyModXor(ClMul(2 * q, d), 2 * r, d);
    PolyModMultiple(2 * q, d);
    XorZero(PolyMod(2 * r, d));
  }
}
