/**
 * Why the fingerprint code corrects three errors: the remainder of m(x)*x^11
 * modulo g(x) is the XOR of the rows x^(11+i) mod g(x) for the set bits i of
 * m, every nonzero codeword has weight at least 8, the code is linear, and so
 * a word within distance 3 of a codeword decodes to that codeword's message.
 */
module GolayCode {
  import opened Bits
  import opened Gf2Poly
  import opened Golay

  /** The remainder (check bits) of the systematic encoding of m. */
  function Check(m: nat): nat
  {
    PolyMod(ShiftLeft(m, CheckBits), G)
  }

  /** Every remainder modulo g(x) fits in the 11 check bits. */
  lemma RemainderFits(x: nat)
    ensures PolyMod(x, G) < Pow2(CheckBits)
  {
    GeneratorDegree();
    var r := PolyMod(x, G);
    BitLengthBound(r, CheckBits);
  }

  /**
   * `_encode23` is systematic: bits 0..10 are the check bits, bits 11..22
   * are the message, and nothing is set from bit 23 upwards.
   */
  lemma EncodeBits(m: nat, j: nat)
    requires m < CodebookSize
    ensures Bit(Encode23(m), j) == if j < CheckBits then Bit(Check(m), j) else j < CodeLength && Bit(m, j - CheckBits)
  {
    Pow2Values();
    RemainderFits(ShiftLeft(m, CheckBits));
    HighBitsClear(Check(m), CheckBits);
    HighBitsClear(m, MessageBits);
    XorBit(ShiftLeft(m, CheckBits), Check(m), j);
    ShiftBit(m, CheckBits, j);
  }

  lemma EncodeBound(m: nat)
    requires m < CodebookSize
    ensures Encode23(m) < Pow2(CodeLength)
  {
    forall j: nat | CodeLength <= j
      ensures !Bit(Encode23(m), j)
    {
      EncodeBits(m, j);
    }
    BoundFromBits(Encode23(m), CodeLength);
  }

  /** Doubling shifts every coefficient up by one. */
  lemma DoubleBit(x: nat, j: nat)
    ensures Bit(2 * x, j) == (j >= 1 && Bit(x, j - 1))
  {
  }

  /** A dividend of degree exactly 11 is reduced by one subtraction of g(x). */
  lemma OneReduction(y: nat)
    requires Pow2(CheckBits) <= y < Pow2(MessageBits)
    ensures PolyMod(y, G) == Xor(y, G)
  {
    GeneratorDegree();
    BitLengthBound(y, MessageBits);
    BitLengthBound(y, CheckBits);
    assert G * Pow2(0) == G;
    CancelLeading(y, G, 0);
    assert ClMul(1, G) == Xor(G, 2 * ClMul(0, G));
    XorZero(G);
    XorAssoc(G, y, G);
    XorComm(G, y);
    XorAssoc(y, G, G);
    XorSelf(G);
    XorZero(y);
    assert y == Xor(ClMul(1, G), Xor(y, G));
    DivModCharacterized(y, G, 1, Xor(y, G));
  }

  /** Row i of the systematic generator: x^(11+i) mod g(x). */
  function Row(i: nat): nat
  {
    PolyMod(Pow2(CheckBits + i), G)
  }

  /** The coefficients of Row(i), as a table. */
  predicate RowBit(i: nat, j: nat)
  {
    match i
    case 0 => j == 0 || j == 1 || j == 5 || j == 6 || j == 7 || j == 9
    case 1 => j == 1 || j == 2 || j == 6 || j == 7 || j == 8 || j == 10
    case 2 => j == 0 || j == 1 || j == 2 || j == 3 || j == 5 || j == 6 || j == 8
    case 3 => j == 1 || j == 2 || j == 3 || j == 4 || j == 6 || j == 7 || j == 9
    case 4 => j == 2 || j == 3 || j == 4 || j == 5 || j == 7 || j == 8 || j == 10
    case 5 => j == 0 || j == 1 || j == 3 || j == 4 || j == 7 || j == 8
    case 6 => j == 1 || j == 2 || j == 4 || j == 5 || j == 8 || j == 9
    case 7 => j == 2 || j == 3 || j == 5 || j == 6 || j == 9 || j == 10
    case 8 => j == 0 || j == 1 || j == 3 || j == 4 || j == 5 || j == 9 || j == 10
    case 9 => j == 0 || j == 2 || j == 4 || j == 7 || j == 9 || j == 10
    case 10 => j == 0 || j == 3 || j == 6 || j == 7 || j == 8 || j == 9 || j == 10
    case _ => j == 0 || j == 4 || j == 5 || j == 6 || j == 8 || j == 10
  }

  /** One row follows from the previous one by multiplying by x and reducing. */
  lemma RowTable(i: nat, j: nat)
    requires i < MessageBits - 1
    ensures RowBit(i + 1, j) == ((j >= 1 && RowBit(i, j - 1)) != (RowBit(i, 10) && GeneratorBit(j)))
  {
  }

  /** The doubled word when the top check bit is set: one subtraction of g(x). */
  lemma ReduceDoubleHigh(r: nat, j: nat)
    requires r < Pow2(CheckBits) && Bit(r, 10)
    ensures Bit(PolyMod(2 * r, G), j) == ((j >= 1 && Bit(r, j - 1)) != GeneratorBit(j))
  {
    HighBitsClear(r, CheckBits);
    forall k: nat | MessageBits <= k
      ensures !Bit(2 * r, k)
    {
      DoubleBit(r, k);
    }
    BoundFromBits(2 * r, MessageBits);
    DoubleBit(r, CheckBits);
    BitLengthFromBits(2 * r, MessageBits);
    BitLengthBound(2 * r, CheckBits);
    OneReduction(2 * r);
    XorBit(2 * r, G, j);
    DoubleBit(r, j);
    GeneratorBits(j);
  }

  /** The doubled word when the top check bit is clear: already reduced. */
  lemma ReduceDoubleLow(r: nat, j: nat)
    requires r < Pow2(CheckBits) && !Bit(r, 10)
    ensures Bit(PolyMod(2 * r, G), j) == (j >= 1 && Bit(r, j - 1))
  {
    HighBitsClear(r, CheckBits);
    forall k: nat | CheckBits <= k
      ensures !Bit(2 * r, k)
    {
      DoubleBit(r, k);
    }
    BoundFromBits(2 * r, CheckBits);
    GeneratorDegree();
    BitLengthBound(2 * r, CheckBits);
    PolyModSmall(2 * r, G);
    DoubleBit(r, j);
  }

  lemma RowStep(i: nat, j: nat)
    ensures Bit(Row(i + 1), j) == ((j >= 1 && Bit(Row(i), j - 1)) != (Bit(Row(i), 10) && GeneratorBit(j)))
  {
    var r := Row(i);
    assert Pow2(CheckBits + i + 1) == 2 * Pow2(CheckBits + i);
    PolyModDouble(Pow2(CheckBits + i), G);
    RemainderFits(Pow2(CheckBits + i));
    if Bit(r, 10) {
      ReduceDoubleHigh(r, j);
    } else {
      ReduceDoubleLow(r, j);
    }
  }

  lemma RowZero(j: nat)
    ensures Bit(Row(0), j) == RowBit(0, j)
  {
    Pow2Values();
    OneReduction(Pow2(CheckBits));
    XorBit(Pow2(CheckBits), G, j);
    BitPow2(CheckBits, j);
    GeneratorBits(j);
  }

  lemma RowInduct(k: nat, j: nat)
    requires k < MessageBits - 1
    requires Bit(Row(k), 10) == RowBit(k, 10)
    requires j >= 1 ==> Bit(Row(k), j - 1) == RowBit(k, j - 1)
    ensures Bit(Row(k + 1), j) == RowBit(k + 1, j)
  {
    RowStep(k, j);
    RowTable(k, j);
  }

  /** The table of rows is x^(11+i) mod g(x). */
  lemma {:induction false} RowBitsCorrect(i: nat, j: nat)
    requires i < MessageBits
    ensures Bit(Row(i), j) == RowBit(i, j)
  {
    if i == 0 {
      RowZero(j);
    } else {
      var k := i - 1;
      RowBitsCorrect(k, 10);
      if j >= 1 {
        RowBitsCorrect(k, j - 1);
      }
      RowInduct(k, j);
    }
  }

  /** The low n bits of m. */
  function Low(m: nat, n: nat): nat
  {
    if n == 0 then 0 else 2 * Low(m / 2, n - 1) + m % 2
  }

  lemma {:induction false} LowBit(m: nat, n: nat, j: nat)
    ensures Bit(Low(m, n), j) == (j < n && Bit(m, j))
  {
    if n == 0 {
      ZeroBit(j);
    } else if j > 0 {
      LowBit(m / 2, n - 1, j - 1);
    }
  }

  lemma LowAll(m: nat, n: nat)
    requires m < Pow2(n)
    ensures Low(m, n) == m
  {
    HighBitsClear(m, n);
    forall j: nat
      ensures Bit(Low(m, n), j) == Bit(m, j)
    {
      LowBit(m, n, j);
    }
    BitsEqual(Low(m, n), m);
  }

  /** Bit n of m alone, at its place. */
  function BitTerm(m: nat, n: nat): nat
  {
    if Bit(m, n) then Pow2(n) else 0
  }

  lemma LowStep(m: nat, n: nat)
    ensures Low(m, n + 1) == Xor(Low(m, n), BitTerm(m, n))
  {
    forall j: nat
      ensures Bit(Low(m, n + 1), j) == Bit(Xor(Low(m, n), BitTerm(m, n)), j)
    {
      LowBit(m, n + 1, j);
      LowBit(m, n, j);
      XorBit(Low(m, n), BitTerm(m, n), j);
      BitPow2(n, j);
      ZeroBit(j);
    }
    BitsEqual(Low(m, n + 1), Xor(Low(m, n), BitTerm(m, n)));
  }

  lemma {:induction false} Pow2Add(a: nat, b: nat)
    ensures Pow2(a) * Pow2(b) == Pow2(a + b)
  {
    if a > 0 {
      Pow2Add(a - 1, b);
    }
  }

  /** The XOR of the rows selected by the low n bits of m. */
  function Span(m: nat, n: nat): nat
  {
    if n == 0 then 0 else Xor(Span(m, n - 1), RowTerm(m, n - 1))
  }

  /** Row n when bit n of m is set, else nothing. */
  function RowTerm(m: nat, n: nat): nat
  {
    if Bit(m, n) then Row(n) else 0
  }

  lemma RowTermCheck(m: nat, n: nat)
    ensures PolyMod(ShiftLeft(BitTerm(m, n), CheckBits), G) == RowTerm(m, n)
  {
    if Bit(m, n) {
      Pow2Add(n, CheckBits);
    } else {
      GeneratorDegree();
      PolyModSmall(0, G);
    }
  }

  /** The remainder of the shifted XOR is the XOR of the remainders. */
  lemma ShiftedRemainderXor(lo: nat, b: nat, s: nat, t: nat)
    requires PolyMod(ShiftLeft(lo, CheckBits), G) == s
    requires PolyMod(ShiftLeft(b, CheckBits), G) == t
    ensures PolyMod(ShiftLeft(Xor(lo, b), CheckBits), G) == Xor(s, t)
  {
    ShiftXor(lo, b, CheckBits);
    PolyModXor(ShiftLeft(lo, CheckBits), ShiftLeft(b, CheckBits), G);
  }

  /** Remainders are linear: the check bits of the low n bits of m are the XOR of their rows. */
  lemma {:induction false} CheckSpan(m: nat, n: nat)
    ensures PolyMod(ShiftLeft(Low(m, n), CheckBits), G) == Span(m, n)
    decreases n, 1
  {
    if n == 0 {
      CheckSpanZero(m);
    } else {
      CheckSpanStep(m, n);
    }
  }

  lemma CheckSpanZero(m: nat)
    ensures PolyMod(ShiftLeft(Low(m, 0), CheckBits), G) == Span(m, 0)
  {
    assert ShiftLeft(Low(m, 0), CheckBits) == 0;
    RemainderOfZero();
  }

  lemma RemainderOfZero()
    ensures PolyMod(0, G) == 0
  {
    GeneratorDegree();
    PolyModSmall(0, G);
  }

  /** From the low k bits of m to the low k + 1 bits: one more row joins the XOR. */
  lemma {:induction false} CheckSpanStep(m: nat, n: nat)
    requires n > 0
    ensures PolyMod(ShiftLeft(Low(m, n), CheckBits), G) == Span(m, n)
    decreases n, 0
  {
    var k := n - 1;
    CheckSpan(m, k);
    var lo, b := Low(m, k), BitTerm(m, k);
    LowStep(m, k);
    RowTermCheck(m, k);
    ShiftedRemainderXor(lo, b, Span(m, k), RowTerm(m, k));
    SpanStep(m, k);
  }

  lemma SpanStep(m: nat, k: nat)
    ensures Span(m, k + 1) == Xor(Span(m, k), RowTerm(m, k))
  {
  }

  /** Bit j of Span(m, n), as a sum over GF(2). */
  predicate SpanBit(m: nat, n: nat, j: nat)
  {
    n > 0 && (SpanBit(m, n - 1, j) != (Bit(m, n - 1) && RowBit(n - 1, j)))
  }

  lemma {:induction false} SpanBits(m: nat, n: nat, j: nat)
    requires n <= MessageBits
    ensures Bit(Span(m, n), j) == SpanBit(m, n, j)
  {
    if n == 0 {
      ZeroBit(j);
    } else {
      SpanBits(m, n - 1, j);
      XorBit(Span(m, n - 1), RowTerm(m, n - 1), j);
      RowTermBit(m, n - 1, j);
    }
  }

  lemma RowTermBit(m: nat, k: nat, j: nat)
    requires k < MessageBits
    ensures Bit(RowTerm(m, k), j) == (Bit(m, k) && RowBit(k, j))
  {
    RowBitsCorrect(k, j);
    ZeroBit(j);
  }

  /**
   * The eleven parity-check equations of the code: check bit j is the sum
   * over GF(2) of the message bits b_i whose row x^(11+i) mod g(x) has
   * coefficient j.
   */
  predicate CheckSum(j: nat, b0: bool, b1: bool, b2: bool, b3: bool, b4: bool, b5: bool, b6: bool, b7: bool, b8: bool, b9: bool, b10: bool, b11: bool)
  {
    match j
    case 0 => ((((((b0 != b2) != b5) != b8) != b9) != b10) != b11)
    case 1 => ((((((b0 != b1) != b2) != b3) != b5) != b6) != b8)
    case 2 => ((((((b1 != b2) != b3) != b4) != b6) != b7) != b9)
    case 3 => ((((((b2 != b3) != b4) != b5) != b7) != b8) != b10)
    case 4 => ((((((b3 != b4) != b5) != b6) != b8) != b9) != b11)
    case 5 => ((((((b0 != b2) != b4) != b6) != b7) != b8) != b11)
    case 6 => ((((((b0 != b1) != b2) != b3) != b7) != b10) != b11)
    case 7 => ((((((b0 != b1) != b3) != b4) != b5) != b9) != b10)
    case 8 => ((((((b1 != b2) != b4) != b5) != b6) != b10) != b11)
    case 9 => ((((((b0 != b3) != b6) != b7) != b8) != b9) != b10)
    case _ => ((((((b1 != b4) != b7) != b8) != b9) != b10) != b11)
  }

  lemma SpanChain0(m: nat)
    ensures SpanBit(m, MessageBits, 0) == ((((((Bit(m, 0) != Bit(m, 2)) != Bit(m, 5)) != Bit(m, 8)) != Bit(m, 9)) != Bit(m, 10)) != Bit(m, 11))
  {
    assert SpanBit(m, 1, 0) == Bit(m, 0);
    assert SpanBit(m, 2, 0) == Bit(m, 0);
    assert SpanBit(m, 3, 0) == (Bit(m, 0) != Bit(m, 2));
    assert SpanBit(m, 4, 0) == (Bit(m, 0) != Bit(m, 2));
    assert SpanBit(m, 5, 0) == (Bit(m, 0) != Bit(m, 2));
    assert SpanBit(m, 6, 0) == ((Bit(m, 0) != Bit(m, 2)) != Bit(m, 5));
    assert SpanBit(m, 7, 0) == ((Bit(m, 0) != Bit(m, 2)) != Bit(m, 5));
    assert SpanBit(m, 8, 0) == ((Bit(m, 0) != Bit(m, 2)) != Bit(m, 5));
    assert SpanBit(m, 9, 0) == (((Bit(m, 0) != Bit(m, 2)) != Bit(m, 5)) != Bit(m, 8));
    assert SpanBit(m, 10, 0) == ((((Bit(m, 0) != Bit(m, 2)) != Bit(m, 5)) != Bit(m, 8)) != Bit(m, 9));
    assert SpanBit(m, 11, 0) == (((((Bit(m, 0) != Bit(m, 2)) != Bit(m, 5)) != Bit(m, 8)) != Bit(m, 9)) != Bit(m, 10));
    assert SpanBit(m, 12, 0) == ((((((Bit(m, 0) != Bit(m, 2)) != Bit(m, 5)) != Bit(m, 8)) != Bit(m, 9)) != Bit(m, 10)) != Bit(m, 11));
  }

  lemma SpanChain1(m: nat)
    ensures SpanBit(m, MessageBits, 1) == ((((((Bit(m, 0) != Bit(m, 1)) != Bit(m, 2)) != Bit(m, 3)) != Bit(m, 5)) != Bit(m, 6)) != Bit(m, 8))
  {
    assert SpanBit(m, 1, 1) == Bit(m, 0);
    assert SpanBit(m, 2, 1) == (Bit(m, 0) != Bit(m, 1));
    assert SpanBit(m, 3, 1) == ((Bit(m, 0) != Bit(m, 1)) != Bit(m, 2));
    assert SpanBit(m, 4, 1) == (((Bit(m, 0) != Bit(m, 1)) != Bit(m, 2)) != Bit(m, 3));
    assert SpanBit(m, 5, 1) == (((Bit(m, 0) != Bit(m, 1)) != Bit(m, 2)) != Bit(m, 3));
    assert SpanBit(m, 6, 1) == ((((Bit(m, 0) != Bit(m, 1)) != Bit(m, 2)) != Bit(m, 3)) != Bit(m, 5));
    assert SpanBit(m, 7, 1) == (((((Bit(m, 0) != Bit(m, 1)) != Bit(m, 2)) != Bit(m, 3)) != Bit(m, 5)) != Bit(m, 6));
    assert SpanBit(m, 8, 1) == (((((Bit(m, 0) != Bit(m, 1)) != Bit(m, 2)) != Bit(m, 3)) != Bit(m, 5)) != Bit(m, 6));
    assert SpanBit(m, 9, 1) == ((((((Bit(m, 0) != Bit(m, 1)) != Bit(m, 2)) != Bit(m, 3)) != Bit(m, 5)) != Bit(m, 6)) != Bit(m, 8));
    assert SpanBit(m, 10, 1) == ((((((Bit(m, 0) != Bit(m, 1)) != Bit(m, 2)) != Bit(m, 3)) != Bit(m, 5)) != Bit(m, 6)) != Bit(m, 8));
    assert SpanBit(m, 11, 1) == ((((((Bit(m, 0) != Bit(m, 1)) != Bit(m, 2)) != Bit(m, 3)) != Bit(m, 5)) != Bit(m, 6)) != Bit(m, 8));
    assert SpanBit(m, 12, 1) == ((((((Bit(m, 0) != Bit(m, 1)) != Bit(m, 2)) != Bit(m, 3)) != Bit(m, 5)) != Bit(m, 6)) != Bit(m, 8));
  }

  lemma SpanChain2(m: nat)
    ensures SpanBit(m, MessageBits, 2) == ((((((Bit(m, 1) != Bit(m, 2)) != Bit(m, 3)) != Bit(m, 4)) != Bit(m, 6)) != Bit(m, 7)) != Bit(m, 9))
  {
    assert !SpanBit(m, 1, 2);
    assert SpanBit(m, 2, 2) == Bit(m, 1);
    assert SpanBit(m, 3, 2) == (Bit(m, 1) != Bit(m, 2));
    assert SpanBit(m, 4, 2) == ((Bit(m, 1) != Bit(m, 2)) != Bit(m, 3));
    assert SpanBit(m, 5, 2) == (((Bit(m, 1) != Bit(m, 2)) != Bit(m, 3)) != Bit(m, 4));
    assert SpanBit(m, 6, 2) == (((Bit(m, 1) != Bit(m, 2)) != Bit(m, 3)) != Bit(m, 4));
    assert SpanBit(m, 7, 2) == ((((Bit(m, 1) != Bit(m, 2)) != Bit(m, 3)) != Bit(m, 4)) != Bit(m, 6));
    assert SpanBit(m, 8, 2) == (((((Bit(m, 1) != Bit(m, 2)) != Bit(m, 3)) != Bit(m, 4)) != Bit(m, 6)) != Bit(m, 7));
    assert SpanBit(m, 9, 2) == (((((Bit(m, 1) != Bit(m, 2)) != Bit(m, 3)) != Bit(m, 4)) != Bit(m, 6)) != Bit(m, 7));
    assert SpanBit(m, 10, 2) == ((((((Bit(m, 1) != Bit(m, 2)) != Bit(m, 3)) != Bit(m, 4)) != Bit(m, 6)) != Bit(m, 7)) != Bit(m, 9));
    assert SpanBit(m, 11, 2) == ((((((Bit(m, 1) != Bit(m, 2)) != Bit(m, 3)) != Bit(m, 4)) != Bit(m, 6)) != Bit(m, 7)) != Bit(m, 9));
    assert SpanBit(m, 12, 2) == ((((((Bit(m, 1) != Bit(m, 2)) != Bit(m, 3)) != Bit(m, 4)) != Bit(m, 6)) != Bit(m, 7)) != Bit(m, 9));
  }

  lemma SpanChain3(m: nat)
    ensures SpanBit(m, MessageBits, 3) == ((((((Bit(m, 2) != Bit(m, 3)) != Bit(m, 4)) != Bit(m, 5)) != Bit(m, 7)) != Bit(m, 8)) != Bit(m, 10))
  {
    assert !SpanBit(m, 1, 3);
    assert !SpanBit(m, 2, 3);
    assert SpanBit(m, 3, 3) == Bit(m, 2);
    assert SpanBit(m, 4, 3) == (Bit(m, 2) != Bit(m, 3));
    assert SpanBit(m, 5, 3) == ((Bit(m, 2) != Bit(m, 3)) != Bit(m, 4));
    assert SpanBit(m, 6, 3) == (((Bit(m, 2) != Bit(m, 3)) != Bit(m, 4)) != Bit(m, 5));
    assert SpanBit(m, 7, 3) == (((Bit(m, 2) != Bit(m, 3)) != Bit(m, 4)) != Bit(m, 5));
    assert SpanBit(m, 8, 3) == ((((Bit(m, 2) != Bit(m, 3)) != Bit(m, 4)) != Bit(m, 5)) != Bit(m, 7));
    assert SpanBit(m, 9, 3) == (((((Bit(m, 2) != Bit(m, 3)) != Bit(m, 4)) != Bit(m, 5)) != Bit(m, 7)) != Bit(m, 8));
    assert SpanBit(m, 10, 3) == (((((Bit(m, 2) != Bit(m, 3)) != Bit(m, 4)) != Bit(m, 5)) != Bit(m, 7)) != Bit(m, 8));
    assert SpanBit(m, 11, 3) == ((((((Bit(m, 2) != Bit(m, 3)) != Bit(m, 4)) != Bit(m, 5)) != Bit(m, 7)) != Bit(m, 8)) != Bit(m, 10));
    assert SpanBit(m, 12, 3) == ((((((Bit(m, 2) != Bit(m, 3)) != Bit(m, 4)) != Bit(m, 5)) != Bit(m, 7)) != Bit(m, 8)) != Bit(m, 10));
  }

  lemma SpanChain4(m: nat)
    ensures SpanBit(m, MessageBits, 4) == ((((((Bit(m, 3) != Bit(m, 4)) != Bit(m, 5)) != Bit(m, 6)) != Bit(m, 8)) != Bit(m, 9)) != Bit(m, 11))
  {
    assert !SpanBit(m, 1, 4);
    assert !SpanBit(m, 2, 4);
    assert !SpanBit(m, 3, 4);
    assert SpanBit(m, 4, 4) == Bit(m, 3);
    assert SpanBit(m, 5, 4) == (Bit(m, 3) != Bit(m, 4));
    assert SpanBit(m, 6, 4) == ((Bit(m, 3) != Bit(m, 4)) != Bit(m, 5));
    assert SpanBit(m, 7, 4) == (((Bit(m, 3) != Bit(m, 4)) != Bit(m, 5)) != Bit(m, 6));
    assert SpanBit(m, 8, 4) == (((Bit(m, 3) != Bit(m, 4)) != Bit(m, 5)) != Bit(m, 6));
    assert SpanBit(m, 9, 4) == ((((Bit(m, 3) != Bit(m, 4)) != Bit(m, 5)) != Bit(m, 6)) != Bit(m, 8));
    assert SpanBit(m, 10, 4) == (((((Bit(m, 3) != Bit(m, 4)) != Bit(m, 5)) != Bit(m, 6)) != Bit(m, 8)) != Bit(m, 9));
    assert SpanBit(m, 11, 4) == (((((Bit(m, 3) != Bit(m, 4)) != Bit(m, 5)) != Bit(m, 6)) != Bit(m, 8)) != Bit(m, 9));
    assert SpanBit(m, 12, 4) == ((((((Bit(m, 3) != Bit(m, 4)) != Bit(m, 5)) != Bit(m, 6)) != Bit(m, 8)) != Bit(m, 9)) != Bit(m, 11));
  }

  lemma SpanChain5(m: nat)
    ensures SpanBit(m, MessageBits, 5) == ((((((Bit(m, 0) != Bit(m, 2)) != Bit(m, 4)) != Bit(m, 6)) != Bit(m, 7)) != Bit(m, 8)) != Bit(m, 11))
  {
    assert SpanBit(m, 1, 5) == Bit(m, 0);
    assert SpanBit(m, 2, 5) == Bit(m, 0);
    assert SpanBit(m, 3, 5) == (Bit(m, 0) != Bit(m, 2));
    assert SpanBit(m, 4, 5) == (Bit(m, 0) != Bit(m, 2));
    assert SpanBit(m, 5, 5) == ((Bit(m, 0) != Bit(m, 2)) != Bit(m, 4));
    assert SpanBit(m, 6, 5) == ((Bit(m, 0) != Bit(m, 2)) != Bit(m, 4));
    assert SpanBit(m, 7, 5) == (((Bit(m, 0) != Bit(m, 2)) != Bit(m, 4)) != Bit(m, 6));
    assert SpanBit(m, 8, 5) == ((((Bit(m, 0) != Bit(m, 2)) != Bit(m, 4)) != Bit(m, 6)) != Bit(m, 7));
    assert SpanBit(m, 9, 5) == (((((Bit(m, 0) != Bit(m, 2)) != Bit(m, 4)) != Bit(m, 6)) != Bit(m, 7)) != Bit(m, 8));
    assert SpanBit(m, 10, 5) == (((((Bit(m, 0) != Bit(m, 2)) != Bit(m, 4)) != Bit(m, 6)) != Bit(m, 7)) != Bit(m, 8));
    assert SpanBit(m, 11, 5) == (((((Bit(m, 0) != Bit(m, 2)) != Bit(m, 4)) != Bit(m, 6)) != Bit(m, 7)) != Bit(m, 8));
    assert SpanBit(m, 12, 5) == ((((((Bit(m, 0) != Bit(m, 2)) != Bit(m, 4)) != Bit(m, 6)) != Bit(m, 7)) != Bit(m, 8)) != Bit(m, 11));
  }

  lemma SpanChain6(m: nat)
    ensures SpanBit(m, MessageBits, 6) == ((((((Bit(m, 0) != Bit(m, 1)) != Bit(m, 2)) != Bit(m, 3)) != Bit(m, 7)) != Bit(m, 10)) != Bit(m, 11))
  {
    assert SpanBit(m, 1, 6) == Bit(m, 0);
    assert SpanBit(m, 2, 6) == (Bit(m, 0) != Bit(m, 1));
    assert SpanBit(m, 3, 6) == ((Bit(m, 0) != Bit(m, 1)) != Bit(m, 2));
    assert SpanBit(m, 4, 6) == (((Bit(m, 0) != Bit(m, 1)) != Bit(m, 2)) != Bit(m, 3));
    assert SpanBit(m, 5, 6) == (((Bit(m, 0) != Bit(m, 1)) != Bit(m, 2)) != Bit(m, 3));
    assert SpanBit(m, 6, 6) == (((Bit(m, 0) != Bit(m, 1)) != Bit(m, 2)) != Bit(m, 3));
    assert SpanBit(m, 7, 6) == (((Bit(m, 0) != Bit(m, 1)) != Bit(m, 2)) != Bit(m, 3));
    assert SpanBit(m, 8, 6) == ((((Bit(m, 0) != Bit(m, 1)) != Bit(m, 2)) != Bit(m, 3)) != Bit(m, 7));
    assert SpanBit(m, 9, 6) == ((((Bit(m, 0) != Bit(m, 1)) != Bit(m, 2)) != Bit(m, 3)) != Bit(m, 7));
    assert SpanBit(m, 10, 6) == ((((Bit(m, 0) != Bit(m, 1)) != Bit(m, 2)) != Bit(m, 3)) != Bit(m, 7));
    assert SpanBit(m, 11, 6) == (((((Bit(m, 0) != Bit(m, 1)) != Bit(m, 2)) != Bit(m, 3)) != Bit(m, 7)) != Bit(m, 10));
    assert SpanBit(m, 12, 6) == ((((((Bit(m, 0) != Bit(m, 1)) != Bit(m, 2)) != Bit(m, 3)) != Bit(m, 7)) != Bit(m, 10)) != Bit(m, 11));
  }

  lemma SpanChain7(m: nat)
    ensures SpanBit(m, MessageBits, 7) == ((((((Bit(m, 0) != Bit(m, 1)) != Bit(m, 3)) != Bit(m, 4)) != Bit(m, 5)) != Bit(m, 9)) != Bit(m, 10))
  {
    assert SpanBit(m, 1, 7) == Bit(m, 0);
    assert SpanBit(m, 2, 7) == (Bit(m, 0) != Bit(m, 1));
    assert SpanBit(m, 3, 7) == (Bit(m, 0) != Bit(m, 1));
    assert SpanBit(m, 4, 7) == ((Bit(m, 0) != Bit(m, 1)) != Bit(m, 3));
    assert SpanBit(m, 5, 7) == (((Bit(m, 0) != Bit(m, 1)) != Bit(m, 3)) != Bit(m, 4));
    assert SpanBit(m, 6, 7) == ((((Bit(m, 0) != Bit(m, 1)) != Bit(m, 3)) != Bit(m, 4)) != Bit(m, 5));
    assert SpanBit(m, 7, 7) == ((((Bit(m, 0) != Bit(m, 1)) != Bit(m, 3)) != Bit(m, 4)) != Bit(m, 5));
    assert SpanBit(m, 8, 7) == ((((Bit(m, 0) != Bit(m, 1)) != Bit(m, 3)) != Bit(m, 4)) != Bit(m, 5));
    assert SpanBit(m, 9, 7) == ((((Bit(m, 0) != Bit(m, 1)) != Bit(m, 3)) != Bit(m, 4)) != Bit(m, 5));
    assert SpanBit(m, 10, 7) == (((((Bit(m, 0) != Bit(m, 1)) != Bit(m, 3)) != Bit(m, 4)) != Bit(m, 5)) != Bit(m, 9));
    assert SpanBit(m, 11, 7) == ((((((Bit(m, 0) != Bit(m, 1)) != Bit(m, 3)) != Bit(m, 4)) != Bit(m, 5)) != Bit(m, 9)) != Bit(m, 10));
    assert SpanBit(m, 12, 7) == ((((((Bit(m, 0) != Bit(m, 1)) != Bit(m, 3)) != Bit(m, 4)) != Bit(m, 5)) != Bit(m, 9)) != Bit(m, 10));
  }

  lemma SpanChain8(m: nat)
    ensures SpanBit(m, MessageBits, 8) == ((((((Bit(m, 1) != Bit(m, 2)) != Bit(m, 4)) != Bit(m, 5)) != Bit(m, 6)) != Bit(m, 10)) != Bit(m, 11))
  {
    assert !SpanBit(m, 1, 8);
    assert SpanBit(m, 2, 8) == Bit(m, 1);
    assert SpanBit(m, 3, 8) == (Bit(m, 1) != Bit(m, 2));
    assert SpanBit(m, 4, 8) == (Bit(m, 1) != Bit(m, 2));
    assert SpanBit(m, 5, 8) == ((Bit(m, 1) != Bit(m, 2)) != Bit(m, 4));
    assert SpanBit(m, 6, 8) == (((Bit(m, 1) != Bit(m, 2)) != Bit(m, 4)) != Bit(m, 5));
    assert SpanBit(m, 7, 8) == ((((Bit(m, 1) != Bit(m, 2)) != Bit(m, 4)) != Bit(m, 5)) != Bit(m, 6));
    assert SpanBit(m, 8, 8) == ((((Bit(m, 1) != Bit(m, 2)) != Bit(m, 4)) != Bit(m, 5)) != Bit(m, 6));
    assert SpanBit(m, 9, 8) == ((((Bit(m, 1) != Bit(m, 2)) != Bit(m, 4)) != Bit(m, 5)) != Bit(m, 6));
    assert SpanBit(m, 10, 8) == ((((Bit(m, 1) != Bit(m, 2)) != Bit(m, 4)) != Bit(m, 5)) != Bit(m, 6));
    assert SpanBit(m, 11, 8) == (((((Bit(m, 1) != Bit(m, 2)) != Bit(m, 4)) != Bit(m, 5)) != Bit(m, 6)) != Bit(m, 10));
    assert SpanBit(m, 12, 8) == ((((((Bit(m, 1) != Bit(m, 2)) != Bit(m, 4)) != Bit(m, 5)) != Bit(m, 6)) != Bit(m, 10)) != Bit(m, 11));
  }

  lemma SpanChain9(m: nat)
    ensures SpanBit(m, MessageBits, 9) == ((((((Bit(m, 0) != Bit(m, 3)) != Bit(m, 6)) != Bit(m, 7)) != Bit(m, 8)) != Bit(m, 9)) != Bit(m, 10))
  {
    assert SpanBit(m, 1, 9) == Bit(m, 0);
    assert SpanBit(m, 2, 9) == Bit(m, 0);
    assert SpanBit(m, 3, 9) == Bit(m, 0);
    assert SpanBit(m, 4, 9) == (Bit(m, 0) != Bit(m, 3));
    assert SpanBit(m, 5, 9) == (Bit(m, 0) != Bit(m, 3));
    assert SpanBit(m, 6, 9) == (Bit(m, 0) != Bit(m, 3));
    assert SpanBit(m, 7, 9) == ((Bit(m, 0) != Bit(m, 3)) != Bit(m, 6));
    assert SpanBit(m, 8, 9) == (((Bit(m, 0) != Bit(m, 3)) != Bit(m, 6)) != Bit(m, 7));
    assert SpanBit(m, 9, 9) == ((((Bit(m, 0) != Bit(m, 3)) != Bit(m, 6)) != Bit(m, 7)) != Bit(m, 8));
    assert SpanBit(m, 10, 9) == (((((Bit(m, 0) != Bit(m, 3)) != Bit(m, 6)) != Bit(m, 7)) != Bit(m, 8)) != Bit(m, 9));
    assert SpanBit(m, 11, 9) == ((((((Bit(m, 0) != Bit(m, 3)) != Bit(m, 6)) != Bit(m, 7)) != Bit(m, 8)) != Bit(m, 9)) != Bit(m, 10));
    assert SpanBit(m, 12, 9) == ((((((Bit(m, 0) != Bit(m, 3)) != Bit(m, 6)) != Bit(m, 7)) != Bit(m, 8)) != Bit(m, 9)) != Bit(m, 10));
  }

  lemma SpanChain10(m: nat)
    ensures SpanBit(m, MessageBits, 10) == ((((((Bit(m, 1) != Bit(m, 4)) != Bit(m, 7)) != Bit(m, 8)) != Bit(m, 9)) != Bit(m, 10)) != Bit(m, 11))
  {
    assert !SpanBit(m, 1, 10);
    assert SpanBit(m, 2, 10) == Bit(m, 1);
    assert SpanBit(m, 3, 10) == Bit(m, 1);
    assert SpanBit(m, 4, 10) == Bit(m, 1);
    assert SpanBit(m, 5, 10) == (Bit(m, 1) != Bit(m, 4));
    assert SpanBit(m, 6, 10) == (Bit(m, 1) != Bit(m, 4));
    assert SpanBit(m, 7, 10) == (Bit(m, 1) != Bit(m, 4));
    assert SpanBit(m, 8, 10) == ((Bit(m, 1) != Bit(m, 4)) != Bit(m, 7));
    assert SpanBit(m, 9, 10) == (((Bit(m, 1) != Bit(m, 4)) != Bit(m, 7)) != Bit(m, 8));
    assert SpanBit(m, 10, 10) == ((((Bit(m, 1) != Bit(m, 4)) != Bit(m, 7)) != Bit(m, 8)) != Bit(m, 9));
    assert SpanBit(m, 11, 10) == (((((Bit(m, 1) != Bit(m, 4)) != Bit(m, 7)) != Bit(m, 8)) != Bit(m, 9)) != Bit(m, 10));
    assert SpanBit(m, 12, 10) == ((((((Bit(m, 1) != Bit(m, 4)) != Bit(m, 7)) != Bit(m, 8)) != Bit(m, 9)) != Bit(m, 10)) != Bit(m, 11));
  }

  /** Check bit 0 of the encoding of m satisfies parity-check equation 0. */
  lemma CheckRow0(m: nat)
    requires m < CodebookSize
    ensures Ind(Bit(Check(m), 0)) == Ind(CheckSum(0, Bit(m, 0), Bit(m, 1), Bit(m, 2), Bit(m, 3), Bit(m, 4), Bit(m, 5), Bit(m, 6), Bit(m, 7), Bit(m, 8), Bit(m, 9), Bit(m, 10), Bit(m, 11)))
  {
    CheckBitSpan(m, 0);
    SpanChain0(m);
    CheckSumRow0(Bit(m, 0), Bit(m, 1), Bit(m, 2), Bit(m, 3), Bit(m, 4), Bit(m, 5), Bit(m, 6), Bit(m, 7), Bit(m, 8), Bit(m, 9), Bit(m, 10), Bit(m, 11));
    SameIndicator(Bit(Check(m), 0), CheckSum(0, Bit(m, 0), Bit(m, 1), Bit(m, 2), Bit(m, 3), Bit(m, 4), Bit(m, 5), Bit(m, 6), Bit(m, 7), Bit(m, 8), Bit(m, 9), Bit(m, 10), Bit(m, 11)));
  }

  lemma CheckSumRow0(b0: bool, b1: bool, b2: bool, b3: bool, b4: bool, b5: bool, b6: bool, b7: bool, b8: bool, b9: bool, b10: bool, b11: bool)
    ensures CheckSum(0, b0, b1, b2, b3, b4, b5, b6, b7, b8, b9, b10, b11) == ((((((b0 != b2) != b5) != b8) != b9) != b10) != b11)
  {
  }

  /** Check bit 1 of the encoding of m satisfies parity-check equation 1. */
  lemma CheckRow1(m: nat)
    requires m < CodebookSize
    ensures Ind(Bit(Check(m), 1)) == Ind(CheckSum(1, Bit(m, 0), Bit(m, 1), Bit(m, 2), Bit(m, 3), Bit(m, 4), Bit(m, 5), Bit(m, 6), Bit(m, 7), Bit(m, 8), Bit(m, 9), Bit(m, 10), Bit(m, 11)))
  {
    CheckBitSpan(m, 1);
    SpanChain1(m);
    CheckSumRow1(Bit(m, 0), Bit(m, 1), Bit(m, 2), Bit(m, 3), Bit(m, 4), Bit(m, 5), Bit(m, 6), Bit(m, 7), Bit(m, 8), Bit(m, 9), Bit(m, 10), Bit(m, 11));
    SameIndicator(Bit(Check(m), 1), CheckSum(1, Bit(m, 0), Bit(m, 1), Bit(m, 2), Bit(m, 3), Bit(m, 4), Bit(m, 5), Bit(m, 6), Bit(m, 7), Bit(m, 8), Bit(m, 9), Bit(m, 10), Bit(m, 11)));
  }

  lemma CheckSumRow1(b0: bool, b1: bool, b2: bool, b3: bool, b4: bool, b5: bool, b6: bool, b7: bool, b8: bool, b9: bool, b10: bool, b11: bool)
    ensures CheckSum(1, b0, b1, b2, b3, b4, b5, b6, b7, b8, b9, b10, b11) == ((((((b0 != b1) != b2) != b3) != b5) != b6) != b8)
  {
  }

  /** Check bit 2 of the encoding of m satisfies parity-check equation 2. */
  lemma CheckRow2(m: nat)
    requires m < CodebookSize
    ensures Ind(Bit(Check(m), 2)) == Ind(CheckSum(2, Bit(m, 0), Bit(m, 1), Bit(m, 2), Bit(m, 3), Bit(m, 4), Bit(m, 5), Bit(m, 6), Bit(m, 7), Bit(m, 8), Bit(m, 9), Bit(m, 10), Bit(m, 11)))
  {
    CheckBitSpan(m, 2);
    SpanChain2(m);
    CheckSumRow2(Bit(m, 0), Bit(m, 1), Bit(m, 2), Bit(m, 3), Bit(m, 4), Bit(m, 5), Bit(m, 6), Bit(m, 7), Bit(m, 8), Bit(m, 9), Bit(m, 10), Bit(m, 11));
    SameIndicator(Bit(Check(m), 2), CheckSum(2, Bit(m, 0), Bit(m, 1), Bit(m, 2), Bit(m, 3), Bit(m, 4), Bit(m, 5), Bit(m, 6), Bit(m, 7), Bit(m, 8), Bit(m, 9), Bit(m, 10), Bit(m, 11)));
  }

  lemma CheckSumRow2(b0: bool, b1: bool, b2: bool, b3: bool, b4: bool, b5: bool, b6: bool, b7: bool, b8: bool, b9: bool, b10: bool, b11: bool)
    ensures CheckSum(2, b0, b1, b2, b3, b4, b5, b6, b7, b8, b9, b10, b11) == ((((((b1 != b2) != b3) != b4) != b6) != b7) != b9)
  {
  }

  /** Check bit 3 of the encoding of m satisfies parity-check equation 3. */
  lemma CheckRow3(m: nat)
    requires m < CodebookSize
    ensures Ind(Bit(Check(m), 3)) == Ind(CheckSum(3, Bit(m, 0), Bit(m, 1), Bit(m, 2), Bit(m, 3), Bit(m, 4), Bit(m, 5), Bit(m, 6), Bit(m, 7), Bit(m, 8), Bit(m, 9), Bit(m, 10), Bit(m, 11)))
  {
    CheckBitSpan(m, 3);
    SpanChain3(m);
    CheckSumRow3(Bit(m, 0), Bit(m, 1), Bit(m, 2), Bit(m, 3), Bit(m, 4), Bit(m, 5), Bit(m, 6), Bit(m, 7), Bit(m, 8), Bit(m, 9), Bit(m, 10), Bit(m, 11));
    SameIndicator(Bit(Check(m), 3), CheckSum(3, Bit(m, 0), Bit(m, 1), Bit(m, 2), Bit(m, 3), Bit(m, 4), Bit(m, 5), Bit(m, 6), Bit(m, 7), Bit(m, 8), Bit(m, 9), Bit(m, 10), Bit(m, 11)));
  }

  lemma CheckSumRow3(b0: bool, b1: bool, b2: bool, b3: bool, b4: bool, b5: bool, b6: bool, b7: bool, b8: bool, b9: bool, b10: bool, b11: bool)
    ensures CheckSum(3, b0, b1, b2, b3, b4, b5, b6, b7, b8, b9, b10, b11) == ((((((b2 != b3) != b4) != b5) != b7) != b8) != b10)
  {
  }

  /** Check bit 4 of the encoding of m satisfies parity-check equation 4. */
  lemma CheckRow4(m: nat)
    requires m < CodebookSize
    ensures Ind(Bit(Check(m), 4)) == Ind(CheckSum(4, Bit(m, 0), Bit(m, 1), Bit(m, 2), Bit(m, 3), Bit(m, 4), Bit(m, 5), Bit(m, 6), Bit(m, 7), Bit(m, 8), Bit(m, 9), Bit(m, 10), Bit(m, 11)))
  {
    CheckBitSpan(m, 4);
    SpanChain4(m);
    CheckSumRow4(Bit(m, 0), Bit(m, 1), Bit(m, 2), Bit(m, 3), Bit(m, 4), Bit(m, 5), Bit(m, 6), Bit(m, 7), Bit(m, 8), Bit(m, 9), Bit(m, 10), Bit(m, 11));
    SameIndicator(Bit(Check(m), 4), CheckSum(4, Bit(m, 0), Bit(m, 1), Bit(m, 2), Bit(m, 3), Bit(m, 4), Bit(m, 5), Bit(m, 6), Bit(m, 7), Bit(m, 8), Bit(m, 9), Bit(m, 10), Bit(m, 11)));
  }

  lemma CheckSumRow4(b0: bool, b1: bool, b2: bool, b3: bool, b4: bool, b5: bool, b6: bool, b7: bool, b8: bool, b9: bool, b10: bool, b11: bool)
    ensures CheckSum(4, b0, b1, b2, b3, b4, b5, b6, b7, b8, b9, b10, b11) == ((((((b3 != b4) != b5) != b6) != b8) != b9) != b11)
  {
  }

  /** Check bit 5 of the encoding of m satisfies parity-check equation 5. */
  lemma CheckRow5(m: nat)
    requires m < CodebookSize
    ensures Ind(Bit(Check(m), 5)) == Ind(CheckSum(5, Bit(m, 0), Bit(m, 1), Bit(m, 2), Bit(m, 3), Bit(m, 4), Bit(m, 5), Bit(m, 6), Bit(m, 7), Bit(m, 8), Bit(m, 9), Bit(m, 10), Bit(m, 11)))
  {
    CheckBitSpan(m, 5);
    SpanChain5(m);
    CheckSumRow5(Bit(m, 0), Bit(m, 1), Bit(m, 2), Bit(m, 3), Bit(m, 4), Bit(m, 5), Bit(m, 6), Bit(m, 7), Bit(m, 8), Bit(m, 9), Bit(m, 10), Bit(m, 11));
    SameIndicator(Bit(Check(m), 5), CheckSum(5, Bit(m, 0), Bit(m, 1), Bit(m, 2), Bit(m, 3), Bit(m, 4), Bit(m, 5), Bit(m, 6), Bit(m, 7), Bit(m, 8), Bit(m, 9), Bit(m, 10), Bit(m, 11)));
  }

  lemma CheckSumRow5(b0: bool, b1: bool, b2: bool, b3: bool, b4: bool, b5: bool, b6: bool, b7: bool, b8: bool, b9: bool, b10: bool, b11: bool)
    ensures CheckSum(5, b0, b1, b2, b3, b4, b5, b6, b7, b8, b9, b10, b11) == ((((((b0 != b2) != b4) != b6) != b7) != b8) != b11)
  {
  }

  /** Check bit 6 of the encoding of m satisfies parity-check equation 6. */
  lemma CheckRow6(m: nat)
    requires m < CodebookSize
    ensures Ind(Bit(Check(m), 6)) == Ind(CheckSum(6, Bit(m, 0), Bit(m, 1), Bit(m, 2), Bit(m, 3), Bit(m, 4), Bit(m, 5), Bit(m, 6), Bit(m, 7), Bit(m, 8), Bit(m, 9), Bit(m, 10), Bit(m, 11)))
  {
    CheckBitSpan(m, 6);
    SpanChain6(m);
    CheckSumRow6(Bit(m, 0), Bit(m, 1), Bit(m, 2), Bit(m, 3), Bit(m, 4), Bit(m, 5), Bit(m, 6), Bit(m, 7), Bit(m, 8), Bit(m, 9), Bit(m, 10), Bit(m, 11));
    SameIndicator(Bit(Check(m), 6), CheckSum(6, Bit(m, 0), Bit(m, 1), Bit(m, 2), Bit(m, 3), Bit(m, 4), Bit(m, 5), Bit(m, 6), Bit(m, 7), Bit(m, 8), Bit(m, 9), Bit(m, 10), Bit(m, 11)));
  }

  lemma CheckSumRow6(b0: bool, b1: bool, b2: bool, b3: bool, b4: bool, b5: bool, b6: bool, b7: bool, b8: bool, b9: bool, b10: bool, b11: bool)
    ensures CheckSum(6, b0, b1, b2, b3, b4, b5, b6, b7, b8, b9, b10, b11) == ((((((b0 != b1) != b2) != b3) != b7) != b10) != b11)
  {
  }

  /** Check bit 7 of the encoding of m satisfies parity-check equation 7. */
  lemma CheckRow7(m: nat)
    requires m < CodebookSize
    ensures Ind(Bit(Check(m), 7)) == Ind(CheckSum(7, Bit(m, 0), Bit(m, 1), Bit(m, 2), Bit(m, 3), Bit(m, 4), Bit(m, 5), Bit(m, 6), Bit(m, 7), Bit(m, 8), Bit(m, 9), Bit(m, 10), Bit(m, 11)))
  {
    CheckBitSpan(m, 7);
    SpanChain7(m);
    CheckSumRow7(Bit(m, 0), Bit(m, 1), Bit(m, 2), Bit(m, 3), Bit(m, 4), Bit(m, 5), Bit(m, 6), Bit(m, 7), Bit(m, 8), Bit(m, 9), Bit(m, 10), Bit(m, 11));
    SameIndicator(Bit(Check(m), 7), CheckSum(7, Bit(m, 0), Bit(m, 1), Bit(m, 2), Bit(m, 3), Bit(m, 4), Bit(m, 5), Bit(m, 6), Bit(m, 7), Bit(m, 8), Bit(m, 9), Bit(m, 10), Bit(m, 11)));
  }

  lemma CheckSumRow7(b0: bool, b1: bool, b2: bool, b3: bool, b4: bool, b5: bool, b6: bool, b7: bool, b8: bool, b9: bool, b10: bool, b11: bool)
    ensures CheckSum(7, b0, b1, b2, b3, b4, b5, b6, b7, b8, b9, b10, b11) == ((((((b0 != b1) != b3) != b4) != b5) != b9) != b10)
  {
  }

  /** Check bit 8 of the encoding of m satisfies parity-check equation 8. */
  lemma CheckRow8(m: nat)
    requires m < CodebookSize
    ensures Ind(Bit(Check(m), 8)) == Ind(CheckSum(8, Bit(m, 0), Bit(m, 1), Bit(m, 2), Bit(m, 3), Bit(m, 4), Bit(m, 5), Bit(m, 6), Bit(m, 7), Bit(m, 8), Bit(m, 9), Bit(m, 10), Bit(m, 11)))
  {
    CheckBitSpan(m, 8);
    SpanChain8(m);
    CheckSumRow8(Bit(m, 0), Bit(m, 1), Bit(m, 2), Bit(m, 3), Bit(m, 4), Bit(m, 5), Bit(m, 6), Bit(m, 7), Bit(m, 8), Bit(m, 9), Bit(m, 10), Bit(m, 11));
    SameIndicator(Bit(Check(m), 8), CheckSum(8, Bit(m, 0), Bit(m, 1), Bit(m, 2), Bit(m, 3), Bit(m, 4), Bit(m, 5), Bit(m, 6), Bit(m, 7), Bit(m, 8), Bit(m, 9), Bit(m, 10), Bit(m, 11)));
  }

  lemma CheckSumRow8(b0: bool, b1: bool, b2: bool, b3: bool, b4: bool, b5: bool, b6: bool, b7: bool, b8: bool, b9: bool, b10: bool, b11: bool)
    ensures CheckSum(8, b0, b1, b2, b3, b4, b5, b6, b7, b8, b9, b10, b11) == ((((((b1 != b2) != b4) != b5) != b6) != b10) != b11)
  {
  }

  /** Check bit 9 of the encoding of m satisfies parity-check equation 9. */
  lemma CheckRow9(m: nat)
    requires m < CodebookSize
    ensures Ind(Bit(Check(m), 9)) == Ind(CheckSum(9, Bit(m, 0), Bit(m, 1), Bit(m, 2), Bit(m, 3), Bit(m, 4), Bit(m, 5), Bit(m, 6), Bit(m, 7), Bit(m, 8), Bit(m, 9), Bit(m, 10), Bit(m, 11)))
  {
    CheckBitSpan(m, 9);
    SpanChain9(m);
    CheckSumRow9(Bit(m, 0), Bit(m, 1), Bit(m, 2), Bit(m, 3), Bit(m, 4), Bit(m, 5), Bit(m, 6), Bit(m, 7), Bit(m, 8), Bit(m, 9), Bit(m, 10), Bit(m, 11));
    SameIndicator(Bit(Check(m), 9), CheckSum(9, Bit(m, 0), Bit(m, 1), Bit(m, 2), Bit(m, 3), Bit(m, 4), Bit(m, 5), Bit(m, 6), Bit(m, 7), Bit(m, 8), Bit(m, 9), Bit(m, 10), Bit(m, 11)));
  }

  lemma CheckSumRow9(b0: bool, b1: bool, b2: bool, b3: bool, b4: bool, b5: bool, b6: bool, b7: bool, b8: bool, b9: bool, b10: bool, b11: bool)
    ensures CheckSum(9, b0, b1, b2, b3, b4, b5, b6, b7, b8, b9, b10, b11) == ((((((b0 != b3) != b6) != b7) != b8) != b9) != b10)
  {
  }

  /** Check bit 10 of the encoding of m satisfies parity-check equation 10. */
  lemma CheckRow10(m: nat)
    requires m < CodebookSize
    ensures Ind(Bit(Check(m), 10)) == Ind(CheckSum(10, Bit(m, 0), Bit(m, 1), Bit(m, 2), Bit(m, 3), Bit(m, 4), Bit(m, 5), Bit(m, 6), Bit(m, 7), Bit(m, 8), Bit(m, 9), Bit(m, 10), Bit(m, 11)))
  {
    CheckBitSpan(m, 10);
    SpanChain10(m);
    CheckSumRow10(Bit(m, 0), Bit(m, 1), Bit(m, 2), Bit(m, 3), Bit(m, 4), Bit(m, 5), Bit(m, 6), Bit(m, 7), Bit(m, 8), Bit(m, 9), Bit(m, 10), Bit(m, 11));
    SameIndicator(Bit(Check(m), 10), CheckSum(10, Bit(m, 0), Bit(m, 1), Bit(m, 2), Bit(m, 3), Bit(m, 4), Bit(m, 5), Bit(m, 6), Bit(m, 7), Bit(m, 8), Bit(m, 9), Bit(m, 10), Bit(m, 11)));
  }

  lemma CheckSumRow10(b0: bool, b1: bool, b2: bool, b3: bool, b4: bool, b5: bool, b6: bool, b7: bool, b8: bool, b9: bool, b10: bool, b11: bool)
    ensures CheckSum(10, b0, b1, b2, b3, b4, b5, b6, b7, b8, b9, b10, b11) == ((((((b1 != b4) != b7) != b8) != b9) != b10) != b11)
  {
  }

  /** Check bit j of the encoding of m is bit j of the span of the rows its message selects. */
  lemma CheckBitSpan(m: nat, j: nat)
    requires m < CodebookSize
    ensures Bit(Check(m), j) == SpanBit(m, MessageBits, j)
  {
    Pow2Values();
    LowAll(m, MessageBits);
    CheckSpan(m, MessageBits);
    SpanBits(m, MessageBits, j);
  }

  lemma SameIndicator(p: bool, q: bool)
    requires p == q
    ensures Ind(p) == Ind(q)
  {
  }

  /** The weight of the check bits is the number of parity-check sums that hold. */
  lemma CheckPopcount(m: nat)
    requires m < CodebookSize
    ensures Popcount(Check(m)) == Ind(CheckSum(0, Bit(m, 0), Bit(m, 1), Bit(m, 2), Bit(m, 3), Bit(m, 4), Bit(m, 5), Bit(m, 6), Bit(m, 7), Bit(m, 8), Bit(m, 9), Bit(m, 10), Bit(m, 11)))
      + Ind(CheckSum(1, Bit(m, 0), Bit(m, 1), Bit(m, 2), Bit(m, 3), Bit(m, 4), Bit(m, 5), Bit(m, 6), Bit(m, 7), Bit(m, 8), Bit(m, 9), Bit(m, 10), Bit(m, 11)))
      + Ind(CheckSum(2, Bit(m, 0), Bit(m, 1), Bit(m, 2), Bit(m, 3), Bit(m, 4), Bit(m, 5), Bit(m, 6), Bit(m, 7), Bit(m, 8), Bit(m, 9), Bit(m, 10), Bit(m, 11)))
      + Ind(CheckSum(3, Bit(m, 0), Bit(m, 1), Bit(m, 2), Bit(m, 3), Bit(m, 4), Bit(m, 5), Bit(m, 6), Bit(m, 7), Bit(m, 8), Bit(m, 9), Bit(m, 10), Bit(m, 11)))
      + Ind(CheckSum(4, Bit(m, 0), Bit(m, 1), Bit(m, 2), Bit(m, 3), Bit(m, 4), Bit(m, 5), Bit(m, 6), Bit(m, 7), Bit(m, 8), Bit(m, 9), Bit(m, 10), Bit(m, 11)))
      + Ind(CheckSum(5, Bit(m, 0), Bit(m, 1), Bit(m, 2), Bit(m, 3), Bit(m, 4), Bit(m, 5), Bit(m, 6), Bit(m, 7), Bit(m, 8), Bit(m, 9), Bit(m, 10), Bit(m, 11)))
      + Ind(CheckSum(6, Bit(m, 0), Bit(m, 1), Bit(m, 2), Bit(m, 3), Bit(m, 4), Bit(m, 5), Bit(m, 6), Bit(m, 7), Bit(m, 8), Bit(m, 9), Bit(m, 10), Bit(m, 11)))
      + Ind(CheckSum(7, Bit(m, 0), Bit(m, 1), Bit(m, 2), Bit(m, 3), Bit(m, 4), Bit(m, 5), Bit(m, 6), Bit(m, 7), Bit(m, 8), Bit(m, 9), Bit(m, 10), Bit(m, 11)))
      + Ind(CheckSum(8, Bit(m, 0), Bit(m, 1), Bit(m, 2), Bit(m, 3), Bit(m, 4), Bit(m, 5), Bit(m, 6), Bit(m, 7), Bit(m, 8), Bit(m, 9), Bit(m, 10), Bit(m, 11)))
      + Ind(CheckSum(9, Bit(m, 0), Bit(m, 1), Bit(m, 2), Bit(m, 3), Bit(m, 4), Bit(m, 5), Bit(m, 6), Bit(m, 7), Bit(m, 8), Bit(m, 9), Bit(m, 10), Bit(m, 11)))
      + Ind(CheckSum(10, Bit(m, 0), Bit(m, 1), Bit(m, 2), Bit(m, 3), Bit(m, 4), Bit(m, 5), Bit(m, 6), Bit(m, 7), Bit(m, 8), Bit(m, 9), Bit(m, 10), Bit(m, 11)))
  {
    RemainderFits(ShiftLeft(m, CheckBits));
    CheckWeight(Check(m));
    CheckRow0(m);
    CheckRow1(m);
    CheckRow2(m);
    CheckRow3(m);
    CheckRow4(m);
    CheckRow5(m);
    CheckRow6(m);
    CheckRow7(m);
    CheckRow8(m);
    CheckRow9(m);
    CheckRow10(m);
  }

  /**
   * The weight table of the code: for twelve message bits that are not all
   * zero, the eleven parity-check sums and the message bits together have
   * at least seven ones.
   */
  lemma MinWeightCase0(b0: bool, b1: bool, b2: bool, b3: bool, b4: bool, b5: bool, b6: bool, b7: bool, b8: bool, b9: bool, b10: bool, b11: bool)
    requires !b0 && !b1 && !b2 && !b3
    requires b4 || b5 || b6 || b7 || b8 || b9 || b10 || b11
    ensures Ind(CheckSum(0, b0, b1, b2, b3, b4, b5, b6, b7, b8, b9, b10, b11))
      + Ind(CheckSum(1, b0, b1, b2, b3, b4, b5, b6, b7, b8, b9, b10, b11))
      + Ind(CheckSum(2, b0, b1, b2, b3, b4, b5, b6, b7, b8, b9, b10, b11))
      + Ind(CheckSum(3, b0, b1, b2, b3, b4, b5, b6, b7, b8, b9, b10, b11))
      + Ind(CheckSum(4, b0, b1, b2, b3, b4, b5, b6, b7, b8, b9, b10, b11))
      + Ind(CheckSum(5, b0, b1, b2, b3, b4, b5, b6, b7, b8, b9, b10, b11))
      + Ind(CheckSum(6, b0, b1, b2, b3, b4, b5, b6, b7, b8, b9, b10, b11))
      + Ind(CheckSum(7, b0, b1, b2, b3, b4, b5, b6, b7, b8, b9, b10, b11))
      + Ind(CheckSum(8, b0, b1, b2, b3, b4, b5, b6, b7, b8, b9, b10, b11))
      + Ind(CheckSum(9, b0, b1, b2, b3, b4, b5, b6, b7, b8, b9, b10, b11))
      + Ind(CheckSum(10, b0, b1, b2, b3, b4, b5, b6, b7, b8, b9, b10, b11))
      + Ind(b0) + Ind(b1) + Ind(b2) + Ind(b3) + Ind(b4) + Ind(b5) + Ind(b6) + Ind(b7) + Ind(b8) + Ind(b9) + Ind(b10) + Ind(b11) >= 7
  {
  }

  lemma MinWeightCase1(b0: bool, b1: bool, b2: bool, b3: bool, b4: bool, b5: bool, b6: bool, b7: bool, b8: bool, b9: bool, b10: bool, b11: bool)
    requires b0 && !b1 && !b2 && !b3
    ensures Ind(CheckSum(0, b0, b1, b2, b3, b4, b5, b6, b7, b8, b9, b10, b11))
      + Ind(CheckSum(1, b0, b1, b2, b3, b4, b5, b6, b7, b8, b9, b10, b11))
      + Ind(CheckSum(2, b0, b1, b2, b3, b4, b5, b6, b7, b8, b9, b10, b11))
      + Ind(CheckSum(3, b0, b1, b2, b3, b4, b5, b6, b7, b8, b9, b10, b11))
      + Ind(CheckSum(4, b0, b1, b2, b3, b4, b5, b6, b7, b8, b9, b10, b11))
      + Ind(CheckSum(5, b0, b1, b2, b3, b4, b5, b6, b7, b8, b9, b10, b11))
      + Ind(CheckSum(6, b0, b1, b2, b3, b4, b5, b6, b7, b8, b9, b10, b11))
      + Ind(CheckSum(7, b0, b1, b2, b3, b4, b5, b6, b7, b8, b9, b10, b11))
      + Ind(CheckSum(8, b0, b1, b2, b3, b4, b5, b6, b7, b8, b9, b10, b11))
      + Ind(CheckSum(9, b0, b1, b2, b3, b4, b5, b6, b7, b8, b9, b10, b11))
      + Ind(CheckSum(10, b0, b1, b2, b3, b4, b5, b6, b7, b8, b9, b10, b11))
      + Ind(b0) + Ind(b1) + Ind(b2) + Ind(b3) + Ind(b4) + Ind(b5) + Ind(b6) + Ind(b7) + Ind(b8) + Ind(b9) + Ind(b10) + Ind(b11) >= 7
  {
  }

  lemma MinWeightCase2(b0: bool, b1: bool, b2: bool, b3: bool, b4: bool, b5: bool, b6: bool, b7: bool, b8: bool, b9: bool, b10: bool, b11: bool)
    requires !b0 && b1 && !b2 && !b3
    ensures Ind(CheckSum(0, b0, b1, b2, b3, b4, b5, b6, b7, b8, b9, b10, b11))
      + Ind(CheckSum(1, b0, b1, b2, b3, b4, b5, b6, b7, b8, b9, b10, b11))
      + Ind(CheckSum(2, b0, b1, b2, b3, b4, b5, b6, b7, b8, b9, b10, b11))
      + Ind(CheckSum(3, b0, b1, b2, b3, b4, b5, b6, b7, b8, b9, b10, b11))
      + Ind(CheckSum(4, b0, b1, b2, b3, b4, b5, b6, b7, b8, b9, b10, b11))
      + Ind(CheckSum(5, b0, b1, b2, b3, b4, b5, b6, b7, b8, b9, b10, b11))
      + Ind(CheckSum(6, b0, b1, b2, b3, b4, b5, b6, b7, b8, b9, b10, b11))
      + Ind(CheckSum(7, b0, b1, b2, b3, b4, b5, b6, b7, b8, b9, b10, b11))
      + Ind(CheckSum(8, b0, b1, b2, b3, b4, b5, b6, b7, b8, b9, b10, b11))
      + Ind(CheckSum(9, b0, b1, b2, b3, b4, b5, b6, b7, b8, b9, b10, b11))
      + Ind(CheckSum(10, b0, b1, b2, b3, b4, b5, b6, b7, b8, b9, b10, b11))
      + Ind(b0) + Ind(b1) + Ind(b2) + Ind(b3) + Ind(b4) + Ind(b5) + Ind(b6) + Ind(b7) + Ind(b8) + Ind(b9) + Ind(b10) + Ind(b11) >= 7
  {
  }

  lemma MinWeightCase3(b0: bool, b1: bool, b2: bool, b3: bool, b4: bool, b5: bool, b6: bool, b7: bool, b8: bool, b9: bool, b10: bool, b11: bool)
    requires b0 && b1 && !b2 && !b3
    ensures Ind(CheckSum(0, b0, b1, b2, b3, b4, b5, b6, b7, b8, b9, b10, b11))
      + Ind(CheckSum(1, b0, b1, b2, b3, b4, b5, b6, b7, b8, b9, b10, b11))
      + Ind(CheckSum(2, b0, b1, b2, b3, b4, b5, b6, b7, b8, b9, b10, b11))
      + Ind(CheckSum(3, b0, b1, b2, b3, b4, b5, b6, b7, b8, b9, b10, b11))
      + Ind(CheckSum(4, b0, b1, b2, b3, b4, b5, b6, b7, b8, b9, b10, b11))
      + Ind(CheckSum(5, b0, b1, b2, b3, b4, b5, b6, b7, b8, b9, b10, b11))
      + Ind(CheckSum(6, b0, b1, b2, b3, b4, b5, b6, b7, b8, b9, b10, b11))
      + Ind(CheckSum(7, b0, b1, b2, b3, b4, b5, b6, b7, b8, b9, b10, b11))
      + Ind(CheckSum(8, b0, b1, b2, b3, b4, b5, b6, b7, b8, b9, b10, b11))
      + Ind(CheckSum(9, b0, b1, b2, b3, b4, b5, b6, b7, b8, b9, b10, b11))
      + Ind(CheckSum(10, b0, b1, b2, b3, b4, b5, b6, b7, b8, b9, b10, b11))
      + Ind(b0) + Ind(b1) + Ind(b2) + Ind(b3) + Ind(b4) + Ind(b5) + Ind(b6) + Ind(b7) + Ind(b8) + Ind(b9) + Ind(b10) + Ind(b11) >= 7
  {
  }

  lemma MinWeightCase4(b0: bool, b1: bool, b2: bool, b3: bool, b4: bool, b5: bool, b6: bool, b7: bool, b8: bool, b9: bool, b10: bool, b11: bool)
    requires !b0 && !b1 && b2 && !b3
    ensures Ind(CheckSum(0, b0, b1, b2, b3, b4, b5, b6, b7, b8, b9, b10, b11))
      + Ind(CheckSum(1, b0, b1, b2, b3, b4, b5, b6, b7, b8, b9, b10, b11))
      + Ind(CheckSum(2, b0, b1, b2, b3, b4, b5, b6, b7, b8, b9, b10, b11))
      + Ind(CheckSum(3, b0, b1, b2, b3, b4, b5, b6, b7, b8, b9, b10, b11))
      + Ind(CheckSum(4, b0, b1, b2, b3, b4, b5, b6, b7, b8, b9, b10, b11))
      + Ind(CheckSum(5, b0, b1, b2, b3, b4, b5, b6, b7, b8, b9, b10, b11))
      + Ind(CheckSum(6, b0, b1, b2, b3, b4, b5, b6, b7, b8, b9, b10, b11))
      + Ind(CheckSum(7, b0, b1, b2, b3, b4, b5, b6, b7, b8, b9, b10, b11))
      + Ind(CheckSum(8, b0, b1, b2, b3, b4, b5, b6, b7, b8, b9, b10, b11))
      + Ind(CheckSum(9, b0, b1, b2, b3, b4, b5, b6, b7, b8, b9, b10, b11))
      + Ind(CheckSum(10, b0, b1, b2, b3, b4, b5, b6, b7, b8, b9, b10, b11))
      + Ind(b0) + Ind(b1) + Ind(b2) + Ind(b3) + Ind(b4) + Ind(b5) + Ind(b6) + Ind(b7) + Ind(b8) + Ind(b9) + Ind(b10) + Ind(b11) >= 7
  {
  }

  lemma MinWeightCase5(b0: bool, b1: bool, b2: bool, b3: bool, b4: bool, b5: bool, b6: bool, b7: bool, b8: bool, b9: bool, b10: bool, b11: bool)
    requires b0 && !b1 && b2 && !b3
    ensures Ind(CheckSum(0, b0, b1, b2, b3, b4, b5, b6, b7, b8, b9, b10, b11))
      + Ind(CheckSum(1, b0, b1, b2, b3, b4, b5, b6, b7, b8, b9, b10, b11))
      + Ind(CheckSum(2, b0, b1, b2, b3, b4, b5, b6, b7, b8, b9, b10, b11))
      + Ind(CheckSum(3, b0, b1, b2, b3, b4, b5, b6, b7, b8, b9, b10, b11))
      + Ind(CheckSum(4, b0, b1, b2, b3, b4, b5, b6, b7, b8, b9, b10, b11))
      + Ind(CheckSum(5, b0, b1, b2, b3, b4, b5, b6, b7, b8, b9, b10, b11))
      + Ind(CheckSum(6, b0, b1, b2, b3, b4, b5, b6, b7, b8, b9, b10, b11))
      + Ind(CheckSum(7, b0, b1, b2, b3, b4, b5, b6, b7, b8, b9, b10, b11))
      + Ind(CheckSum(8, b0, b1, b2, b3, b4, b5, b6, b7, b8, b9, b10, b11))
      + Ind(CheckSum(9, b0, b1, b2, b3, b4, b5, b6, b7, b8, b9, b10, b11))
      + Ind(CheckSum(10, b0, b1, b2, b3, b4, b5, b6, b7, b8, b9, b10, b11))
      + Ind(b0) + Ind(b1) + Ind(b2) + Ind(b3) + Ind(b4) + Ind(b5) + Ind(b6) + Ind(b7) + Ind(b8) + Ind(b9) + Ind(b10) + Ind(b11) >= 7
  {
  }

  lemma MinWeightCase6(b0: bool, b1: bool, b2: bool, b3: bool, b4: bool, b5: bool, b6: bool, b7: bool, b8: bool, b9: bool, b10: bool, b11: bool)
    requires !b0 && b1 && b2 && !b3
    ensures Ind(CheckSum(0, b0, b1, b2, b3, b4, b5, b6, b7, b8, b9, b10, b11))
      + Ind(CheckSum(1, b0, b1, b2, b3, b4, b5, b6, b7, b8, b9, b10, b11))
      + Ind(CheckSum(2, b0, b1, b2, b3, b4, b5, b6, b7, b8, b9, b10, b11))
      + Ind(CheckSum(3, b0, b1, b2, b3, b4, b5, b6, b7, b8, b9, b10, b11))
      + Ind(CheckSum(4, b0, b1, b2, b3, b4, b5, b6, b7, b8, b9, b10, b11))
      + Ind(CheckSum(5, b0, b1, b2, b3, b4, b5, b6, b7, b8, b9, b10, b11))
      + Ind(CheckSum(6, b0, b1, b2, b3, b4, b5, b6, b7, b8, b9, b10, b11))
      + Ind(CheckSum(7, b0, b1, b2, b3, b4, b5, b6, b7, b8, b9, b10, b11))
      + Ind(CheckSum(8, b0, b1, b2, b3, b4, b5, b6, b7, b8, b9, b10, b11))
      + Ind(CheckSum(9, b0, b1, b2, b3, b4, b5, b6, b7, b8, b9, b10, b11))
      + Ind(CheckSum(10, b0, b1, b2, b3, b4, b5, b6, b7, b8, b9, b10, b11))
      + Ind(b0) + Ind(b1) + Ind(b2) + Ind(b3) + Ind(b4) + Ind(b5) + Ind(b6) + Ind(b7) + Ind(b8) + Ind(b9) + Ind(b10) + Ind(b11) >= 7
  {
  }

  lemma MinWeightCase7(b0: bool, b1: bool, b2: bool, b3: bool, b4: bool, b5: bool, b6: bool, b7: bool, b8: bool, b9: bool, b10: bool, b11: bool)
    requires b0 && b1 && b2 && !b3
    ensures Ind(CheckSum(0, b0, b1, b2, b3, b4, b5, b6, b7, b8, b9, b10, b11))
      + Ind(CheckSum(1, b0, b1, b2, b3, b4, b5, b6, b7, b8, b9, b10, b11))
      + Ind(CheckSum(2, b0, b1, b2, b3, b4, b5, b6, b7, b8, b9, b10, b11))
      + Ind(CheckSum(3, b0, b1, b2, b3, b4, b5, b6, b7, b8, b9, b10, b11))
      + Ind(CheckSum(4, b0, b1, b2, b3, b4, b5, b6, b7, b8, b9, b10, b11))
      + Ind(CheckSum(5, b0, b1, b2, b3, b4, b5, b6, b7, b8, b9, b10, b11))
      + Ind(CheckSum(6, b0, b1, b2, b3, b4, b5, b6, b7, b8, b9, b10, b11))
      + Ind(CheckSum(7, b0, b1, b2, b3, b4, b5, b6, b7, b8, b9, b10, b11))
      + Ind(CheckSum(8, b0, b1, b2, b3, b4, b5, b6, b7, b8, b9, b10, b11))
      + Ind(CheckSum(9, b0, b1, b2, b3, b4, b5, b6, b7, b8, b9, b10, b11))
      + Ind(CheckSum(10, b0, b1, b2, b3, b4, b5, b6, b7, b8, b9, b10, b11))
      + Ind(b0) + Ind(b1) + Ind(b2) + Ind(b3) + Ind(b4) + Ind(b5) + Ind(b6) + Ind(b7) + Ind(b8) + Ind(b9) + Ind(b10) + Ind(b11) >= 7
  {
  }

  lemma MinWeightCase8(b0: bool, b1: bool, b2: bool, b3: bool, b4: bool, b5: bool, b6: bool, b7: bool, b8: bool, b9: bool, b10: bool, b11: bool)
    requires !b0 && !b1 && !b2 && b3
    ensures Ind(CheckSum(0, b0, b1, b2, b3, b4, b5, b6, b7, b8, b9, b10, b11))
      + Ind(CheckSum(1, b0, b1, b2, b3, b4, b5, b6, b7, b8, b9, b10, b11))
      + Ind(CheckSum(2, b0, b1, b2, b3, b4, b5, b6, b7, b8, b9, b10, b11))
      + Ind(CheckSum(3, b0, b1, b2, b3, b4, b5, b6, b7, b8, b9, b10, b11))
      + Ind(CheckSum(4, b0, b1, b2, b3, b4, b5, b6, b7, b8, b9, b10, b11))
      + Ind(CheckSum(5, b0, b1, b2, b3, b4, b5, b6, b7, b8, b9, b10, b11))
      + Ind(CheckSum(6, b0, b1, b2, b3, b4, b5, b6, b7, b8, b9, b10, b11))
      + Ind(CheckSum(7, b0, b1, b2, b3, b4, b5, b6, b7, b8, b9, b10, b11))
      + Ind(CheckSum(8, b0, b1, b2, b3, b4, b5, b6, b7, b8, b9, b10, b11))
      + Ind(CheckSum(9, b0, b1, b2, b3, b4, b5, b6, b7, b8, b9, b10, b11))
      + Ind(CheckSum(10, b0, b1, b2, b3, b4, b5, b6, b7, b8, b9, b10, b11))
      + Ind(b0) + Ind(b1) + Ind(b2) + Ind(b3) + Ind(b4) + Ind(b5) + Ind(b6) + Ind(b7) + Ind(b8) + Ind(b9) + Ind(b10) + Ind(b11) >= 7
  {
  }

  lemma MinWeightCase9(b0: bool, b1: bool, b2: bool, b3: bool, b4: bool, b5: bool, b6: bool, b7: bool, b8: bool, b9: bool, b10: bool, b11: bool)
    requires b0 && !b1 && !b2 && b3
    ensures Ind(CheckSum(0, b0, b1, b2, b3, b4, b5, b6, b7, b8, b9, b10, b11))
      + Ind(CheckSum(1, b0, b1, b2, b3, b4, b5, b6, b7, b8, b9, b10, b11))
      + Ind(CheckSum(2, b0, b1, b2, b3, b4, b5, b6, b7, b8, b9, b10, b11))
      + Ind(CheckSum(3, b0, b1, b2, b3, b4, b5, b6, b7, b8, b9, b10, b11))
      + Ind(CheckSum(4, b0, b1, b2, b3, b4, b5, b6, b7, b8, b9, b10, b11))
      + Ind(CheckSum(5, b0, b1, b2, b3, b4, b5, b6, b7, b8, b9, b10, b11))
      + Ind(CheckSum(6, b0, b1, b2, b3, b4, b5, b6, b7, b8, b9, b10, b11))
      + Ind(CheckSum(7, b0, b1, b2, b3, b4, b5, b6, b7, b8, b9, b10, b11))
      + Ind(CheckSum(8, b0, b1, b2, b3, b4, b5, b6, b7, b8, b9, b10, b11))
      + Ind(CheckSum(9, b0, b1, b2, b3, b4, b5, b6, b7, b8, b9, b10, b11))
      + Ind(CheckSum(10, b0, b1, b2, b3, b4, b5, b6, b7, b8, b9, b10, b11))
      + Ind(b0) + Ind(b1) + Ind(b2) + Ind(b3) + Ind(b4) + Ind(b5) + Ind(b6) + Ind(b7) + Ind(b8) + Ind(b9) + Ind(b10) + Ind(b11) >= 7
  {
  }

  lemma MinWeightCase10(b0: bool, b1: bool, b2: bool, b3: bool, b4: bool, b5: bool, b6: bool, b7: bool, b8: bool, b9: bool, b10: bool, b11: bool)
    requires !b0 && b1 && !b2 && b3
    ensures Ind(CheckSum(0, b0, b1, b2, b3, b4, b5, b6, b7, b8, b9, b10, b11))
      + Ind(CheckSum(1, b0, b1, b2, b3, b4, b5, b6, b7, b8, b9, b10, b11))
      + Ind(CheckSum(2, b0, b1, b2, b3, b4, b5, b6, b7, b8, b9, b10, b11))
      + Ind(CheckSum(3, b0, b1, b2, b3, b4, b5, b6, b7, b8, b9, b10, b11))
      + Ind(CheckSum(4, b0, b1, b2, b3, b4, b5, b6, b7, b8, b9, b10, b11))
      + Ind(CheckSum(5, b0, b1, b2, b3, b4, b5, b6, b7, b8, b9, b10, b11))
      + Ind(CheckSum(6, b0, b1, b2, b3, b4, b5, b6, b7, b8, b9, b10, b11))
      + Ind(CheckSum(7, b0, b1, b2, b3, b4, b5, b6, b7, b8, b9, b10, b11))
      + Ind(CheckSum(8, b0, b1, b2, b3, b4, b5, b6, b7, b8, b9, b10, b11))
      + Ind(CheckSum(9, b0, b1, b2, b3, b4, b5, b6, b7, b8, b9, b10, b11))
      + Ind(CheckSum(10, b0, b1, b2, b3, b4, b5, b6, b7, b8, b9, b10, b11))
      + Ind(b0) + Ind(b1) + Ind(b2) + Ind(b3) + Ind(b4) + Ind(b5) + Ind(b6) + Ind(b7) + Ind(b8) + Ind(b9) + Ind(b10) + Ind(b11) >= 7
  {
  }

  lemma MinWeightCase11(b0: bool, b1: bool, b2: bool, b3: bool, b4: bool, b5: bool, b6: bool, b7: bool, b8: bool, b9: bool, b10: bool, b11: bool)
    requires b0 && b1 && !b2 && b3
    ensures Ind(CheckSum(0, b0, b1, b2, b3, b4, b5, b6, b7, b8, b9, b10, b11))
      + Ind(CheckSum(1, b0, b1, b2, b3, b4, b5, b6, b7, b8, b9, b10, b11))
      + Ind(CheckSum(2, b0, b1, b2, b3, b4, b5, b6, b7, b8, b9, b10, b11))
      + Ind(CheckSum(3, b0, b1, b2, b3, b4, b5, b6, b7, b8, b9, b10, b11))
      + Ind(CheckSum(4, b0, b1, b2, b3, b4, b5, b6, b7, b8, b9, b10, b11))
      + Ind(CheckSum(5, b0, b1, b2, b3, b4, b5, b6, b7, b8, b9, b10, b11))
      + Ind(CheckSum(6, b0, b1, b2, b3, b4, b5, b6, b7, b8, b9, b10, b11))
      + Ind(CheckSum(7, b0, b1, b2, b3, b4, b5, b6, b7, b8, b9, b10, b11))
      + Ind(CheckSum(8, b0, b1, b2, b3, b4, b5, b6, b7, b8, b9, b10, b11))
      + Ind(CheckSum(9, b0, b1, b2, b3, b4, b5, b6, b7, b8, b9, b10, b11))
      + Ind(CheckSum(10, b0, b1, b2, b3, b4, b5, b6, b7, b8, b9, b10, b11))
      + Ind(b0) + Ind(b1) + Ind(b2) + Ind(b3) + Ind(b4) + Ind(b5) + Ind(b6) + Ind(b7) + Ind(b8) + Ind(b9) + Ind(b10) + Ind(b11) >= 7
  {
  }

  lemma MinWeightCase12(b0: bool, b1: bool, b2: bool, b3: bool, b4: bool, b5: bool, b6: bool, b7: bool, b8: bool, b9: bool, b10: bool, b11: bool)
    requires !b0 && !b1 && b2 && b3
    ensures Ind(CheckSum(0, b0, b1, b2, b3, b4, b5, b6, b7, b8, b9, b10, b11))
      + Ind(CheckSum(1, b0, b1, b2, b3, b4, b5, b6, b7, b8, b9, b10, b11))
      + Ind(CheckSum(2, b0, b1, b2, b3, b4, b5, b6, b7, b8, b9, b10, b11))
      + Ind(CheckSum(3, b0, b1, b2, b3, b4, b5, b6, b7, b8, b9, b10, b11))
      + Ind(CheckSum(4, b0, b1, b2, b3, b4, b5, b6, b7, b8, b9, b10, b11))
      + Ind(CheckSum(5, b0, b1, b2, b3, b4, b5, b6, b7, b8, b9, b10, b11))
      + Ind(CheckSum(6, b0, b1, b2, b3, b4, b5, b6, b7, b8, b9, b10, b11))
      + Ind(CheckSum(7, b0, b1, b2, b3, b4, b5, b6, b7, b8, b9, b10, b11))
      + Ind(CheckSum(8, b0, b1, b2, b3, b4, b5, b6, b7, b8, b9, b10, b11))
      + Ind(CheckSum(9, b0, b1, b2, b3, b4, b5, b6, b7, b8, b9, b10, b11))
      + Ind(CheckSum(10, b0, b1, b2, b3, b4, b5, b6, b7, b8, b9, b10, b11))
      + Ind(b0) + Ind(b1) + Ind(b2) + Ind(b3) + Ind(b4) + Ind(b5) + Ind(b6) + Ind(b7) + Ind(b8) + Ind(b9) + Ind(b10) + Ind(b11) >= 7
  {
  }

  lemma MinWeightCase13(b0: bool, b1: bool, b2: bool, b3: bool, b4: bool, b5: bool, b6: bool, b7: bool, b8: bool, b9: bool, b10: bool, b11: bool)
    requires b0 && !b1 && b2 && b3
    ensures Ind(CheckSum(0, b0, b1, b2, b3, b4, b5, b6, b7, b8, b9, b10, b11))
      + Ind(CheckSum(1, b0, b1, b2, b3, b4, b5, b6, b7, b8, b9, b10, b11))
      + Ind(CheckSum(2, b0, b1, b2, b3, b4, b5, b6, b7, b8, b9, b10, b11))
      + Ind(CheckSum(3, b0, b1, b2, b3, b4, b5, b6, b7, b8, b9, b10, b11))
      + Ind(CheckSum(4, b0, b1, b2, b3, b4, b5, b6, b7, b8, b9, b10, b11))
      + Ind(CheckSum(5, b0, b1, b2, b3, b4, b5, b6, b7, b8, b9, b10, b11))
      + Ind(CheckSum(6, b0, b1, b2, b3, b4, b5, b6, b7, b8, b9, b10, b11))
      + Ind(CheckSum(7, b0, b1, b2, b3, b4, b5, b6, b7, b8, b9, b10, b11))
      + Ind(CheckSum(8, b0, b1, b2, b3, b4, b5, b6, b7, b8, b9, b10, b11))
      + Ind(CheckSum(9, b0, b1, b2, b3, b4, b5, b6, b7, b8, b9, b10, b11))
      + Ind(CheckSum(10, b0, b1, b2, b3, b4, b5, b6, b7, b8, b9, b10, b11))
      + Ind(b0) + Ind(b1) + Ind(b2) + Ind(b3) + Ind(b4) + Ind(b5) + Ind(b6) + Ind(b7) + Ind(b8) + Ind(b9) + Ind(b10) + Ind(b11) >= 7
  {
  }

  lemma MinWeightCase14(b0: bool, b1: bool, b2: bool, b3: bool, b4: bool, b5: bool, b6: bool, b7: bool, b8: bool, b9: bool, b10: bool, b11: bool)
    requires !b0 && b1 && b2 && b3
    ensures Ind(CheckSum(0, b0, b1, b2, b3, b4, b5, b6, b7, b8, b9, b10, b11))
      + Ind(CheckSum(1, b0, b1, b2, b3, b4, b5, b6, b7, b8, b9, b10, b11))
      + Ind(CheckSum(2, b0, b1, b2, b3, b4, b5, b6, b7, b8, b9, b10, b11))
      + Ind(CheckSum(3, b0, b1, b2, b3, b4, b5, b6, b7, b8, b9, b10, b11))
      + Ind(CheckSum(4, b0, b1, b2, b3, b4, b5, b6, b7, b8, b9, b10, b11))
      + Ind(CheckSum(5, b0, b1, b2, b3, b4, b5, b6, b7, b8, b9, b10, b11))
      + Ind(CheckSum(6, b0, b1, b2, b3, b4, b5, b6, b7, b8, b9, b10, b11))
      + Ind(CheckSum(7, b0, b1, b2, b3, b4, b5, b6, b7, b8, b9, b10, b11))
      + Ind(CheckSum(8, b0, b1, b2, b3, b4, b5, b6, b7, b8, b9, b10, b11))
      + Ind(CheckSum(9, b0, b1, b2, b3, b4, b5, b6, b7, b8, b9, b10, b11))
      + Ind(CheckSum(10, b0, b1, b2, b3, b4, b5, b6, b7, b8, b9, b10, b11))
      + Ind(b0) + Ind(b1) + Ind(b2) + Ind(b3) + Ind(b4) + Ind(b5) + Ind(b6) + Ind(b7) + Ind(b8) + Ind(b9) + Ind(b10) + Ind(b11) >= 7
  {
  }

  lemma MinWeightCase15(b0: bool, b1: bool, b2: bool, b3: bool, b4: bool, b5: bool, b6: bool, b7: bool, b8: bool, b9: bool, b10: bool, b11: bool)
    requires b0 && b1 && b2 && b3
    ensures Ind(CheckSum(0, b0, b1, b2, b3, b4, b5, b6, b7, b8, b9, b10, b11))
      + Ind(CheckSum(1, b0, b1, b2, b3, b4, b5, b6, b7, b8, b9, b10, b11))
      + Ind(CheckSum(2, b0, b1, b2, b3, b4, b5, b6, b7, b8, b9, b10, b11))
      + Ind(CheckSum(3, b0, b1, b2, b3, b4, b5, b6, b7, b8, b9, b10, b11))
      + Ind(CheckSum(4, b0, b1, b2, b3, b4, b5, b6, b7, b8, b9, b10, b11))
      + Ind(CheckSum(5, b0, b1, b2, b3, b4, b5, b6, b7, b8, b9, b10, b11))
      + Ind(CheckSum(6, b0, b1, b2, b3, b4, b5, b6, b7, b8, b9, b10, b11))
      + Ind(CheckSum(7, b0, b1, b2, b3, b4, b5, b6, b7, b8, b9, b10, b11))
      + Ind(CheckSum(8, b0, b1, b2, b3, b4, b5, b6, b7, b8, b9, b10, b11))
      + Ind(CheckSum(9, b0, b1, b2, b3, b4, b5, b6, b7, b8, b9, b10, b11))
      + Ind(CheckSum(10, b0, b1, b2, b3, b4, b5, b6, b7, b8, b9, b10, b11))
      + Ind(b0) + Ind(b1) + Ind(b2) + Ind(b3) + Ind(b4) + Ind(b5) + Ind(b6) + Ind(b7) + Ind(b8) + Ind(b9) + Ind(b10) + Ind(b11) >= 7
  {
  }

  lemma MinWeightTable(b0: bool, b1: bool, b2: bool, b3: bool, b4: bool, b5: bool, b6: bool, b7: bool, b8: bool, b9: bool, b10: bool, b11: bool)
    requires b0 || b1 || b2 || b3 || b4 || b5 || b6 || b7 || b8 || b9 || b10 || b11
    ensures Ind(CheckSum(0, b0, b1, b2, b3, b4, b5, b6, b7, b8, b9, b10, b11))
      + Ind(CheckSum(1, b0, b1, b2, b3, b4, b5, b6, b7, b8, b9, b10, b11))
      + Ind(CheckSum(2, b0, b1, b2, b3, b4, b5, b6, b7, b8, b9, b10, b11))
      + Ind(CheckSum(3, b0, b1, b2, b3, b4, b5, b6, b7, b8, b9, b10, b11))
      + Ind(CheckSum(4, b0, b1, b2, b3, b4, b5, b6, b7, b8, b9, b10, b11))
      + Ind(CheckSum(5, b0, b1, b2, b3, b4, b5, b6, b7, b8, b9, b10, b11))
      + Ind(CheckSum(6, b0, b1, b2, b3, b4, b5, b6, b7, b8, b9, b10, b11))
      + Ind(CheckSum(7, b0, b1, b2, b3, b4, b5, b6, b7, b8, b9, b10, b11))
      + Ind(CheckSum(8, b0, b1, b2, b3, b4, b5, b6, b7, b8, b9, b10, b11))
      + Ind(CheckSum(9, b0, b1, b2, b3, b4, b5, b6, b7, b8, b9, b10, b11))
      + Ind(CheckSum(10, b0, b1, b2, b3, b4, b5, b6, b7, b8, b9, b10, b11))
      + Ind(b0) + Ind(b1) + Ind(b2) + Ind(b3) + Ind(b4) + Ind(b5) + Ind(b6) + Ind(b7) + Ind(b8) + Ind(b9) + Ind(b10) + Ind(b11) >= 7
  {
    if b0 {
      if b1 {
        if b2 {
          if b3 {
            MinWeightCase15(b0, b1, b2, b3, b4, b5, b6, b7, b8, b9, b10, b11);
          } else {
            MinWeightCase7(b0, b1, b2, b3, b4, b5, b6, b7, b8, b9, b10, b11);
          }
        } else {
          if b3 {
            MinWeightCase11(b0, b1, b2, b3, b4, b5, b6, b7, b8, b9, b10, b11);
          } else {
            MinWeightCase3(b0, b1, b2, b3, b4, b5, b6, b7, b8, b9, b10, b11);
          }
        }
      } else {
        if b2 {
          if b3 {
            MinWeightCase13(b0, b1, b2, b3, b4, b5, b6, b7, b8, b9, b10, b11);
          } else {
            MinWeightCase5(b0, b1, b2, b3, b4, b5, b6, b7, b8, b9, b10, b11);
          }
        } else {
          if b3 {
            MinWeightCase9(b0, b1, b2, b3, b4, b5, b6, b7, b8, b9, b10, b11);
          } else {
            MinWeightCase1(b0, b1, b2, b3, b4, b5, b6, b7, b8, b9, b10, b11);
          }
        }
      }
    } else {
      if b1 {
        if b2 {
          if b3 {
            MinWeightCase14(b0, b1, b2, b3, b4, b5, b6, b7, b8, b9, b10, b11);
          } else {
            MinWeightCase6(b0, b1, b2, b3, b4, b5, b6, b7, b8, b9, b10, b11);
          }
        } else {
          if b3 {
            MinWeightCase10(b0, b1, b2, b3, b4, b5, b6, b7, b8, b9, b10, b11);
          } else {
            MinWeightCase2(b0, b1, b2, b3, b4, b5, b6, b7, b8, b9, b10, b11);
          }
        }
      } else {
        if b2 {
          if b3 {
            MinWeightCase12(b0, b1, b2, b3, b4, b5, b6, b7, b8, b9, b10, b11);
          } else {
            MinWeightCase4(b0, b1, b2, b3, b4, b5, b6, b7, b8, b9, b10, b11);
          }
        } else {
          if b3 {
            MinWeightCase8(b0, b1, b2, b3, b4, b5, b6, b7, b8, b9, b10, b11);
          } else {
            MinWeightCase0(b0, b1, b2, b3, b4, b5, b6, b7, b8, b9, b10, b11);
          }
        }
      }
    }
  }

  /** The weight table, for every choice of the twelve message bits. */
  lemma MinWeightTableAll()
    ensures forall b0: bool, b1: bool, b2: bool, b3: bool, b4: bool, b5: bool, b6: bool, b7: bool, b8: bool, b9: bool, b10: bool, b11: bool :: (b0 || b1 || b2 || b3 || b4 || b5 || b6 || b7 || b8 || b9 || b10 || b11) ==>
      Ind(CheckSum(0, b0, b1, b2, b3, b4, b5, b6, b7, b8, b9, b10, b11))
      + Ind(CheckSum(1, b0, b1, b2, b3, b4, b5, b6, b7, b8, b9, b10, b11))
      + Ind(CheckSum(2, b0, b1, b2, b3, b4, b5, b6, b7, b8, b9, b10, b11))
      + Ind(CheckSum(3, b0, b1, b2, b3, b4, b5, b6, b7, b8, b9, b10, b11))
      + Ind(CheckSum(4, b0, b1, b2, b3, b4, b5, b6, b7, b8, b9, b10, b11))
      + Ind(CheckSum(5, b0, b1, b2, b3, b4, b5, b6, b7, b8, b9, b10, b11))
      + Ind(CheckSum(6, b0, b1, b2, b3, b4, b5, b6, b7, b8, b9, b10, b11))
      + Ind(CheckSum(7, b0, b1, b2, b3, b4, b5, b6, b7, b8, b9, b10, b11))
      + Ind(CheckSum(8, b0, b1, b2, b3, b4, b5, b6, b7, b8, b9, b10, b11))
      + Ind(CheckSum(9, b0, b1, b2, b3, b4, b5, b6, b7, b8, b9, b10, b11))
      + Ind(CheckSum(10, b0, b1, b2, b3, b4, b5, b6, b7, b8, b9, b10, b11))
      + Ind(b0) + Ind(b1) + Ind(b2) + Ind(b3) + Ind(b4) + Ind(b5) + Ind(b6) + Ind(b7) + Ind(b8) + Ind(b9) + Ind(b10) + Ind(b11) >= 7
  {
    forall b0: bool, b1: bool, b2: bool, b3: bool, b4: bool, b5: bool, b6: bool, b7: bool, b8: bool, b9: bool, b10: bool, b11: bool | b0 || b1 || b2 || b3 || b4 || b5 || b6 || b7 || b8 || b9 || b10 || b11
      ensures Ind(CheckSum(0, b0, b1, b2, b3, b4, b5, b6, b7, b8, b9, b10, b11))
      + Ind(CheckSum(1, b0, b1, b2, b3, b4, b5, b6, b7, b8, b9, b10, b11))
      + Ind(CheckSum(2, b0, b1, b2, b3, b4, b5, b6, b7, b8, b9, b10, b11))
      + Ind(CheckSum(3, b0, b1, b2, b3, b4, b5, b6, b7, b8, b9, b10, b11))
      + Ind(CheckSum(4, b0, b1, b2, b3, b4, b5, b6, b7, b8, b9, b10, b11))
      + Ind(CheckSum(5, b0, b1, b2, b3, b4, b5, b6, b7, b8, b9, b10, b11))
      + Ind(CheckSum(6, b0, b1, b2, b3, b4, b5, b6, b7, b8, b9, b10, b11))
      + Ind(CheckSum(7, b0, b1, b2, b3, b4, b5, b6, b7, b8, b9, b10, b11))
      + Ind(CheckSum(8, b0, b1, b2, b3, b4, b5, b6, b7, b8, b9, b10, b11))
      + Ind(CheckSum(9, b0, b1, b2, b3, b4, b5, b6, b7, b8, b9, b10, b11))
      + Ind(CheckSum(10, b0, b1, b2, b3, b4, b5, b6, b7, b8, b9, b10, b11))
      + Ind(b0) + Ind(b1) + Ind(b2) + Ind(b3) + Ind(b4) + Ind(b5) + Ind(b6) + Ind(b7) + Ind(b8) + Ind(b9) + Ind(b10) + Ind(b11) >= 7
    {
      MinWeightTable(b0, b1, b2, b3, b4, b5, b6, b7, b8, b9, b10, b11);
    }
  }

  /** The weight of a 23-bit codeword is that of its check bits plus that of its message. */
  lemma EncodeWeight(m: nat)
    ensures Popcount(Encode23(m)) == Popcount(Check(m)) + Popcount(m)
  {
    RemainderFits(ShiftLeft(m, CheckBits));
    PopcountConcat(m, Check(m), CheckBits);
  }

  /** Three more bits of a running bit count; the indices are passed as they are written. */
  lemma BitSumStep3(x: nat, n: nat, n1: nat, n2: nat, n3: nat)
    requires n1 == n + 1 && n2 == n + 2 && n3 == n + 3
    ensures BitSum(x, n3) == BitSum(x, n) + Ind(Bit(x, n)) + Ind(Bit(x, n1)) + Ind(Bit(x, n2))
  {
    BitSumAdd3(x, n);
  }

  lemma BitSumAdd3(x: nat, n: nat)
    ensures BitSum(x, n + 3) == BitSum(x, n) + Ind(Bit(x, n)) + Ind(Bit(x, n + 1)) + Ind(Bit(x, n + 2))
  {
    assert BitSum(x, n + 1) == BitSum(x, n) + Ind(Bit(x, n));
    assert BitSum(x, n + 2) == BitSum(x, n + 1) + Ind(Bit(x, n + 1));
  }

  lemma CheckWeight(c: nat)
    requires c < Pow2(CheckBits)
    ensures Popcount(c) == Ind(Bit(c, 0)) + Ind(Bit(c, 1)) + Ind(Bit(c, 2)) + Ind(Bit(c, 3)) + Ind(Bit(c, 4)) + Ind(Bit(c, 5)) + Ind(Bit(c, 6)) + Ind(Bit(c, 7)) + Ind(Bit(c, 8)) + Ind(Bit(c, 9)) + Ind(Bit(c, 10))
  {
    PopcountBitSum(c, CheckBits);
    assert BitSum(c, 0) == 0;
    BitSumStep3(c, 0, 1, 2, 3);
    BitSumStep3(c, 3, 4, 5, 6);
    BitSumStep3(c, 6, 7, 8, 9);
    assert BitSum(c, 10) == BitSum(c, 9) + Ind(Bit(c, 9));
    assert BitSum(c, 11) == BitSum(c, 10) + Ind(Bit(c, 10));
  }

  lemma MessageWeight(m: nat)
    requires m < CodebookSize
    ensures Popcount(m) == Ind(Bit(m, 0)) + Ind(Bit(m, 1)) + Ind(Bit(m, 2)) + Ind(Bit(m, 3)) + Ind(Bit(m, 4)) + Ind(Bit(m, 5)) + Ind(Bit(m, 6)) + Ind(Bit(m, 7)) + Ind(Bit(m, 8)) + Ind(Bit(m, 9)) + Ind(Bit(m, 10)) + Ind(Bit(m, 11))
  {
    Pow2Values();
    PopcountBitSum(m, MessageBits);
    assert BitSum(m, 0) == 0;
    BitSumStep3(m, 0, 1, 2, 3);
    BitSumStep3(m, 3, 4, 5, 6);
    BitSumStep3(m, 6, 7, 8, 9);
    BitSumStep3(m, 9, 10, 11, 12);
  }

  lemma NonzeroMessageBit(m: nat)
    requires 0 < m < CodebookSize
    ensures Bit(m, 0) || Bit(m, 1) || Bit(m, 2) || Bit(m, 3) || Bit(m, 4) || Bit(m, 5) || Bit(m, 6) || Bit(m, 7) || Bit(m, 8) || Bit(m, 9) || Bit(m, 10) || Bit(m, 11)
  {
    Pow2Values();
    HighBitsClear(m, MessageBits);
    if !(Bit(m, 0) || Bit(m, 1) || Bit(m, 2) || Bit(m, 3) || Bit(m, 4) || Bit(m, 5) || Bit(m, 6) || Bit(m, 7) || Bit(m, 8) || Bit(m, 9) || Bit(m, 10) || Bit(m, 11)) {
      forall j: nat
        ensures Bit(m, j) == Bit(0, j)
      {
        ZeroBit(j);
        if j < MessageBits {
          assert j in {0, 1, 2, 3, 4, 5, 6, 7, 8, 9, 10, 11};
        }
      }
      BitsEqual(m, 0);
    }
  }

  /** The check bits and the message bits of a nonzero message weigh at least 7 together. */
  lemma CheckAndMessageWeight(m: nat)
    requires 0 < m < CodebookSize
    ensures Popcount(Check(m)) + Popcount(m) >= 7
  {
    CheckPopcount(m);
    MessageWeight(m);
    NonzeroMessageBit(m);
    MinWeightTableAll();
  }

  lemma MinWeight23(m: nat)
    requires 0 < m < CodebookSize
    ensures Popcount(Encode23(m)) >= 7
  {
    EncodeWeight(m);
    CheckAndMessageWeight(m);
  }
}
