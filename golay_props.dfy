/**
 * Properties of the extended codewords and of the decoder: each codebook
 * entry is a 24-bit word of even weight that carries its message in bits
 * 11..22 and whose low 23 bits are a multiple of g(x); the code is linear,
 * any two codewords differ in at least 8 places, and the nearest-codeword
 * scan undoes up to three flipped bits.
 */
module GolayProperties {
  import opened Bits
  import opened Gf2Poly
  import opened Golay
  import opened GolayCode

  lemma SmallBit(p: nat, k: nat)
    requires p < 2
    ensures Bit(p, k) == (k == 0 && p == 1)
  {
    if k > 0 {
      ZeroBit(k - 1);
    }
  }

  lemma OrZero(a: nat)
    ensures Or(a, 0) == a
  {
    forall j: nat
      ensures Bit(Or(a, 0), j) == Bit(a, j)
    {
      OrBit(a, 0, j);
      ZeroBit(j);
    }
    BitsEqual(Or(a, 0), a);
  }

  /** Bits 0..22 of `_extend24(c)` are those of c; bit 23 is the parity of c. */
  lemma ExtendBits(cw: nat, j: nat)
    requires cw < Pow2(CodeLength)
    ensures Bit(Extend24(cw), j) ==
      if j < CodeLength then Bit(cw, j) else j == CodeLength && Popcount(cw) % 2 == 1
  {
    Pow2Values();
    var parity := Popcount(cw) % 2;
    OrBit(cw, ShiftLeft(parity, CodeLength), j);
    ShiftBit(parity, CodeLength, j);
    HighBitsClear(cw, CodeLength);
    if CodeLength <= j {
      SmallBit(parity, j - CodeLength);
    }
  }

  /** Setting bit 23 of a 23-bit word adds one to its weight. */
  lemma SetTopBit(cw: nat)
    requires cw < Pow2(CodeLength)
    ensures Popcount(Or(cw, ShiftLeft(1, CodeLength))) == Popcount(cw) + 1
    ensures Or(cw, ShiftLeft(1, CodeLength)) < Pow2(CodeLength + 1)
  {
    Pow2Values();
    assert ShiftLeft(1, CodeLength) == Pow2(CodeLength);
    OrHighBit(cw, CodeLength);
    PopcountHighBit(cw, CodeLength);
  }

  /** The parity bit makes the weight even and keeps the word below 2^24. */
  lemma ExtendWeight(cw: nat)
    requires cw < Pow2(CodeLength)
    ensures Popcount(Extend24(cw)) == Popcount(cw) + Popcount(cw) % 2
    ensures Extend24(cw) < Pow2(CodeLength + 1)
  {
    Pow2Values();
    var parity := Popcount(cw) % 2;
    assert Extend24(cw) == Or(cw, ShiftLeft(parity, CodeLength));
    if parity == 1 {
      SetTopBit(cw);
    } else {
      assert ShiftLeft(0, CodeLength) == 0;
      OrZero(cw);
    }
  }

  lemma EvenAfterParity(p: nat, q: nat)
    requires q == p + p % 2
    ensures q % 2 == 0
  {
  }

  /** Codebook entry m is the extended codeword of m. */
  lemma CodebookEntry(m: nat)
    requires m < CodebookSize
    ensures BuildCodebook24()[m] == Codeword(m)
    ensures Codeword(m) < Pow2(CodeLength + 1)
    ensures Popcount(Codeword(m)) % 2 == 0
  {
    CodewordShape(m, Encode23(m));
  }

  lemma CodewordShape(m: nat, e: nat)
    requires m < CodebookSize && e == Encode23(m)
    ensures Codeword(m) < Pow2(CodeLength + 1)
    ensures Popcount(Codeword(m)) % 2 == 0
  {
    Pow2Values();
    EncodeBound(m);
    ExtendWeight(e);
    assert Codeword(m) == Extend24(e);
    EvenAfterParity(Popcount(e), Popcount(Codeword(m)));
  }

  /** The encoding is systematic: bits 11..22 of codeword m spell out m. */
  lemma Systematic(m: nat, i: nat)
    requires m < CodebookSize && i < MessageBits
    ensures Bit(Codeword(m), CheckBits + i) == Bit(m, i)
  {
    EncodeBound(m);
    ExtendBits(Encode23(m), CheckBits + i);
    EncodeBits(m, CheckBits + i);
  }

  /** The low 23 bits of codeword m form the word `_encode23(m)`. */
  lemma LowPart(m: nat)
    requires m < CodebookSize
    ensures Low(Codeword(m), CodeLength) == Encode23(m)
  {
    EncodeBound(m);
    forall j: nat
      ensures Bit(Low(Codeword(m), CodeLength), j) == Bit(Encode23(m), j)
    {
      LowBit(Codeword(m), CodeLength, j);
      ExtendBits(Encode23(m), j);
      HighBitsClear(Encode23(m), CodeLength);
    }
    BitsEqual(Low(Codeword(m), CodeLength), Encode23(m));
  }

  /** The low 23 bits of codeword m are a multiple of g(x). */
  lemma Divisible(m: nat)
    requires m < CodebookSize
    ensures PolyMod(Low(Codeword(m), CodeLength), G) == 0
  {
    LowPart(m);
    var s := ShiftLeft(m, CheckBits);
    var r := PolyMod(s, G);
    PolyModXor(s, r, G);
    GeneratorDegree();
    RemainderFits(s);
    BitLengthBound(r, CheckBits);
    PolyModSmall(r, G);
    XorSelf(r);
  }

  /** The check bits of a ^ b are the XOR of the check bits of a and of b. */
  lemma CheckXor(a: nat, b: nat)
    ensures Check(Xor(a, b)) == Xor(Check(a), Check(b))
  {
    ShiftXor(a, b, CheckBits);
    PolyModXor(ShiftLeft(a, CheckBits), ShiftLeft(b, CheckBits), G);
  }

  /** `_encode23` is linear over GF(2). */
  lemma EncodeXor(a: nat, b: nat)
    ensures Encode23(Xor(a, b)) == Xor(Encode23(a), Encode23(b))
  {
    ShiftXor(a, b, CheckBits);
    CheckXor(a, b);
    XorSwap(ShiftLeft(a, CheckBits), ShiftLeft(b, CheckBits), Check(a), Check(b));
  }

  lemma ParitySum(p: nat, q: nat, r: nat)
    requires r % 2 == (p + q) % 2
    ensures (r % 2 == 1) == ((p % 2 == 1) != (q % 2 == 1))
  {
  }

  /** The parity bit of x ^ y is the XOR of the parity bits of x and y. */
  lemma ExtendXorBit(x: nat, y: nat, j: nat)
    requires x < Pow2(CodeLength) && y < Pow2(CodeLength)
    ensures Bit(Extend24(Xor(x, y)), j) == Bit(Xor(Extend24(x), Extend24(y)), j)
  {
    Pow2Values();
    XorBelow(x, y, CodeLength);
    ExtendBits(Xor(x, y), j);
    ExtendBits(x, j);
    ExtendBits(y, j);
    XorBit(x, y, j);
    XorBit(Extend24(x), Extend24(y), j);
    if j == CodeLength {
      PopcountXorParity(x, y);
      ParitySum(Popcount(x), Popcount(y), Popcount(Xor(x, y)));
    }
  }

  /** The extended code is linear too: the parity bit is XOR-linear. */
  lemma CodewordXor(a: nat, b: nat)
    requires a < CodebookSize && b < CodebookSize
    ensures Codeword(Xor(a, b)) == Xor(Codeword(a), Codeword(b))
  {
    EncodeXor(a, b);
    EncodeBound(a);
    EncodeBound(b);
    var ea, eb := Encode23(a), Encode23(b);
    forall j: nat
      ensures Bit(Extend24(Xor(ea, eb)), j) == Bit(Xor(Extend24(ea), Extend24(eb)), j)
    {
      ExtendXorBit(ea, eb, j);
    }
    BitsEqual(Extend24(Xor(ea, eb)), Xor(Extend24(ea), Extend24(eb)));
  }

  lemma RoundUpEven(p: nat)
    requires p >= 7
    ensures p + p % 2 >= 8
  {
  }

  /** Every nonzero extended codeword has weight at least 8. */
  lemma MinWeight24(m: nat)
    requires 0 < m < CodebookSize
    ensures Popcount(Codeword(m)) >= 8
  {
    var e := Encode23(m);
    MinWeight23(m);
    EncodeBound(m);
    ExtendWeight(e);
    assert Codeword(m) == Extend24(e);
    RoundUpEven(Popcount(e));
  }

  /** Codewords of different messages differ in at least 8 bit positions. */
  lemma MinDistance(a: nat, b: nat)
    requires a < CodebookSize && b < CodebookSize && a != b
    ensures Distance(Codeword(a), Codeword(b)) >= 8
  {
    CodewordXor(a, b);
    XorZeroIff(a, b);
    Pow2Values();
    XorBelow(a, b, MessageBits);
    MinWeight24(Xor(a, b));
  }

  lemma {:induction false} XorHighBit(c: nat, n: nat)
    requires c < Pow2(n)
    ensures Xor(c, Pow2(n)) == c + Pow2(n)
    decreases n
  {
    if n > 0 {
      XorHighBit(c / 2, n - 1);
      assert Pow2(n) == 2 * Pow2(n - 1);
      assert Xor(c, Pow2(n)) == 2 * Xor(c / 2, Pow2(n - 1)) + c % 2;
    } else {
      assert c == 0;
    }
  }

  /** g(x) is x^11 plus the 11-bit polynomial 0x2E3, so adding 0x2E3 cancels all but x^11. */
  lemma GeneratorSplit()
    ensures Xor(ClMul(1, G), 0x2E3) == 0x800
  {
    Pow2Values();
    var lo := 0x2E3;
    XorHighBit(lo, 11);
    XorComm(lo, 0x800);
    assert G == Xor(0x800, lo);
    XorAssoc(0x800, lo, lo);
    XorSelf(lo);
    XorZero(0x800);
    assert ClMul(1, G) == Xor(G, 0);
    XorZero(G);
  }

  /** `_encode23(1)` is g(x) itself: x^11 and its remainder g(x) - x^11. */
  lemma EncodeOne()
    ensures Encode23(1) == G
  {
    Pow2Values();
    assert ShiftLeft(1, CheckBits) == 0x800;
    GeneratorSplit();
    GeneratorDegree();
    BitLengthBound(0x2E3, 11);
    DivModCharacterized(0x800, G, 1, 0x2E3);
    XorHighBit(0x2E3, 11);
    XorComm(0x2E3, 0x800);
  }

  /** g(x) has seven terms. */
  lemma GeneratorWeight()
    ensures Popcount(G) == 7
  {
    // 0xAE3 halved step by step; its bits, low bit first: 1 1 0 0 0 1 1 1 0 1 0 1
    PopcountZero(0);
    PopcountDouble(0x1, 0x0, 1);
    PopcountDouble(0x2, 0x1, 0);
    PopcountDouble(0x5, 0x2, 1);
    PopcountDouble(0xA, 0x5, 0);
    PopcountDouble(0x15, 0xA, 1);
    PopcountDouble(0x2B, 0x15, 1);
    PopcountDouble(0x57, 0x2B, 1);
    PopcountDouble(0xAE, 0x57, 0);
    PopcountDouble(0x15C, 0xAE, 0);
    PopcountDouble(0x2B8, 0x15C, 0);
    PopcountDouble(0x571, 0x2B8, 1);
    PopcountDouble(0xAE3, 0x571, 1);
  }

  /** Codeword 1 is x^23 + g(x): g(x) has odd weight 7, so the parity bit is set. */
  lemma CodewordOne()
    ensures Codeword(1) == G + Pow2(CodeLength) && Popcount(G) == 7
  {
    EncodeOne();
    GeneratorWeight();
    Pow2Values();
    assert ShiftLeft(1, CodeLength) == Pow2(CodeLength);
    OrHighBit(G, CodeLength);
  }

  /** The bound 8 is reached: codewords 0 and 1 differ in exactly 8 positions. */
  lemma MinDistanceAttained()
    ensures Distance(Codeword(0), Codeword(1)) == 8
  {
    CodewordOne();
    RemainderOfZero();
    assert Encode23(0) == 0;
    assert Codeword(0) == 0;
    var c := Codeword(1);
    XorComm(0, c);
    XorZero(c);
    Pow2Values();
    PopcountHighBit(G, CodeLength);
  }

  /**
   * Flipping at most three bits of codeword m still decodes to m: codeword m
   * is within 3 of the received word and every other codeword at least 5 away.
   */
  lemma DecodeRadius(m: nat, e: nat)
    requires m < CodebookSize && Popcount(e) <= 3
    ensures Nearest(BuildCodebook24(), Xor(Codeword(m), e)) == m
  {
    var book := BuildCodebook24();
    var v := Xor(Codeword(m), e);
    assert Xor(Codeword(m), v) == e by {
      XorAssoc(Codeword(m), Codeword(m), e);
      XorSelf(Codeword(m));
      XorZero(e);
    }
    assert Xor(v, Codeword(m)) == e by {
      XorComm(v, Codeword(m));
    }
    CodebookEntry(m);
    assert Distance(book[m], v) <= 3;
    forall t | 0 <= t < |book| && t != m
      ensures Distance(book[t], v) >= 5
    {
      CodebookEntry(t);
      MinDistance(t, m);
      PopcountTriangle(Codeword(t), v, Codeword(m));
    }
    NearestIsFirstClosest(book, v);
  }

  /** With no error at all, decoding an encoded message gives it back. */
  lemma DecodeEncode(m: nat)
    requires m < CodebookSize
    ensures Nearest(BuildCodebook24(), Codeword(m)) == m
  {
    PopcountZero(0);
    XorZero(Codeword(m));
    DecodeRadius(m, 0);
  }

  /** Any received word within distance 3 of codeword m decodes to m. */
  lemma DecodeNear(m: nat, v: nat)
    requires m < CodebookSize && Distance(Codeword(m), v) <= 3
    ensures Nearest(BuildCodebook24(), v) == m
  {
    var e := Xor(Codeword(m), v);
    XorAssoc(Codeword(m), Codeword(m), v);
    XorSelf(Codeword(m));
    XorZero(v);
    DecodeRadius(m, e);
  }
}
