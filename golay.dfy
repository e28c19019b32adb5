/**
 * The extended binary Golay code [24,12,8] of the fingerprint encoder:
 * systematic encoding of a 12-bit message by the generator polynomial
 * g(x) = x^11 + x^9 + x^7 + x^6 + x^5 + x + 1, an even-parity bit at
 * position 23, the 4096-entry codebook, and nearest-codeword decoding
 * by exhaustive scan.
 */
module Golay {
  import opened Bits
  import opened Gf2Poly

  /** g(x); bit j is the coefficient of x^j. */
  const G: nat := 0xAE3
  /** Length of the cyclic code, message length, and number of check bits. */
  const CodeLength: nat := 23
  const MessageBits: nat := 12
  const CheckBits: nat := 11
  /** Number of codebook entries, 2^12. */
  const CodebookSize: nat := 4096
  /** Initial best distance of the decoder, `1 << 30`. */
  const NoDistance: nat := 0x4000_0000

  predicate GeneratorBit(j: nat)
  {
    j == 0 || j == 1 || j == 5 || j == 6 || j == 7 || j == 9 || j == 11
  }

  /** The coefficients of g(x) are those of x^11, x^9, x^7, x^6, x^5, x and 1. */
  lemma GeneratorBits(j: nat)
    ensures Bit(G, j) == GeneratorBit(j)
  {
    if j >= 12 {
      Pow2Values();
      HighBitsClear(G, 12);
    } else if j >= 6 {
      GeneratorUpperBits(j);
    } else {
      GeneratorLowerBits(j);
    }
  }

  lemma GeneratorUpperBits(j: nat)
    requires 6 <= j < 12
    ensures Bit(G, j) == GeneratorBit(j)
  {
    var k := j - 6;
    assert Bit(G, j) == Bit(0x571, j - 1) == Bit(0x2B8, j - 2) == Bit(0x15C, j - 3)
      == Bit(0xAE, j - 4) == Bit(0x57, j - 5) == Bit(0x2B, k);
    if k == 0 {
      assert Bit(0x2B, 0);
    } else if k == 1 {
      assert Bit(0x2B, 1);
    } else if k == 2 {
      assert !Bit(0x2B, 2);
    } else if k == 3 {
      assert Bit(0x2B, 3);
    } else if k == 4 {
      assert !Bit(0x2B, 4);
    } else {
      assert Bit(0x2B, 5);
    }
  }

  lemma GeneratorLowerBits(j: nat)
    requires j < 6
    ensures Bit(G, j) == GeneratorBit(j)
  {
    if j == 0 {
      assert Bit(G, 0);
    } else if j == 1 {
      assert Bit(G, 1);
    } else if j == 2 {
      assert !Bit(G, 2);
    } else if j == 3 {
      assert !Bit(G, 3);
    } else if j == 4 {
      assert !Bit(G, 4);
    } else if j == 5 {
      assert Bit(G, 5);
    }
  }

  /** g(x) has degree 11, the number of check bits. */
  lemma GeneratorDegree()
    ensures BitLength(G) == 12 && PolyDeg(G) == CheckBits as int
  {
    GeneratorBits(11);
    forall j: nat | 12 <= j
      ensures !Bit(G, j)
    {
      GeneratorBits(j);
    }
    BitLengthFromBits(G, 12);
  }

  /** `_encode23`: m(x) * x^11 followed by its remainder modulo g(x). */
  function Encode23(m: nat): nat
  {
    var mshift := ShiftLeft(m, CheckBits);
    Xor(mshift, PolyMod(mshift, G))
  }

  /** `_extend24`: set bit 23 to the parity of the 23-bit word. */
  function Extend24(cw23: nat): nat
  {
    var parity := Popcount(cw23) % 2;
    Or(cw23, ShiftLeft(parity, CodeLength))
  }

  function Codeword(m: nat): nat
  {
    Extend24(Encode23(m))
  }

  /** `_build_codebook24`: entry m is the extended codeword of message m. */
  function BuildCodebook24(): (book: seq<nat>)
    ensures |book| == CodebookSize
  {
    seq(CodebookSize, m requires 0 <= m < CodebookSize => Extend24(Encode23(m)))
  }

  /** Hamming distance of two words: `(a ^ b).bit_count()`. */
  function Distance(a: nat, b: nat): nat
  {
    Popcount(Xor(a, b))
  }

  /** The integer `_bits_to_int` assembles: bit j is set when `bits[j] & 1` is. */
  function BitsValue(bits: seq<nat>): nat
  {
    if |bits| == 0 then 0
    else
      var v := BitsValue(bits[..|bits| - 1]);
      if bits[|bits| - 1] % 2 == 1 then Or(v, Pow2(|bits| - 1)) else v
  }

  /** Bit j of the assembled integer is the low bit of bits[j]; no bit beyond |bits| is set. */
  lemma {:induction false} BitsValueBits(bits: seq<nat>, j: nat)
    ensures Bit(BitsValue(bits), j) == (j < |bits| && bits[j] % 2 == 1)
    decreases |bits|
  {
    if |bits| == 0 {
      ZeroBit(j);
    } else {
      var n := |bits| - 1;
      var prefix := bits[..n];
      BitsValueBits(prefix, j);
      if bits[n] % 2 == 1 {
        OrBit(BitsValue(prefix), Pow2(n), j);
        BitPow2(n, j);
      }
      if j < n {
        assert prefix[j] == bits[j];
      }
    }
  }

  lemma BitsValueBound(bits: seq<nat>)
    ensures BitsValue(bits) < Pow2(|bits|)
  {
    forall j: nat | |bits| <= j
      ensures !Bit(BitsValue(bits), j)
    {
      BitsValueBits(bits, j);
    }
    BoundFromBits(BitsValue(bits), |bits|);
  }

  /** `_bits_to_int`: OR `1 << j` into v for every j whose `bits[j] & 1` is set. */
  method BitsToInt(bits: seq<nat>) returns (v: nat)
    ensures v == BitsValue(bits)
    ensures forall j: nat :: Bit(v, j) == (j < |bits| && bits[j] % 2 == 1)
    ensures v < Pow2(|bits|)
  {
    v := 0;
    var j := 0;
    while j < |bits|
      invariant j <= |bits|
      invariant v == BitsValue(bits[..j])
    {
      assert bits[..j + 1][..j] == bits[..j];
      if bits[j] % 2 == 1 {
        v := Or(v, Pow2(j));
      }
      j := j + 1;
    }
    assert bits[..j] == bits;
    forall j: nat
      ensures Bit(v, j) == (j < |bits| && bits[j] % 2 == 1)
    {
      BitsValueBits(bits, j);
    }
    BitsValueBound(bits);
  }

  /**
   * idx is a nearest codeword to v, and the first one in codebook order:
   * every entry is at least as far from v, and every earlier entry is farther.
   */
  predicate IsNearest(book: seq<nat>, v: nat, idx: nat)
  {
    idx < |book| &&
    (forall t :: 0 <= t < |book| ==> Distance(book[idx], v) <= Distance(book[t], v)) &&
    (forall t :: 0 <= t < idx ==> Distance(book[idx], v) < Distance(book[t], v))
  }

  /**
   * The scan of `decode_to_msg12` from position i, without the early exit:
   * the final (best index, best distance).
   */
  function ScanFrom(book: seq<nat>, v: nat, i: nat, bestIdx: nat, bestD: nat): (nat, nat)
    decreases |book| - i
  {
    if i >= |book| then (bestIdx, bestD)
    else
      var d := Distance(book[i], v);
      if d < bestD then ScanFrom(book, v, i + 1, i, d) else ScanFrom(book, v, i + 1, bestIdx, bestD)
  }

  /** The index `decode_to_msg12` returns for the received word v. */
  function Nearest(book: seq<nat>, v: nat): nat
  {
    ScanFrom(book, v, 0, 0, NoDistance).0
  }

  /** Once an exact match is found the rest of the scan changes nothing. */
  lemma {:induction false} ScanAfterExactMatch(book: seq<nat>, v: nat, i: nat, bestIdx: nat)
    ensures ScanFrom(book, v, i, bestIdx, 0) == (bestIdx, 0)
    decreases |book| - i
  {
    if i < |book| {
      ScanAfterExactMatch(book, v, i + 1, bestIdx);
    }
  }

  /** What the scan keeps true about (bestIdx, bestD) after looking at book[..i]. */
  predicate ScanState(book: seq<nat>, v: nat, i: nat, bestIdx: nat, bestD: nat)
  {
    i <= |book| && bestD <= NoDistance &&
    (bestD == NoDistance ==> bestIdx == 0) &&
    (bestD < NoDistance ==> bestIdx < i && bestD == Distance(book[bestIdx], v)) &&
    (forall t :: 0 <= t < i ==> bestD <= Distance(book[t], v)) &&
    (forall t :: 0 <= t < bestIdx ==> bestD < Distance(book[t], v))
  }

  lemma {:induction false} ScanFromKeepsState(book: seq<nat>, v: nat, i: nat, bestIdx: nat, bestD: nat)
    requires ScanState(book, v, i, bestIdx, bestD)
    ensures var res := ScanFrom(book, v, i, bestIdx, bestD); ScanState(book, v, |book|, res.0, res.1)
    decreases |book| - i
  {
    if i < |book| {
      var d := Distance(book[i], v);
      if d < bestD {
        ScanFromKeepsState(book, v, i + 1, i, d);
      } else {
        ScanFromKeepsState(book, v, i + 1, bestIdx, bestD);
      }
    }
  }

  /**
   * The decoder's answer is the first nearest codeword; only when every
   * entry is at least 2^30 away does it fall back to index 0.
   */
  lemma NearestIsFirstClosest(book: seq<nat>, v: nat)
    requires |book| > 0
    ensures Nearest(book, v) < |book|
    ensures Distance(book[Nearest(book, v)], v) < NoDistance ==> IsNearest(book, v, Nearest(book, v))
    ensures Distance(book[Nearest(book, v)], v) >= NoDistance ==>
      Nearest(book, v) == 0 && forall t :: 0 <= t < |book| ==> Distance(book[t], v) >= NoDistance
  {
    ScanFromKeepsState(book, v, 0, 0, NoDistance);
  }

  class Golay24 {
    const codebook: seq<nat>

    constructor ()
      ensures codebook == BuildCodebook24()
    {
      codebook := BuildCodebook24();
    }

    /**
     * `decode_to_msg12`: scan the codebook for the entry closest to the
     * received word, keeping the first strict improvement and stopping at
     * an exact match. Distances never reach the initial `1 << 30` for words
     * shorter than 2^30 - 24 bits; if they did, index 0 would be returned.
     */
    method DecodeToMsg12(bits: seq<nat>) returns (idx: nat)
      requires |codebook| == CodebookSize
      ensures idx == Nearest(codebook, BitsValue(bits))
    {
      var v := BitsToInt(bits);
      var bestIdx := 0;
      var bestD := NoDistance;
      var i := 0;
      while i < |codebook|
        invariant i <= |codebook|
        invariant ScanFrom(codebook, v, i, bestIdx, bestD).0 == Nearest(codebook, v)
      {
        var d := Distance(codebook[i], v);
        if d < bestD {
          bestD := d;
          bestIdx := i;
          if d == 0 {
            ScanAfterExactMatch(codebook, v, i + 1, i);
            break;
          }
        }
        i := i + 1;
      }
      idx := bestIdx;
    }
  }
}
