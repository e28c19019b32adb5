/**
 * `SemID`: a text's 24-bit fingerprint. The text is normalised and embedded;
 * each of the two heads projects the embedding onto 24 directions, turns the
 * projection into 24 sign bits and decodes them to the nearest extended Golay
 * codeword's 12-bit message; the two messages are concatenated. The
 * projection matrices are built once, on first use.
 */
module SemId {
  import opened Bits
  import opened Golay
  import opened GolayProperties
  import opened SignTie
  import opened TextNorm

  /** L: the number of heads. */
  const Heads: nat := 2
  /** Each head contributes a 12-bit message. */
  const PartBits: nat := 12
  /** The fingerprint is below 2^24. */
  const IdLimit: nat := 0x100_0000
  /** N: each head projects onto 24 directions, one per Golay code bit. */
  const Directions: nat := 24

  datatype Option<T> = None | Some(value: T)

  /** `_hash32(s)`: the first four bytes of SHA-256, big-endian. */
  type Hash32 = x: nat | x < 0x1_0000_0000

  /**
   * One head of W: the dim x 24 matrix that `RandomState(seed)` draws and
   * whose columns are then normalised. Both steps are deterministic, so the
   * seed and the dimension determine the head.
   */
  datatype Head = Head(seed: Hash32, dim: nat)

  /** `x @ W[i]`: one real per direction. */
  type Projection = u: seq<real> | |u| == Directions witness seq(24, _ => 0.0)

  /**
   * What the model cannot compute: NFC, the sentence embedding, the product
   * `x @ W[i]`, and the two SHA-256 uses.
   */
  datatype Externals = Externals(
    nfc: string -> string,
    encode: string -> seq<real>,
    project: (seq<real>, Head) -> Projection,
    digest0: string -> byte,
    hash32: string -> Hash32)

  /** `f"{seed_base}::head{i}::W"`. */
  function HeadSeedKey(seedBase: string, i: nat): string
  {
    seedBase + "::head" + Decimal(i) + "::W"
  }

  /** The heads `_ensure_W` stacks for embeddings of dimension dim. */
  function BuildHeads(seedBase: string, dim: nat, hash32: string -> Hash32): seq<Head>
  {
    seq(Heads, i requires 0 <= i < Heads => Head(hash32(HeadSeedKey(seedBase, i)), dim))
  }

  /**
   * The 12-bit message head i decodes, with the codebook book, from the
   * text t whose embedding is x.
   */
  function HeadMessage(book: seq<nat>, w: seq<Head>, t: string, x: seq<real>, i: nat, ext: Externals): nat
    requires i < |w|
  {
    Nearest(book, BitsValue(SignBits(ext.project(x, w[i]), t, i, ext.digest0)))
  }

  lemma HeadMessageBound(book: seq<nat>, w: seq<Head>, t: string, x: seq<real>, i: nat, ext: Externals)
    requires i < |w| && |book| == CodebookSize
    ensures HeadMessage(book, w, t, x, i, ext) < CodebookSize
  {
    NearestIsFirstClosest(book, BitsValue(SignBits(ext.project(x, w[i]), t, i, ext.digest0)));
  }

  // ---------------------------------------------------------------------
  // The 24-bit identifier and its formats

  /** `(p0 << 12) | p1`. */
  function Combine(p0: nat, p1: nat): nat
  {
    Or(ShiftLeft(p0, PartBits), p1)
  }

  lemma {:induction false} OrShiftAdd(a: nat, b: nat, k: nat)
    requires b < Pow2(k)
    ensures Or(a * Pow2(k), b) == a * Pow2(k) + b
  {
    if k == 0 {
      assert b == 0;
      assert Or(a, 0) == a by {
        OrZeroRight(a);
      }
    } else {
      var x := a * Pow2(k);
      assert x == 2 * (a * Pow2(k - 1));
      OrShiftAdd(a, b / 2, k - 1);
      if x != 0 || b != 0 {
        assert Or(x, b) == 2 * Or(x / 2, b / 2) + b % 2;
      }
    }
  }

  lemma {:induction false} OrZeroRight(a: nat)
    ensures Or(a, 0) == a
    decreases a
  {
    if a != 0 {
      OrZeroRight(a / 2);
    }
  }

  /**
   * For two 12-bit parts the identifier is p0 * 4096 + p1, below 2^24, and
   * the parts can be read back from it.
   */
  lemma CombineParts(p0: nat, p1: nat)
    requires p0 < CodebookSize && p1 < CodebookSize
    ensures Combine(p0, p1) == p0 * CodebookSize + p1
    ensures Combine(p0, p1) < IdLimit
    ensures Combine(p0, p1) / CodebookSize == p0 && Combine(p0, p1) % CodebookSize == p1
  {
    Pow2Values();
    OrShiftAdd(p0, p1, PartBits);
  }

  /** `v.to_bytes(3, "big")`, which raises OverflowError from 2^24 on. */
  function ToBytes3(v: nat): Option<seq<byte>>
  {
    if v >= IdLimit then None
    else Some([(v / 0x1_0000) as byte, (v / 0x100 % 0x100) as byte, (v % 0x100) as byte])
  }

  /** `int.from_bytes(bs, "big")` for three bytes. */
  function FromBytes3(bs: seq<byte>): nat
    requires |bs| == 3
  {
    bs[0] as nat * 0x1_0000 + bs[1] as nat * 0x100 + bs[2] as nat
  }

  /** Below 2^24 the three big-endian bytes give the value back. */
  lemma BytesRoundTrip(v: nat)
    ensures ToBytes3(v).Some? <==> v < IdLimit
    ensures v < IdLimit ==> |ToBytes3(v).value| == 3 && FromBytes3(ToBytes3(v).value) == v
  {
  }

  /** Every three bytes are the encoding of exactly one value. */
  lemma BytesRoundTripBack(bs: seq<byte>)
    requires |bs| == 3
    ensures ToBytes3(FromBytes3(bs)) == Some(bs)
  {
    var b0, b1, b2 := bs[0] as nat, bs[1] as nat, bs[2] as nat;
    var v := FromBytes3(bs);
    assert v / 0x1_0000 == b0;
    assert v / 0x100 == b0 * 0x100 + b1;
    assert v % 0x100 == b2;
    assert v < IdLimit;
    assert ToBytes3(v).value == [bs[0], bs[1], bs[2]];
    assert [bs[0], bs[1], bs[2]] == bs;
  }

  /** A lowercase hex digit, as `bytes.hex()` writes them. */
  predicate IsHexDigit(c: char)
  {
    '0' <= c <= '9' || 'a' <= c <= 'f'
  }

  /** The lowercase hex digit for a nibble; reading it back gives the nibble. */
  function HexDigit(d: nat): (c: char)
    requires d < 16
    ensures IsHexDigit(c) && HexValue(c) == d
  {
    if d < 10 then ('0' as int + d) as char else ('a' as int + d - 10) as char
  }

  /** The two lowercase hex digits of one byte, high nibble first. */
  function HexPair(b: byte): (s: string)
    ensures |s| == 2 && IsHexDigit(s[0]) && IsHexDigit(s[1])
  {
    [HexDigit(b as nat / 16), HexDigit(b as nat % 16)]
  }

  /** `bytes.hex()`. */
  function Hex(bs: seq<byte>): (s: string)
    ensures |s| == 2 * |bs|
    ensures forall i :: 0 <= i < |s| ==> IsHexDigit(s[i])
  {
    if bs == [] then [] else HexPair(bs[0]) + Hex(bs[1..])
  }

  function HexValue(c: char): nat
  {
    if '0' <= c <= '9' then c as nat - '0' as nat
    else if 'a' <= c <= 'f' then c as nat - 'a' as nat + 10
    else 0
  }

  /** The byte two hex digits stand for. */
  function PairValue(hi: char, lo: char): byte
  {
    ((16 * HexValue(hi) + HexValue(lo)) % 256) as byte
  }

  /** `bytes.fromhex(s)` for a well-formed s. */
  function FromHex(s: string): (bs: seq<byte>)
    requires |s| % 2 == 0
    ensures |bs| == |s| / 2
  {
    if s == [] then [] else [PairValue(s[0], s[1])] + FromHex(s[2..])
  }

  lemma HexPairValue(b: byte)
    ensures PairValue(HexPair(b)[0], HexPair(b)[1]) == b
  {
    var hi, lo := b as nat / 16, b as nat % 16;
    assert b as nat == 16 * hi + lo;
  }

  /** The hex string decodes back to the bytes. */
  lemma {:induction false} HexRoundTrip(bs: seq<byte>)
    ensures FromHex(Hex(bs)) == bs
  {
    if bs != [] {
      var s := Hex(bs);
      HexPairValue(bs[0]);
      HexRoundTrip(bs[1..]);
      assert s[0] == HexPair(bs[0])[0] && s[1] == HexPair(bs[0])[1];
      assert s[2..] == Hex(bs[1..]);
    }
  }

  /** The fingerprint's hex form: the hex of its three big-endian bytes. */
  function HexId(v: nat): string
    requires v < IdLimit
  {
    Hex(ToBytes3(v).value)
  }

  /** The fingerprint's hex form: six lowercase hex digits that decode to its bytes. */
  lemma IdHexShape(v: nat)
    requires v < IdLimit
    ensures var s := HexId(v);
      |s| == 6 && (forall i :: 0 <= i < |s| ==> IsHexDigit(s[i])) && FromHex(s) == ToBytes3(v).value
  {
    HexRoundTrip(ToBytes3(v).value);
  }

  // ---------------------------------------------------------------------
  // The identifier as a function of the heads

  /** Every head was built for embeddings of x's dimension, so `x @ W[i]` is defined. */
  predicate Fits(w: seq<Head>, x: seq<real>)
  {
    forall i :: 0 <= i < |w| ==> w[i].dim == |x|
  }

  /** All heads were built for the same dimension, as `_ensure_W` builds them. */
  predicate SameDim(w: seq<Head>)
  {
    forall i :: 0 <= i < |w| ==> w[i].dim == w[0].dim
  }

  /**
   * What `id24` returns for text once the heads are w: the two decoded
   * messages combined, or None where numpy raises because the embedding's
   * dimension is not the one the heads were built for.
   */
  function IdWith(book: seq<nat>, w: seq<Head>, text: string, ext: Externals): Option<nat>
    requires |w| == Heads
  {
    var t := Normalize(text, ext.nfc);
    var x := ext.encode(t);
    if Fits(w, x) then Some(Combine(HeadMessage(book, w, t, x, 0, ext), HeadMessage(book, w, t, x, 1, ext)))
    else None
  }

  /**
   * The identifier a fresh `SemID` gives text: the heads are built for this
   * text's own embedding dimension.
   */
  function FreshId(seedBase: string, text: string, ext: Externals): (v: nat)
    ensures v < IdLimit
  {
    var t := Normalize(text, ext.nfc);
    var x := ext.encode(t);
    var w := BuildHeads(seedBase, |x|, ext.hash32);
    var book := BuildCodebook24();
    HeadMessageBound(book, w, t, x, 0, ext);
    HeadMessageBound(book, w, t, x, 1, ext);
    CombineParts(HeadMessage(book, w, t, x, 0, ext), HeadMessage(book, w, t, x, 1, ext));
    Combine(HeadMessage(book, w, t, x, 0, ext), HeadMessage(book, w, t, x, 1, ext))
  }

  /** The heads `_ensure_W` builds all have the dimension asked for. */
  lemma BuiltHeadsFit(seedBase: string, dim: nat, hash32: string -> Hash32, x: seq<real>)
    ensures |BuildHeads(seedBase, dim, hash32)| == Heads && SameDim(BuildHeads(seedBase, dim, hash32))
    ensures Fits(BuildHeads(seedBase, dim, hash32), x) <==> dim == |x|
  {
    var w := BuildHeads(seedBase, dim, hash32);
    assert w[0].dim == dim;
  }

  /** Heads of one dimension fit an embedding exactly when the first one does. */
  lemma SameDimFits(w: seq<Head>, x: seq<real>)
    requires |w| == Heads && SameDim(w)
    ensures Fits(w, x) <==> w[0].dim == |x|
  {
  }

  /**
   * When it is defined, the identifier is message(head 0) * 4096 +
   * message(head 1), below 2^24, and the two messages can be read back.
   */
  lemma IdWithParts(book: seq<nat>, w: seq<Head>, text: string, ext: Externals)
    requires |w| == Heads && |book| == CodebookSize
    ensures var t := Normalize(text, ext.nfc); var x := ext.encode(t);
      var v := IdWith(book, w, text, ext);
      (v.Some? <==> Fits(w, x)) &&
      (v.Some? ==>
         v.value < IdLimit &&
         v.value / CodebookSize == HeadMessage(book, w, t, x, 0, ext) &&
         v.value % CodebookSize == HeadMessage(book, w, t, x, 1, ext))
  {
    var t := Normalize(text, ext.nfc);
    var x := ext.encode(t);
    HeadMessageBound(book, w, t, x, 0, ext);
    HeadMessageBound(book, w, t, x, 1, ext);
    CombineParts(HeadMessage(book, w, t, x, 0, ext), HeadMessage(book, w, t, x, 1, ext));
  }

  /**
   * With heads built for dimension dim, a text gets an identifier exactly
   * when its embedding has dimension dim; a fresh object always gives one,
   * and it is `FreshId`.
   */
  lemma IdWithBuiltHeads(seedBase: string, dim: nat, text: string, ext: Externals)
    ensures var x := ext.encode(Normalize(text, ext.nfc));
      var v := IdWith(BuildCodebook24(), BuildHeads(seedBase, dim, ext.hash32), text, ext);
      (v.None? <==> dim != |x|) && (dim == |x| ==> v == Some(FreshId(seedBase, text, ext)))
  {
    var x := ext.encode(Normalize(text, ext.nfc));
    BuiltHeadsFit(seedBase, dim, ext.hash32, x);
  }

  /**
   * Robustness of one head: if the head's 24 sign bits are within Hamming
   * distance 3 of codeword m, the head decodes to m.
   */
  lemma HeadNear(w: seq<Head>, t: string, x: seq<real>, i: nat, ext: Externals, m: nat)
    requires i < |w| && m < CodebookSize
    requires Distance(Codeword(m), BitsValue(SignBits(ext.project(x, w[i]), t, i, ext.digest0))) <= 3
    ensures HeadMessage(BuildCodebook24(), w, t, x, i, ext) == m
  {
    DecodeNear(m, BitsValue(SignBits(ext.project(x, w[i]), t, i, ext.digest0)));
  }

  // ---------------------------------------------------------------------
  // The orchestration object

  /** `SEED_BASE`, the default root of every head seed. */
  const SeedBase: string := "semaddr-en-g-v1"

  class SemID {
    const seedBase: string
    const golay: Golay24
    /** W: None until the first call that needs it. */
    var W: Option<seq<Head>>

    ghost predicate Valid()
      reads this
    {
      golay.codebook == BuildCodebook24() && (W.Some? ==> |W.value| == Heads && SameDim(W.value))
    }

    constructor (seedBase: string := SeedBase)
      ensures this.seedBase == seedBase && golay.codebook == BuildCodebook24() && W == None && Valid()
    {
      this.seedBase := seedBase;
      golay := new Golay24();
      W := None;
    }

    /**
     * `_ensure_W`: build the heads once, for the first dimension asked for;
     * every later call, with any dimension, leaves W as it is.
     */
    method EnsureW(dim: nat, hash32: string -> Hash32)
      requires Valid()
      modifies this
      ensures Valid()
      ensures old(W).Some? ==> W == old(W)
      ensures old(W).None? ==> W == Some(BuildHeads(seedBase, dim, hash32))
      ensures W.Some? && |W.value| == Heads
    {
      if W.Some? {
        return;
      }
      var ws: seq<Head> := [];
      var i := 0;
      while i < Heads
        invariant 0 <= i <= Heads
        invariant ws == BuildHeads(seedBase, dim, hash32)[..i]
      {
        var seedW := hash32(HeadSeedKey(seedBase, i));
        ws := ws + [Head(seedW, dim)];
        i := i + 1;
      }
      assert ws == BuildHeads(seedBase, dim, hash32);
      BuiltHeadsFit(seedBase, dim, hash32, []);
      W := Some(ws);
    }

    /**
     * One pass of the head loop: project, take sign bits, decode. The
     * product `x @ W[i]` raises when x's dimension is not the head's.
     */
    method DecodeHead(t: string, x: seq<real>, i: nat, ext: Externals) returns (msg: Option<nat>)
      requires |golay.codebook| == CodebookSize && W.Some? && i < |W.value|
      ensures msg.Some? <==> W.value[i].dim == |x|
      ensures msg.Some? ==> msg.value == HeadMessage(golay.codebook, W.value, t, x, i, ext) && msg.value < CodebookSize
    {
      if W.value[i].dim != |x| {
        return None;
      }
      var u := ext.project(x, W.value[i]);
      var bits := SignWithTie(u, t, i, ext.digest0);
      var m := golay.DecodeToMsg12(bits);
      HeadMessageBound(golay.codebook, W.value, t, x, i, ext);
      msg := Some(m);
    }

    /** The loop over the heads: one decoded message per head, or the error of the first head that does not fit. */
    method DecodeAll(t: string, x: seq<real>, ext: Externals) returns (parts: Option<seq<nat>>)
      requires |golay.codebook| == CodebookSize && W.Some? && |W.value| == Heads
      ensures parts.Some? <==> Fits(W.value, x)
      ensures parts.Some? ==> |parts.value| == Heads
      ensures parts.Some? ==> forall i :: 0 <= i < Heads ==> parts.value[i] == HeadMessage(golay.codebook, W.value, t, x, i, ext)
      ensures parts.Some? ==> forall i :: 0 <= i < Heads ==> parts.value[i] < CodebookSize
    {
      var ps: seq<nat> := [];
      var w, book := W.value, golay.codebook;
      var i := 0;
      while i < Heads
        invariant 0 <= i <= Heads && |ps| == i
        invariant forall k :: 0 <= k < i ==> w[k].dim == |x|
        invariant forall k :: 0 <= k < i ==> ps[k] == HeadMessage(book, w, t, x, k, ext) && ps[k] < CodebookSize
      {
        var msg := DecodeHead(t, x, i, ext);
        if msg.None? {
          return None;
        }
        ps := ps + [msg.value];
        i := i + 1;
      }
      parts := Some(ps);
    }

    /** `embed` followed by `_ensure_W` and the per-head decoding. */
    method DecodeHeads(text: string, ext: Externals) returns (parts: Option<seq<nat>>)
      requires Valid()
      modifies this
      ensures Valid() && W.Some?
      ensures old(W).Some? ==> W == old(W)
      ensures old(W).None? ==> W == Some(BuildHeads(seedBase, |ext.encode(Normalize(text, ext.nfc))|, ext.hash32))
      ensures var t := Normalize(text, ext.nfc); var x := ext.encode(t);
        (parts.Some? <==> Fits(W.value, x)) &&
        (parts.Some? ==>
           |parts.value| == Heads &&
           (forall i :: 0 <= i < Heads ==> parts.value[i] == HeadMessage(golay.codebook, W.value, t, x, i, ext)) &&
           (forall i :: 0 <= i < Heads ==> parts.value[i] < CodebookSize))
    {
      var t := Normalize(text, ext.nfc);
      var x := ext.encode(t);
      EnsureW(|x|, ext.hash32);
      parts := DecodeAll(t, x, ext);
    }

    /**
     * `id24`: the two 12-bit messages, head 0 in the high half. It fails
     * exactly when the text's embedding dimension is not the one W was
     * built for; on a fresh object it never fails and gives `FreshId`.
     */
    method Id24(text: string, ext: Externals) returns (v: Option<nat>)
      requires Valid()
      modifies this
      ensures Valid() && W.Some?
      ensures old(W).Some? ==> W == old(W)
      ensures old(W).None? ==> W == Some(BuildHeads(seedBase, |ext.encode(Normalize(text, ext.nfc))|, ext.hash32))
      ensures v == IdWith(golay.codebook, W.value, text, ext)
      ensures v.None? <==> W.value[0].dim != |ext.encode(Normalize(text, ext.nfc))|
      ensures old(W).None? ==> v == Some(FreshId(seedBase, text, ext))
    {
      var parts := DecodeHeads(text, ext);
      if parts.None? {
        v := None;
      } else {
        v := Some(Combine(parts.value[0], parts.value[1]));
      }
      IdFacts(text, ext);
    }

    /** What `Id24` and its siblings need about the identifier for the current heads. */
    lemma IdFacts(text: string, ext: Externals)
      requires Valid() && W.Some?
      ensures W.value[0].dim != |ext.encode(Normalize(text, ext.nfc))| <==> !Fits(W.value, ext.encode(Normalize(text, ext.nfc)))
      ensures W == Some(BuildHeads(seedBase, |ext.encode(Normalize(text, ext.nfc))|, ext.hash32)) ==>
        IdWith(golay.codebook, W.value, text, ext) == Some(FreshId(seedBase, text, ext))
    {
      var x := ext.encode(Normalize(text, ext.nfc));
      SameDimFits(W.value, x);
      IdWithBuiltHeads(seedBase, |x|, text, ext);
    }

    /** `id_parts`: both messages and their combination, or the same error as `id24`. */
    method IdParts(text: string, ext: Externals) returns (r: Option<(nat, nat, nat)>)
      requires Valid()
      modifies this
      ensures Valid() && W.Some?
      ensures old(W).Some? ==> W == old(W)
      ensures old(W).None? ==> W == Some(BuildHeads(seedBase, |ext.encode(Normalize(text, ext.nfc))|, ext.hash32))
      ensures r.Some? <==> IdWith(golay.codebook, W.value, text, ext).Some?
      ensures var t := Normalize(text, ext.nfc); var x := ext.encode(t);
        r.Some? ==>
          r.value.0 == HeadMessage(golay.codebook, W.value, t, x, 0, ext) &&
          r.value.1 == HeadMessage(golay.codebook, W.value, t, x, 1, ext) &&
          r.value.0 < CodebookSize && r.value.1 < CodebookSize &&
          r.value.2 == r.value.0 * CodebookSize + r.value.1 &&
          r.value.2 == IdWith(golay.codebook, W.value, text, ext).value
      ensures old(W).None? ==> r.Some? && r.value.2 == FreshId(seedBase, text, ext)
    {
      var parts := DecodeHeads(text, ext);
      IdFacts(text, ext);
      if parts.None? {
        r := None;
      } else {
        var a0, a1 := parts.value[0], parts.value[1];
        CombineParts(a0, a1);
        r := Some((a0, a1, Combine(a0, a1)));
      }
    }

    /** `id_bytes`: the identifier as three big-endian bytes. */
    method IdBytes(text: string, ext: Externals) returns (r: Option<seq<byte>>)
      requires Valid()
      modifies this
      ensures Valid() && W.Some?
      ensures old(W).Some? ==> W == old(W)
      ensures old(W).None? ==> W == Some(BuildHeads(seedBase, |ext.encode(Normalize(text, ext.nfc))|, ext.hash32))
      ensures r.Some? <==> IdWith(golay.codebook, W.value, text, ext).Some?
      ensures r.Some? ==> |r.value| == 3 && FromBytes3(r.value) == IdWith(golay.codebook, W.value, text, ext).value
      ensures old(W).None? ==> r == ToBytes3(FreshId(seedBase, text, ext)) && r.Some?
    {
      var v := Id24(text, ext);
      if v.None? {
        r := None;
      } else {
        IdWithParts(golay.codebook, W.value, text, ext);
        BytesRoundTrip(v.value);
        r := ToBytes3(v.value);
      }
    }

    /** `id_hex`: the three bytes as six lowercase hex digits. */
    method IdHex(text: string, ext: Externals) returns (r: Option<string>)
      requires Valid()
      modifies this
      ensures Valid() && W.Some?
      ensures old(W).Some? ==> W == old(W)
      ensures old(W).None? ==> W == Some(BuildHeads(seedBase, |ext.encode(Normalize(text, ext.nfc))|, ext.hash32))
      ensures r.Some? <==> IdWith(golay.codebook, W.value, text, ext).Some?
      ensures r.Some? ==> |r.value| == 6 && forall i :: 0 <= i < |r.value| ==> IsHexDigit(r.value[i])
      ensures r.Some? ==> FromBytes3(FromHex(r.value)) == IdWith(golay.codebook, W.value, text, ext).value
      ensures old(W).None? ==> r == Some(HexId(FreshId(seedBase, text, ext)))
    {
      var bs := IdBytes(text, ext);
      if bs.None? {
        r := None;
      } else {
        HexRoundTrip(bs.value);
        r := Some(Hex(bs.value));
      }
    }
  }
}
