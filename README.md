# meanhash fingerprint encoder, modelled in Dafny

This project models the core of meanhash, the encoder that turns a text into a
24-bit semantic fingerprint (`meanhash/gold.py`). It also models the bit-string
clustering helper that sits beside it (`meanhash/convert.py`).

How the encoder works:

- **Normalising.** The text is NFC-normalised. Then its whitespace is
  normalised (`text_norm`).
- **Projecting.** The text is embedded, and each of two heads projects the
  embedding onto 24 directions.
- **Sign bits.** Each projection becomes 24 sign bits (`sign_with_tie`). A
  coordinate closer to zero than EPS takes its bit from a SHA-256 digest of the
  text, the head and the position.
- **Decoding.** The 24 bits are decoded to the 12-bit message of the nearest
  codeword of the extended binary Golay code [24,12,8] (`Golay24`). Because
  any two codewords differ in at least 8 places, up to three flipped bits are
  corrected.
- **Combining.** The two messages are concatenated into the fingerprint
  (`SemID.id24`). It is also shown as three big-endian bytes and six hex digits.

`ApproximateBitstring` keeps a table of cluster representatives. It labels a
bit-string with the label of the first representative within Hamming distance
n. If there is none, the bit-string becomes a new representative.

Files, one module each:

- `bits.dfy` (`Bits`): Python's non-negative integers as bit vectors. It has
  bit access, XOR/AND/OR, shifts, `bit_length` and `bit_count`, and the
  facts the rest uses.
- `gf2poly.dfy` (`Gf2Poly`): the GF(2) polynomial helpers `_poly_deg` and
  `_poly_divmod`. It proves the loop against the division theorem, uniqueness
  of the quotient and remainder, and linearity of the remainder.
- `golay.dfy` (`Golay`): the generator polynomial, `_encode23`,
  `_extend24`, the codebook, `_bits_to_int`, and the class `Golay24` with
  the nearest-codeword scan `decode_to_msg12`.
- `golay_code.dfy` (`GolayCode`): the check bits as XOR of generator rows,
  and the minimum weight 7 of the [23,12] code.
- `golay_props.dfy` (`GolayProperties`): the extended code. It covers parity,
  the systematic layout, divisibility, linearity, minimum distance 8, and
  correct decoding within radius 3.
- `sign_tie.dfy` (`SignTie`): `sign_with_tie` and its tie-break key.
- `text_norm.dfy` (`TextNorm`): the whitespace part of `text_norm`.
- `semid.dfy` (`SemId`): the class `SemID`. It covers lazy construction of
  the projection heads, the per-head decoding, and `id24`, `id_parts`,
  `id_bytes` and `id_hex`.
- `convert.dfy` (`Convert`): the live `hamming_distance` and the class
  `ApproximateBitstring`.

Two conventions:

- Polynomials and words are natural numbers, and bit j is the coefficient of
  x^j. Big-endian order appears only in `id_bytes`.
- The outside world is passed in as functions. That covers NFC, the embedding
  model, the projection `x @ W[i]`, and the two uses of SHA-256 (first digest
  byte, and the 32-bit seed).

`_ensure_W` builds the matrices once, for the dimension of the first text's
embedding, and never rebuilds them. A later text whose embedding has another
dimension makes `x @ self.W[i]` raise. The model returns `None` there:
`SemId.SemID.Id24` and its siblings fail exactly when the embedding's
dimension differs from the one W was built for, and never on a fresh object.

## Model

| member | source | states |
|---|---|---|
| Gf2Poly.PolyDeg | meanhash/gold.py:57-59 | the degree is -1 exactly for the zero polynomial |
| Gf2Poly.PolyDegBounds | meanhash/gold.py:57-59 | a non-zero polynomial of degree d lies in [2^d, 2^(d+1)), so the degree is that of its leading coefficient |
| Gf2Poly.PolyDivMod | meanhash/gold.py:61-69 | quotient and remainder satisfy dividend = q(x)·divisor(x) + r(x) over GF(2), with deg r < deg divisor |
| Gf2Poly.PolyDivModLoop | meanhash/gold.py:61-69 | the cancel-the-leading-term loop terminates and returns exactly the quotient and remainder of the division theorem; with divisor 0 it is called only on dividend 0 and returns (0, 0) |
| Gf2Poly.LoopStep | meanhash/gold.py:65-68 | one iteration strictly lowers the bit length of r and leaves the rest of the loop's result unchanged |
| Gf2Poly.DivisionUnique | meanhash/gold.py:61-69 | two (quotient, remainder) pairs with the same dividend and short remainders are equal |
| Gf2Poly.DivModCharacterized | meanhash/gold.py:61-69 | any q, r with dividend = q·d + r and deg r < deg d are what `_poly_divmod` returns |
| Gf2Poly.PolyModXor | meanhash/gold.py:61-69 | the remainder is linear: (a + b) mod d = (a mod d) + (b mod d) |
| Gf2Poly.PolyModMultiple | meanhash/gold.py:61-69 | a multiple of d leaves remainder 0 |
| Gf2Poly.PolyModSmall | meanhash/gold.py:61-69 | a dividend of lower degree than d is its own remainder |
| Gf2Poly.PolyModDouble | meanhash/gold.py:61-69 | multiplying by x commutes with reduction mod d |
| Golay.GeneratorBits | meanhash/gold.py:50-51 | g has exactly the coefficients of x^11, x^9, x^7, x^6, x^5, x and 1 |
| Golay.GeneratorDegree | meanhash/gold.py:50-54 | g has degree 11 = n - k |
| Golay.BuildCodebook24 | meanhash/gold.py:82-85 | the codebook has 4096 = 2^k entries |
| Golay.BitsToInt | meanhash/gold.py:87-95 | the loop sets bit j of v exactly when `bits[j] & 1` is set, and v < 2^len(bits) |
| Golay.BitsValueBound | meanhash/gold.py:87-95 | the assembled integer is below 2^len(bits) |
| Golay.ScanAfterExactMatch | meanhash/gold.py:110-111 | after an exact match the rest of the scan cannot change the answer, so the early `break` is sound |
| Golay.NearestIsFirstClosest | meanhash/gold.py:97-112 | the decoder returns a valid index whose codeword is nearest to the word, the first such in codebook order; only if every entry is 2^30 or more away does it return 0 |
| Golay.Golay24.constructor | meanhash/gold.py:49-55 | the codebook is built once, entry m the extended codeword of m |
| Golay.Golay24.DecodeToMsg12 | meanhash/gold.py:97-112 | the scan with its early exit returns the first nearest codeword's index for the word `_bits_to_int(bits)` |
| GolayCode.RemainderFits | meanhash/gold.py:71-75 | every remainder mod g fits in the 11 check bits |
| GolayCode.EncodeBits | meanhash/gold.py:71-75 | `_encode23(m)` holds the check bits in bits 0..10, m in bits 11..22, nothing above |
| GolayCode.EncodeBound | meanhash/gold.py:71-75 | `_encode23(m)` is a 23-bit word |
| GolayCode.EncodeWeight | meanhash/gold.py:71-75 | the weight of the codeword is the weight of the check bits plus that of the message |
| GolayCode.MinWeight23 | meanhash/gold.py:71-75 | every codeword of a non-zero message has weight at least 7 |
| GolayProperties.ExtendBits | meanhash/gold.py:77-80 | `_extend24` keeps bits 0..22 and puts the parity of the word in bit 23, nothing above |
| GolayProperties.ExtendWeight | meanhash/gold.py:77-80 | the extended word has even weight (weight rounded up to even) and is below 2^24 |
| GolayProperties.CodebookEntry | meanhash/gold.py:82-85 | codebook entry m is codeword m, a 24-bit word of even weight |
| GolayProperties.Systematic | meanhash/gold.py:71-85 | bits 11..22 of codeword m spell out m |
| GolayProperties.LowPart | meanhash/gold.py:77-85 | the low 23 bits of codeword m are `_encode23(m)` |
| GolayProperties.Divisible | meanhash/gold.py:71-85 | the low 23 bits of every codeword are a multiple of g(x) |
| GolayProperties.CheckXor | meanhash/gold.py:71-75 | the check bits of a XOR b are the XOR of the check bits |
| GolayProperties.EncodeXor | meanhash/gold.py:71-75 | `_encode23` is GF(2)-linear |
| GolayProperties.CodewordXor | meanhash/gold.py:71-85 | the extended encoding is GF(2)-linear |
| GolayProperties.MinWeight24 | meanhash/gold.py:71-85 | every non-zero extended codeword has weight at least 8 |
| GolayProperties.MinDistance | meanhash/gold.py:42-48 | codewords of different messages differ in at least 8 positions |
| GolayProperties.EncodeOne | meanhash/gold.py:71-75 | `_encode23(1)` is g(x): x^11 plus the remainder g(x) - x^11 |
| GolayProperties.GeneratorWeight | meanhash/gold.py:50-51 | g(x) has seven terms |
| GolayProperties.CodewordOne | meanhash/gold.py:71-85 | codeword 1 is g(x) with the parity bit 23 set, since g(x) has odd weight |
| GolayProperties.MinDistanceAttained | meanhash/gold.py:42-48 | the minimum distance is exactly 8: codewords 0 and 1 differ in 8 positions |
| GolayProperties.DecodeRadius | meanhash/gold.py:97-112 | flipping at most 3 bits of codeword m still decodes to m |
| GolayProperties.DecodeEncode | meanhash/gold.py:97-112 | decoding codeword m gives m |
| GolayProperties.DecodeNear | meanhash/gold.py:97-112 | any word within distance 3 of codeword m decodes to m |
| SignTie.Abs | meanhash/gold.py:34 | the magnitude is non-negative and equals x or -x |
| SignTie.DecimalRoundTrip | meanhash/gold.py:38 | the decimal digits an f-string writes for an int read back to that int |
| SignTie.TieBit | meanhash/gold.py:38-39 | the tie-break bit is 0 or 1 |
| SignTie.SignBitsRule | meanhash/gold.py:29-40 | each bit is 0/1; outside the EPS band it is 1 exactly for non-negative coordinates; inside it is the low bit of the digest of the tie key |
| SignTie.SignBitsStable | meanhash/gold.py:29-40 | projections that agree on which coordinates are in the band and on the signs outside it give the same bits |
| SignTie.TieKeyInjective | meanhash/gold.py:38 | different (head, position) pairs hash different keys for the same text |
| SignTie.SignWithTie | meanhash/gold.py:29-40 | the in-place overwrite loop yields exactly the bits of the rule |
| TextNorm.ReplaceTabsNewlines | meanhash/gold.py:25 | the result has no tab and no newline, the same length, and only whitespace positions change |
| TextNorm.TrimStart | meanhash/gold.py:26 | the result is a suffix of the input and does not start with whitespace |
| TextNorm.TrimEnd | meanhash/gold.py:26 | the result is a prefix of the input and does not end with whitespace |
| TextNorm.CollapseShape | meanhash/gold.py:26 | after `re.sub(r"\s+", " ")` the only whitespace is the plain space and no two whitespace characters are adjacent |
| TextNorm.CollapseWords | meanhash/gold.py:26 | `re.sub(r"\s+", " ", s)` is exactly the words of s (`s.split()`) joined by single spaces, plus one space in front if s starts with whitespace and one behind if it ends with whitespace after a word |
| TextNorm.StripCollapse | meanhash/gold.py:26 | collapsing and then `strip()` gives `" ".join(s.split())` |
| TextNorm.ReplaceWords | meanhash/gold.py:25 | turning tabs and newlines into spaces does not change the words |
| TextNorm.NormalizeWords | meanhash/gold.py:22-27 | `text_norm(s)` is `" ".join(nfc(s).split())` |
| TextNorm.CollapseKeepsText | meanhash/gold.py:26 | collapsing keeps every non-whitespace character, in order |
| TextNorm.StripShape | meanhash/gold.py:26 | `strip()` leaves nothing to strip and keeps the text |
| TextNorm.NormalizeShape | meanhash/gold.py:22-27 | the normalised text is the words of the NFC form joined by single spaces; so its only whitespace is the plain space, it has no tab or newline, no double whitespace, no leading or trailing whitespace, and the non-whitespace characters of the NFC form in order |
| TextNorm.NormalizeIdempotent | meanhash/gold.py:22-27 | normalising the whitespace of a normalised text changes nothing |
| SemId.HeadMessageBound | meanhash/gold.py:153-157 | each head's decoded message is a 12-bit value |
| SemId.CombineParts | meanhash/gold.py:159 | shifting p0 left by 12 bits and OR-ing p1, for two 12-bit parts, gives p0·4096 + p1 < 2^24, and both parts are recovered from it |
| SemId.BytesRoundTrip | meanhash/gold.py:161-163 | `to_bytes(3, "big")` succeeds exactly below 2^24 and the three bytes read back to the value |
| SemId.BytesRoundTripBack | meanhash/gold.py:161-163 | every three bytes are the encoding of the value they spell |
| SemId.HexDigit | meanhash/gold.py:165-166 | each nibble has a lowercase hex digit that reads back to it |
| SemId.Hex | meanhash/gold.py:165-166 | `hex()` writes two lowercase hex digits per byte |
| SemId.HexRoundTrip | meanhash/gold.py:165-166 | the hex string decodes back to the bytes |
| SemId.IdHexShape | meanhash/gold.py:161-166 | the fingerprint's hex form is six lowercase hex digits that decode to its three bytes |
| SemId.FreshId | meanhash/gold.py:145-159 | the identifier a fresh object gives a text is below 2^24 |
| SemId.BuiltHeadsFit | meanhash/gold.py:128-138 | `_ensure_W` builds two heads of one dimension, and they fit an embedding exactly when it has that dimension |
| SemId.IdWithParts | meanhash/gold.py:145-159 | with heads w, `id24` succeeds exactly when every head fits the embedding, and then its value is below 2^24 with message(head 0) in the high 12 bits and message(head 1) in the low 12 bits |
| SemId.IdWithBuiltHeads | meanhash/gold.py:128-159 | with heads built for dimension d, a text gets an identifier exactly when its embedding has dimension d, and with d its own dimension that identifier is `FreshId` |
| SemId.HeadNear | meanhash/gold.py:152-157 | a head whose sign bits are within distance 3 of codeword m decodes to m |
| SemId.SemID.constructor | meanhash/gold.py:116-126 | W starts unset, the seed base defaults to `SEED_BASE`, and the Golay decoder holds the full codebook |
| SemId.SemID.EnsureW | meanhash/gold.py:128-138 | the first call builds one head per index i from the seed of `"{seed_base}::head{i}::W"` and the dimension; a later call leaves W as it is, whatever the dimension |
| SemId.SemID.DecodeHead | meanhash/gold.py:154-156 | one head: an error exactly when the embedding's dimension is not the head's, otherwise project, sign bits with tie-break, and the nearest-codeword message, below 4096 |
| SemId.SemID.DecodeAll | meanhash/gold.py:152-157 | the head loop fails exactly when some head does not fit the embedding, and otherwise yields each head's decoded message |
| SemId.SemID.DecodeHeads | meanhash/gold.py:149-157 | normalise, embed, ensure W for the embedding's dimension (a fresh object builds it for this one), then decode both heads, failing exactly when they do not fit |
| SemId.SemID.Id24 | meanhash/gold.py:145-159 | the result is the identifier for the current heads; it fails exactly when the embedding's dimension differs from W's, and on a fresh object it builds W for this text and returns `FreshId` |
| SemId.SemID.IdParts | meanhash/gold.py:168-177 | both head messages and their combination, which is `id24`'s value; it fails exactly when `id24` would, and never on a fresh object |
| SemId.SemID.IdBytes | meanhash/gold.py:161-163 | three bytes whose big-endian value is the identifier, with the same failure as `id24`; on a fresh object the bytes of `FreshId` |
| SemId.SemID.IdHex | meanhash/gold.py:165-166 | six lowercase hex digits that decode to the identifier's bytes, with the same failure as `id24`; on a fresh object the hex of `FreshId` |
| Convert.HammingDistance | meanhash/convert.py:37-41 | an error exactly when the lengths differ |
| Convert.DiffCountPositions | meanhash/convert.py:41 | the running count of unequal pairs is the number of differing positions |
| Convert.DistanceCountsPositions | meanhash/convert.py:37-41 | for equal lengths the distance is the number of positions where the strings differ |
| Convert.DistanceSymmetric | meanhash/convert.py:37-41 | distance (and the error case) is symmetric |
| Convert.DistanceBounds | meanhash/convert.py:37-41 | the distance is at most the length, and 0 exactly when the strings are equal |
| Convert.Scan | meanhash/convert.py:26-29 | a found representative index lies in the scanned range |
| Convert.ScanFinds | meanhash/convert.py:26-29 | the scan stops at the first representative within n (all earlier ones of equal length and farther), raises at the first one of another length, or reports all far |
| Convert.ApproximateKeepsState | meanhash/convert.py:20-34 | every key stays its own label, keys stay distinct in insertion order, at most one is appended, nothing is removed or relabelled, an error changes nothing |
| Convert.AddCluster | meanhash/convert.py:33 | appending a new self-labelled representative keeps the table well formed |
| Convert.ApproximateOutcome | meanhash/convert.py:20-34 | a representative within n gives its label and leaves the table alone; otherwise the query is appended as its own label and returned, every old representative being farther than n |
| Convert.RepeatQuery | meanhash/convert.py:20-34 | with n >= 0, asking again for the same bit-string gives the same label and changes nothing |
| Convert.ApproximateBitstring.constructor | meanhash/convert.py:16-18 | the table starts empty |
| Convert.ApproximateBitstring.Query | meanhash/convert.py:20-34 | the scan loop returns the label, or the error, and leaves the table exactly as `Approximate` says |

## Left out

- SHA-256, NFC normalisation and the sentence-embedding model are parameters
  (the `Externals` of `SemId`). So is the product `x @ W[i]`, apart from its
  dimension check, which is modelled. Their outputs are uninterpreted
  functions.
- `RandomState` is not a parameter: each projection head is modelled by its
  seed and dimension only (`SemId.Head`). The float32 matrix, its Gaussian
  draw and its column normalisation (with the 1e-12 guard) are not modelled.
  They are deterministic in the seed and the dimension.
- Coordinates are mathematical reals, not float32. The NaN case (where both
  `u >= 0` and `|u| < EPS` are false) is not represented.
- `sign_with_tie` takes `head_idx` as a natural number. Python would also
  format a negative one.
- The UTF-8 encoding that precedes each hash is part of the hash parameter.
- `text_norm`'s `\s` is modelled as the characters for which `str.isspace()`
  holds, which is what Python's `re` uses for `str` patterns.
- `embed` is inlined into `SemId.SemID.DecodeHeads`.
- The `model_name` argument and the `model` field of `SemID` are not modelled.
  The model is the `encode` parameter. The `seed_base` argument is, with its
  default `SEED_BASE` (`SemId.SeedBase`).
- `Gf2Poly.PolyDivMod` requires a non-zero divisor, and
  `Gf2Poly.PolyDivModLoop` requires a non-zero divisor or a zero dividend.
  With divisor 0 and a non-zero dividend the Python loop never terminates;
  with both 0 it returns (0, 0), which the method states. The encoder only
  ever divides by g(x).
- `Golay.Golay24.DecodeToMsg12` takes the received word as a sequence of
  naturals. Only the low bit of each entry counts, as with `b & 1`.
- The first definition of `hamming_distance` (`meanhash/convert.py:3-7`) is
  replaced by the second before it can be called, so it is not modelled.
- Python's insertion-ordered dict `clusters` is modelled as a key sequence
  plus a map.
- The `__main__` demonstrations of both files are not modelled. Nor are the
  other modules of the repository.
