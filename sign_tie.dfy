/**
 * `sign_with_tie`: a projected vector becomes one bit per coordinate, 1 for
 * a non-negative value and 0 for a negative one, except that a coordinate
 * closer to zero than EPS takes its bit from a SHA-256 digest of the
 * normalised text, the head index and the coordinate index, so that values
 * on the sign boundary still give the same bit on every machine.
 */
module SignTie {

  newtype byte = x: int | 0 <= x < 256

  /** EPS = 1e-5. */
  const Eps: real := 0.00001

  function Abs(x: real): (r: real)
    ensures r >= 0.0 && (r == x || r == -x)
  {
    if x < 0.0 then -x else x
  }

  function DigitChar(d: nat): char
    requires d < 10
  {
    "0123456789"[d]
  }

  /** How Python formats a non-negative int in an f-string: its decimal digits. */
  function Decimal(n: nat): (s: string)
    ensures |s| >= 1
    ensures forall i :: 0 <= i < |s| ==> '0' <= s[i] <= '9'
  {
    if n < 10 then [DigitChar(n)] else Decimal(n / 10) + [DigitChar(n % 10)]
  }

  /** The value of a string of decimal digits. */
  function DecimalValue(s: string): nat
    requires forall i :: 0 <= i < |s| ==> '0' <= s[i] <= '9'
  {
    if s == [] then 0
    else 10 * DecimalValue(s[..|s| - 1]) + (s[|s| - 1] as int - '0' as int)
  }

  lemma DigitValue(d: nat)
    requires d < 10
    ensures DigitChar(d) as int - '0' as int == d
  {
  }

  /** Reading the digits back gives the number: the formatting loses nothing. */
  lemma {:induction false} DecimalRoundTrip(n: nat)
    ensures DecimalValue(Decimal(n)) == n
  {
    var s := Decimal(n);
    if n < 10 {
      DigitValue(n);
      assert s[..0] == [];
    } else {
      DecimalRoundTrip(n / 10);
      DigitValue(n % 10);
      assert s[..|s| - 1] == Decimal(n / 10);
    }
  }

  /** The string hashed for a tie: `f"tb:v1|{text_normed}|{head_idx}|{j}"`. */
  function TieKey(text: string, head: nat, j: nat): string
  {
    "tb:v1|" + text + "|" + Decimal(head) + "|" + Decimal(j)
  }

  /** `h[0] & 1`, where `digest0` gives the first byte of the SHA-256 digest. */
  function TieBit(text: string, head: nat, j: nat, digest0: string -> byte): (b: nat)
    ensures b < 2
  {
    (digest0(TieKey(text, head, j)) % 2) as nat
  }

  /** The bit for coordinate j whose value is x. */
  function SignBit(x: real, text: string, head: nat, j: nat, digest0: string -> byte): nat
  {
    if Abs(x) < Eps then TieBit(text, head, j, digest0) else if x >= 0.0 then 1 else 0
  }

  /** All the bits of u. */
  function SignBits(u: seq<real>, text: string, head: nat, digest0: string -> byte): (bits: seq<nat>)
    ensures |bits| == |u|
  {
    seq(|u|, j requires 0 <= j < |u| => SignBit(u[j], text, head, j, digest0))
  }

  /**
   * Each bit is 0 or 1; away from zero it is 1 exactly when the coordinate
   * is non-negative, and near zero it depends only on the text, the head
   * and the position, never on the coordinate's value.
   */
  lemma SignBitsRule(u: seq<real>, text: string, head: nat, digest0: string -> byte, j: nat)
    requires j < |u|
    ensures var bits := SignBits(u, text, head, digest0);
      bits[j] < 2 &&
      (Abs(u[j]) >= Eps ==> (bits[j] == 1 <==> u[j] >= 0.0)) &&
      (Abs(u[j]) < Eps ==> bits[j] == digest0(TieKey(text, head, j)) as nat % 2)
  {
  }

  /**
   * Two projections that put the same coordinates inside the tie band and
   * agree in sign outside it give the same bits.
   */
  lemma SignBitsStable(u: seq<real>, u': seq<real>, text: string, head: nat, digest0: string -> byte)
    requires |u| == |u'|
    requires forall j :: 0 <= j < |u| ==> (Abs(u[j]) < Eps) == (Abs(u'[j]) < Eps)
    requires forall j :: 0 <= j < |u| && Abs(u[j]) >= Eps ==> (u[j] >= 0.0) == (u'[j] >= 0.0)
    ensures SignBits(u, text, head, digest0) == SignBits(u', text, head, digest0)
  {
  }

  /** In a + "|" + b with no bar in a, the first bar is at position |a|. */
  lemma FirstBar(a: string, b: string)
    requires forall i :: 0 <= i < |a| ==> a[i] != '|'
    ensures (a + "|" + b)[|a|] == '|'
    ensures forall i :: 0 <= i < |a| ==> (a + "|" + b)[i] != '|'
  {
  }

  lemma SplitAtBar(a: string, b: string, x: string, y: string)
    requires forall i :: 0 <= i < |a| ==> a[i] != '|'
    requires forall i :: 0 <= i < |x| ==> x[i] != '|'
    requires a + "|" + b == x + "|" + y
    ensures a == x && b == y
  {
    var s := a + "|" + b;
    FirstBar(a, b);
    FirstBar(x, y);
    assert |a| == |x|;
    assert a == s[..|a|] && x == s[..|x|];
    assert b == s[|a| + 1..] && y == s[|x| + 1..];
  }

  /** Decimal formatting is injective. */
  lemma DecimalInjective(a: nat, b: nat)
    requires Decimal(a) == Decimal(b)
    ensures a == b
  {
    DecimalRoundTrip(a);
    DecimalRoundTrip(b);
  }

  lemma PrefixCancel(p: string, a: string, b: string)
    requires p + a == p + b
    ensures a == b
  {
    assert a == (p + a)[|p|..];
    assert b == (p + b)[|p|..];
  }

  /** Everything after the text in a tie key. */
  function TieTail(head: nat, j: nat): string
  {
    Decimal(head) + "|" + Decimal(j)
  }

  lemma TieKeySplit(text: string, head: nat, j: nat)
    ensures TieKey(text, head, j) == ("tb:v1|" + text + "|") + TieTail(head, j)
  {
  }

  lemma TieTailInjective(h1: nat, j1: nat, h2: nat, j2: nat)
    requires TieTail(h1, j1) == TieTail(h2, j2)
    ensures h1 == h2 && j1 == j2
  {
    SplitAtBar(Decimal(h1), Decimal(j1), Decimal(h2), Decimal(j2));
    DecimalInjective(h1, h2);
    DecimalInjective(j1, j2);
  }

  /**
   * Different (head, position) pairs hash different strings, so every tied
   * coordinate gets its own digest.
   */
  lemma TieKeyInjective(text: string, h1: nat, j1: nat, h2: nat, j2: nat)
    requires TieKey(text, h1, j1) == TieKey(text, h2, j2)
    ensures h1 == h2 && j1 == j2
  {
    TieKeySplit(text, h1, j1);
    TieKeySplit(text, h2, j2);
    PrefixCancel("tb:v1|" + text + "|", TieTail(h1, j1), TieTail(h2, j2));
    TieTailInjective(h1, j1, h2, j2);
  }

  /**
   * `sign_with_tie`: start from the sign pattern `u >= 0`, then overwrite
   * each coordinate with |u[j]| < EPS by its tie-break bit.
   */
  method SignWithTie(u: seq<real>, textNormed: string, head: nat, digest0: string -> byte)
    returns (bits: seq<nat>)
    ensures bits == SignBits(u, textNormed, head, digest0)
  {
    var b := new nat[|u|](j requires 0 <= j < |u| => if u[j] >= 0.0 then 1 else 0);
    var j := 0;
    while j < |u|
      invariant 0 <= j <= |u| == b.Length
      invariant forall k :: 0 <= k < j ==> b[k] == SignBit(u[k], textNormed, head, k, digest0)
      invariant forall k :: j <= k < |u| ==> b[k] == if u[k] >= 0.0 then 1 else 0
    {
      if Abs(u[j]) < Eps {
        b[j] := TieBit(textNormed, head, j, digest0);
      }
      j := j + 1;
    }
    bits := b[..];
  }
}
