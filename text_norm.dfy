/**
 * The whitespace part of `text_norm`: after Unicode NFC (a parameter here),
 * tabs and newlines become spaces, every run of whitespace becomes a single
 * space, and whitespace is stripped from both ends.
 */
module TextNorm {

  /**
   * Python's `str.isspace()`, which is also what `\s` matches in a `str`
   * regular expression: the Unicode characters of category Zs or of
   * bidirectional class WS, B or S.
   */
  predicate IsSpace(c: char)
  {
    var k := c as int;
    (0x09 <= k <= 0x0D) || (0x1C <= k <= 0x20) || k == 0x85 || k == 0xA0 ||
    k == 0x1680 || (0x2000 <= k <= 0x200A) || k == 0x2028 || k == 0x2029 ||
    k == 0x202F || k == 0x205F || k == 0x3000
  }

  /** No two neighbouring characters of s are both whitespace. */
  predicate NoDoubleSpace(s: string)
  {
    forall i :: 0 <= i < |s| - 1 ==> !(IsSpace(s[i]) && IsSpace(s[i + 1]))
  }

  /** The only whitespace character in s is the plain space. */
  predicate OnlyPlainSpaces(s: string)
  {
    forall i :: 0 <= i < |s| ==> IsSpace(s[i]) ==> s[i] == ' '
  }

  /** s neither starts nor ends with whitespace. */
  predicate Trimmed(s: string)
  {
    s == [] || (!IsSpace(s[0]) && !IsSpace(s[|s| - 1]))
  }

  /** The non-whitespace characters of s, in order. */
  function NonSpace(s: string): string
  {
    if s == [] then []
    else if IsSpace(s[0]) then NonSpace(s[1..])
    else [s[0]] + NonSpace(s[1..])
  }

  /** `s.replace("\t", " ").replace("\n", " ")`. */
  function ReplaceTabsNewlines(s: string): (r: string)
    ensures |r| == |s|
    ensures forall i :: 0 <= i < |r| ==> r[i] != '\t' && r[i] != '\n'
    ensures forall i :: 0 <= i < |r| ==> IsSpace(r[i]) == IsSpace(s[i])
    ensures forall i :: 0 <= i < |r| ==> !IsSpace(s[i]) ==> r[i] == s[i]
  {
    seq(|s|, i requires 0 <= i < |s| => if s[i] == '\t' || s[i] == '\n' then ' ' else s[i])
  }

  /** s without its leading whitespace (`lstrip()`). */
  function TrimStart(s: string): (r: string)
    ensures r == [] || !IsSpace(r[0])
    ensures |r| <= |s| && r == s[|s| - |r|..]
  {
    if s != [] && IsSpace(s[0]) then TrimStart(s[1..]) else s
  }

  /** s without its trailing whitespace (`rstrip()`). */
  function TrimEnd(s: string): (r: string)
    ensures r == [] || !IsSpace(r[|r| - 1])
    ensures |r| <= |s| && r == s[..|r|]
  {
    if s != [] && IsSpace(s[|s| - 1]) then TrimEnd(s[..|s| - 1]) else s
  }

  /** `strip()`. */
  function Strip(s: string): string
  {
    TrimEnd(TrimStart(s))
  }

  /** `re.sub(r"\s+", " ", s)`: each maximal whitespace run becomes one space. */
  function Collapse(s: string): string
    decreases |s|
  {
    if s == [] then []
    else if IsSpace(s[0]) then " " + Collapse(TrimStart(s[1..]))
    else [s[0]] + Collapse(s[1..])
  }

  /** A word: a non-empty run of non-whitespace characters. */
  predicate IsWord(w: string)
  {
    w != [] && forall k :: 0 <= k < |w| ==> !IsSpace(w[k])
  }

  /** The longest prefix of s without whitespace. */
  function FirstWord(s: string): (w: string)
    ensures |w| <= |s| && w == s[..|w|]
    ensures |w| == |s| || IsSpace(s[|w|])
    ensures s != [] && !IsSpace(s[0]) ==> w != []
  {
    if s == [] || IsSpace(s[0]) then [] else [s[0]] + FirstWord(s[1..])
  }

  lemma {:induction false} FirstWordIsWord(s: string)
    requires s != [] && !IsSpace(s[0])
    ensures IsWord(FirstWord(s))
    decreases |s|
  {
    var u := s[1..];
    if u != [] && !IsSpace(u[0]) {
      FirstWordIsWord(u);
    }
    assert FirstWord(s) == [s[0]] + FirstWord(u);
  }

  /** The words of s, in order: what `str.split()` returns. */
  function Words(s: string): seq<string>
    decreases |s|
  {
    var t := TrimStart(s);
    if t == [] then []
    else
      var w := FirstWord(t);
      [w] + Words(t[|w|..])
  }

  /** Every entry of ws is a word. */
  predicate AllWords(ws: seq<string>)
  {
    forall i :: 0 <= i < |ws| ==> IsWord(ws[i])
  }

  lemma AllWordsCons(w: string, ws: seq<string>)
    requires IsWord(w) && AllWords(ws)
    ensures AllWords([w] + ws)
  {
  }

  lemma WordsCons(s: string)
    requires TrimStart(s) != []
    ensures var t := TrimStart(s); var w := FirstWord(t);
      |t[|w|..]| < |s| && Words(s) == [w] + Words(t[|w|..])
  {
  }

  /** Every entry of Words(s) is a word, so joining them is unambiguous. */
  lemma {:induction false} WordsAreWords(s: string)
    ensures AllWords(Words(s))
    decreases |s|
  {
    var t := TrimStart(s);
    if t != [] {
      var w := FirstWord(t);
      WordsCons(s);
      FirstWordIsWord(t);
      WordsAreWords(t[|w|..]);
      AllWordsCons(w, Words(t[|w|..]));
    }
  }

  /** The words joined by single spaces: `" ".join(ws)`. */
  function Join(ws: seq<string>): string
  {
    if ws == [] then []
    else if |ws| == 1 then ws[0]
    else ws[0] + " " + Join(ws[1..])
  }

  /** `text_norm`, given the NFC normaliser. */
  function Normalize(s: string, nfc: string -> string): string
  {
    Strip(Collapse(ReplaceTabsNewlines(nfc(s))))
  }

  // ---------------------------------------------------------------------
  // Collapsing

  lemma CollapseStart(s: string)
    requires s == [] || !IsSpace(s[0])
    ensures Collapse(s) == [] || !IsSpace(Collapse(s)[0])
  {
  }

  lemma {:induction false} CollapseShape(s: string)
    ensures OnlyPlainSpaces(Collapse(s)) && NoDoubleSpace(Collapse(s))
    decreases |s|
  {
    if s != [] {
      if IsSpace(s[0]) {
        var t := TrimStart(s[1..]);
        CollapseShape(t);
        CollapseStart(t);
        assert Collapse(s) == " " + Collapse(t);
      } else {
        CollapseShape(s[1..]);
        assert Collapse(s) == [s[0]] + Collapse(s[1..]);
      }
    }
  }

  lemma {:induction false} NonSpaceTrimStart(s: string)
    ensures NonSpace(TrimStart(s)) == NonSpace(s)
    decreases |s|
  {
    if s != [] && IsSpace(s[0]) {
      NonSpaceTrimStart(s[1..]);
    }
  }

  lemma {:induction false} NonSpaceAppend(a: string, b: string)
    ensures NonSpace(a + b) == NonSpace(a) + NonSpace(b)
    decreases |a|
  {
    if a == [] {
      assert a + b == b;
    } else {
      assert (a + b)[1..] == a[1..] + b;
      NonSpaceAppend(a[1..], b);
    }
  }

  /** Collapsing keeps every non-whitespace character, in order. */
  lemma {:induction false} CollapseKeepsText(s: string)
    ensures NonSpace(Collapse(s)) == NonSpace(s)
    decreases |s|
  {
    if s != [] {
      if IsSpace(s[0]) {
        var t := TrimStart(s[1..]);
        CollapseKeepsText(t);
        NonSpaceTrimStart(s[1..]);
        NonSpaceAppend(" ", Collapse(t));
      } else {
        CollapseKeepsText(s[1..]);
        NonSpaceAppend([s[0]], Collapse(s[1..]));
      }
    }
  }

  // ---------------------------------------------------------------------
  // Collapsing, word by word

  lemma TrimStartIdempotent(s: string)
    ensures TrimStart(TrimStart(s)) == TrimStart(s)
  {
  }

  /** A non-empty string with nothing left after `lstrip()` ends in whitespace. */
  lemma {:induction false} AllSpaceEnds(s: string)
    requires s != [] && TrimStart(s) == []
    ensures IsSpace(s[|s| - 1])
    decreases |s|
  {
    if |s| > 1 {
      AllSpaceEnds(s[1..]);
    }
  }

  /** What is left after `lstrip()` ends where s ends. */
  lemma LastOfTrimStart(s: string)
    requires TrimStart(s) != []
    ensures TrimStart(s)[|TrimStart(s)| - 1] == s[|s| - 1]
  {
    var u := TrimStart(s);
    assert u == s[|s| - |u|..];
  }

  /** A string that starts with a word collapses to that word followed by the collapsed rest. */
  lemma {:induction false} CollapseWord(t: string)
    requires t != [] && !IsSpace(t[0])
    ensures Collapse(t) == FirstWord(t) + Collapse(t[|FirstWord(t)|..])
    decreases |t|
  {
    var u := t[1..];
    assert Collapse(t) == [t[0]] + Collapse(u);
    if u == [] || IsSpace(u[0]) {
      assert FirstWord(u) == [];
      assert FirstWord(t) == [t[0]];
    } else {
      CollapseWord(u);
      var w := FirstWord(u);
      var c := Collapse(u[|w|..]);
      assert u[|w|..] == t[|w| + 1..];
      assert FirstWord(t) == [t[0]] + w;
      ConsAssoc(t[0], w, c);
    }
  }

  lemma ConsAssoc(ch: char, w: string, c: string)
    ensures [ch] + (w + c) == ([ch] + w) + c
  {
  }

  lemma JoinCons(w: string, ws: seq<string>)
    requires ws != []
    ensures Join([w] + ws) == w + " " + Join(ws)
  {
    assert ([w] + ws)[1..] == ws;
  }

  /** The space `re.sub` leaves in front of the words: one if s starts with whitespace. */
  function Lead(s: string): string
  {
    if s != [] && IsSpace(s[0]) then " " else []
  }

  /** The space `re.sub` leaves behind the words: one if s ends with whitespace after a word. */
  function Trail(s: string): string
  {
    if TrimStart(s) != [] && IsSpace(s[|s| - 1]) then " " else []
  }

  lemma SpaceFront(c: string, cu: string, j: string, t: string)
    requires c == " " + cu && cu == [] + j + t
    ensures c == " " + j + t
  {
  }

  lemma WordFront(c: string, w: string, cr: string, j: string, t: string)
    requires c == w + cr && cr == " " + j + t
    ensures c == w + " " + j + t
  {
  }

  /**
   * `re.sub(r"\s+", " ", s)` exactly: the words of s joined by single
   * spaces, with one space in front if s starts with whitespace and one
   * behind if s ends with whitespace after some word.
   */
  lemma {:induction false} CollapseWords(s: string)
    ensures Collapse(s) == Lead(s) + Join(Words(s)) + Trail(s)
    decreases |s|, 1
  {
    if s == [] {
    } else if IsSpace(s[0]) {
      var u := TrimStart(s[1..]);
      SpaceStep(s);
      CollapseWords(u);
      SpaceFront(Collapse(s), Collapse(u), Join(Words(u)), Trail(u));
    } else {
      CollapseWordsAtWord(s);
    }
  }

  /** One whitespace run at the front: `Collapse`, `Words` and `Trail` see past it. */
  lemma SpaceStep(s: string)
    requires s != [] && IsSpace(s[0])
    ensures var u := TrimStart(s[1..]);
      |u| < |s| && Collapse(s) == " " + Collapse(u) && Lead(s) == " " && Lead(u) == []
    ensures Words(s) == Words(TrimStart(s[1..]))
    ensures Trail(s) == Trail(TrimStart(s[1..]))
  {
    var u := TrimStart(s[1..]);
    SpaceStepWords(s, u);
    SpaceStepTrail(s, u);
  }

  lemma SpaceStepWords(s: string, u: string)
    requires s != [] && IsSpace(s[0]) && u == TrimStart(s[1..])
    ensures Words(s) == Words(u)
  {
    assert TrimStart(s) == u;
    TrimStartIdempotent(s[1..]);
  }

  lemma SpaceStepTrail(s: string, u: string)
    requires s != [] && IsSpace(s[0]) && u == TrimStart(s[1..])
    ensures Trail(s) == Trail(u)
  {
    SpaceStepStart(s, u);
    TrailSame(s, u);
  }

  lemma SpaceStepStart(s: string, u: string)
    requires s != [] && IsSpace(s[0]) && u == TrimStart(s[1..])
    ensures TrimStart(s) == TrimStart(u)
    ensures TrimStart(u) != [] ==> s != [] && u != [] && u[|u| - 1] == s[|s| - 1]
  {
    assert TrimStart(s) == u;
    TrimStartIdempotent(s[1..]);
    if u != [] {
      LastOfTrimStart(s);
    }
  }

  /** Two strings with the same words left after `lstrip()` and the same last character have the same `Trail`. */
  lemma TrailSame(s: string, u: string)
    requires TrimStart(s) == TrimStart(u)
    requires TrimStart(u) != [] ==> s != [] && u != [] && u[|u| - 1] == s[|s| - 1]
    ensures Trail(s) == Trail(u)
  {
  }

  /** One word at the front: what `Collapse`, `Words`, `Lead` and `Trail` make of it. */
  lemma WordStep(s: string)
    requires s != [] && !IsSpace(s[0])
    ensures var w := FirstWord(s); var rest := s[|w|..];
      |rest| < |s| && WordSplit(s, w, rest) && (rest != [] ==> IsSpace(rest[0]))
  {
    var w := FirstWord(s);
    FirstWordIsWord(s);
    CollapseWord(s);
    assert TrimStart(s) == s;
    assert s == w + s[|w|..];
  }

  /** What `WordStep` says about s, its first word w and the rest behind it. */
  predicate WordSplit(s: string, w: string, rest: string)
    requires s != []
  {
    IsWord(w) && s == w + rest &&
    Collapse(s) == w + Collapse(rest) && Words(s) == [w] + Words(rest) &&
    Lead(s) == [] && Trail(s) == (if IsSpace(s[|s| - 1]) then " " else [])
  }

  /** s is a single word. */
  lemma LoneWord(s: string, w: string, rest: string)
    requires s != [] && WordSplit(s, w, rest) && rest == []
    ensures Collapse(s) == Lead(s) + Join(Words(s)) + Trail(s)
  {
    assert s == w;
    assert Trail(s) == [];
    assert Words(rest) == [] && Collapse(rest) == [];
    assert Join(Words(s)) == w;
    assert [] + w + [] == w + [];
  }

  /** s is a word followed by whitespace only. */
  lemma WordThenSpaces(s: string, w: string, rest: string)
    requires s != [] && WordSplit(s, w, rest) && rest != [] && TrimStart(rest) == []
    ensures Collapse(s) == Lead(s) + Join(Words(s)) + Trail(s)
  {
    AllSpaceEnds(rest);
    assert rest[|rest| - 1] == s[|s| - 1];
    assert Trail(s) == " ";
    assert Words(rest) == [];
    assert Join(Words(s)) == w;
    assert IsSpace(rest[0]);
    assert TrimStart(rest[1..]) == [];
    assert Collapse(rest) == " ";
    TrailingSpace(Collapse(s), w, Collapse(rest));
  }

  lemma TrailingSpace(c: string, w: string, cr: string)
    requires c == w + cr && cr == " "
    ensures c == [] + w + " "
  {
  }

  /** The whitespace and words behind the first word of s. */
  lemma RestOfWord(s: string, w: string, rest: string)
    requires s != [] && s == w + rest && rest != [] && IsSpace(rest[0]) && TrimStart(rest) != []
    requires Trail(s) == (if IsSpace(s[|s| - 1]) then " " else [])
    ensures Words(rest) != [] && Lead(rest) == " " && Trail(rest) == Trail(s)
  {
    assert rest[|rest| - 1] == s[|s| - 1];
  }

  /** s is a word, whitespace and then more words. */
  lemma WordThenWords(c: string, w: string, cr: string, ws: seq<string>, wr: seq<string>, t: string)
    requires c == w + cr && ws == [w] + wr && wr != []
    requires cr == " " + Join(wr) + t
    ensures c == [] + Join(ws) + t
  {
    JoinCons(w, wr);
    WordFront(c, w, cr, Join(wr), t);
  }

  lemma {:induction false} CollapseWordsAtWord(s: string)
    requires s != [] && !IsSpace(s[0])
    ensures Collapse(s) == Lead(s) + Join(Words(s)) + Trail(s)
    decreases |s|, 0
  {
    var w := FirstWord(s);
    var rest := s[|w|..];
    WordStep(s);
    if rest == [] {
      LoneWord(s, w, rest);
    } else if TrimStart(rest) == [] {
      WordThenSpaces(s, w, rest);
    } else {
      CollapseWords(rest);
      RestOfWord(s, w, rest);
      WordThenWords(Collapse(s), w, Collapse(rest), Words(s), Words(rest), Trail(s));
    }
  }

  /** A join of words neither starts nor ends with whitespace, and is empty only for no words. */
  lemma {:induction false} JoinShape(ws: seq<string>)
    requires AllWords(ws)
    ensures Join(ws) == [] <==> ws == []
    ensures Join(ws) != [] ==> !IsSpace(Join(ws)[0]) && !IsSpace(Join(ws)[|Join(ws)| - 1])
    decreases |ws|
  {
    if |ws| > 1 {
      JoinShape(ws[1..]);
      assert IsWord(ws[0]);
    } else if |ws| == 1 {
      assert IsWord(ws[0]);
    }
  }

  /** `lstrip()` drops a single leading space in front of a text that starts with no whitespace. */
  lemma TrimStartLead(x: string)
    requires x == [] || !IsSpace(x[0])
    ensures TrimStart(" " + x) == x
  {
    assert (" " + x)[1..] == x;
  }

  /** `rstrip()` drops a single trailing space behind a text that ends with no whitespace. */
  lemma TrimEndTrail(j: string)
    requires j == [] || !IsSpace(j[|j| - 1])
    ensures TrimEnd(j + " ") == j
  {
    assert (j + " ")[..|j|] == j;
  }

  /** Stripping an optional space on each side of a trimmed text leaves the text. */
  lemma StripAround(c: string, l: string, j: string, t: string)
    requires l == [] || l == " "
    requires t == [] || t == " "
    requires j == [] ==> t == []
    requires j == [] || (!IsSpace(j[0]) && !IsSpace(j[|j| - 1]))
    requires c == l + j + t
    ensures Strip(c) == j
  {
    var x := j + t;
    if l == [] {
      assert c == x;
    } else {
      assert c == " " + x;
      TrimStartLead(x);
    }
    if t == [] {
      assert x == j;
    } else {
      assert x == j + " ";
      TrimEndTrail(j);
    }
  }

  /** `Lead` and `Trail` are at most one space, and there is no `Trail` without words. */
  lemma LeadTrail(s: string)
    ensures Lead(s) == [] || Lead(s) == " "
    ensures Trail(s) == [] || Trail(s) == " "
    ensures Words(s) == [] ==> Trail(s) == []
  {
  }

  /** The join of the words of s is trimmed, and empty only when there are no words. */
  lemma JoinWordsShape(s: string)
    ensures var j := Join(Words(s));
      (j == [] ==> Words(s) == []) && (j == [] || (!IsSpace(j[0]) && !IsSpace(j[|j| - 1])))
  {
    WordsAreWords(s);
    JoinShape(Words(s));
  }

  /** Collapsing then stripping leaves the words of s joined by single spaces. */
  lemma StripCollapse(s: string)
    ensures Strip(Collapse(s)) == Join(Words(s))
  {
    CollapseWords(s);
    LeadTrail(s);
    JoinWordsShape(s);
    StripAround(Collapse(s), Lead(s), Join(Words(s)), Trail(s));
  }

  lemma ReplaceSuffix(x: string, i: nat)
    requires i <= |x|
    ensures ReplaceTabsNewlines(x)[i..] == ReplaceTabsNewlines(x[i..])
  {
  }

  lemma {:induction false} ReplaceTrimStart(x: string)
    ensures TrimStart(ReplaceTabsNewlines(x)) == ReplaceTabsNewlines(TrimStart(x))
    decreases |x|
  {
    if x != [] && IsSpace(x[0]) {
      ReplaceSuffix(x, 1);
      ReplaceTrimStart(x[1..]);
    }
  }

  lemma {:induction false} ReplaceFirstWord(t: string)
    ensures FirstWord(ReplaceTabsNewlines(t)) == FirstWord(t)
    decreases |t|
  {
    if t != [] && !IsSpace(t[0]) {
      ReplaceSuffix(t, 1);
      ReplaceFirstWord(t[1..]);
    }
  }

  /** Turning tabs and newlines into spaces leaves the words unchanged. */
  lemma {:induction false} ReplaceWords(x: string)
    ensures Words(ReplaceTabsNewlines(x)) == Words(x)
    decreases |x|
  {
    var t := TrimStart(x);
    ReplaceTrimStart(x);
    if t != [] {
      var w := FirstWord(t);
      ReplaceFirstWord(t);
      ReplaceSuffix(t, |w|);
      ReplaceWords(t[|w|..]);
    }
  }

  /**
   * `text_norm` is `" ".join(nfc(s).split())`: the words of the NFC form,
   * in order, separated by exactly one plain space.
   */
  lemma NormalizeWords(s: string, nfc: string -> string)
    ensures Normalize(s, nfc) == Join(Words(nfc(s)))
  {
    StripCollapse(ReplaceTabsNewlines(nfc(s)));
    ReplaceWords(nfc(s));
  }

  // ---------------------------------------------------------------------
  // Stripping

  lemma {:induction false} NonSpaceTrimEnd(s: string)
    ensures NonSpace(TrimEnd(s)) == NonSpace(s)
    decreases |s|
  {
    if s != [] && IsSpace(s[|s| - 1]) {
      var p := s[..|s| - 1];
      NonSpaceTrimEnd(p);
      assert s == p + [s[|s| - 1]];
      NonSpaceAppend(p, [s[|s| - 1]]);
    }
  }

  /** A slice of a word with the two shape properties keeps them. */
  lemma SliceShape(s: string, i: nat, j: nat)
    requires i <= j <= |s|
    requires OnlyPlainSpaces(s) && NoDoubleSpace(s)
    ensures OnlyPlainSpaces(s[i..j]) && NoDoubleSpace(s[i..j])
  {
    assert forall k :: 0 <= k < j - i ==> s[i..j][k] == s[i + k];
  }

  /** Dropping leading whitespace keeps the shape and the text. */
  lemma TrimStartShape(s: string)
    requires OnlyPlainSpaces(s) && NoDoubleSpace(s)
    ensures var t := TrimStart(s);
      OnlyPlainSpaces(t) && NoDoubleSpace(t) && NonSpace(t) == NonSpace(s)
  {
    var t := TrimStart(s);
    SliceShape(s, |s| - |t|, |s|);
    NonSpaceTrimStart(s);
  }

  /** Dropping trailing whitespace keeps the shape, the text and the first character. */
  lemma TrimEndShape(t: string)
    requires OnlyPlainSpaces(t) && NoDoubleSpace(t)
    requires t == [] || !IsSpace(t[0])
    ensures var r := TrimEnd(t);
      Trimmed(r) && OnlyPlainSpaces(r) && NoDoubleSpace(r) && NonSpace(r) == NonSpace(t)
  {
    var r := TrimEnd(t);
    SliceShape(t, 0, |r|);
    NonSpaceTrimEnd(t);
    if r != [] {
      assert r[0] == t[0];
    }
  }

  /** Stripping leaves a trimmed word with the same non-whitespace text. */
  lemma StripShape(s: string)
    requires OnlyPlainSpaces(s) && NoDoubleSpace(s)
    ensures var r := Strip(s);
      Trimmed(r) && OnlyPlainSpaces(r) && NoDoubleSpace(r) && NonSpace(r) == NonSpace(s)
  {
    TrimStartShape(s);
    TrimEndShape(TrimStart(s));
  }

  /**
   * What `text_norm` promises about its result: it is the words of the NFC
   * form joined by single spaces, so it holds no whitespace but the plain
   * space, no tab or newline, no two whitespace characters in a row, nothing
   * to strip at either end, and the non-whitespace characters of the NFC
   * form, in order.
   */
  lemma NormalizeShape(s: string, nfc: string -> string)
    ensures var r := Normalize(s, nfc);
      r == Join(Words(nfc(s))) && OnlyPlainSpaces(r) &&
      (forall i :: 0 <= i < |r| ==> r[i] != '\t' && r[i] != '\n') &&
      NoDoubleSpace(r) && Trimmed(r) && NonSpace(r) == NonSpace(nfc(s))
  {
    var a := ReplaceTabsNewlines(nfc(s));
    var c := Collapse(a);
    CollapseShape(a);
    CollapseKeepsText(a);
    ReplaceKeepsText(nfc(s));
    StripShape(c);
    NormalizeWords(s, nfc);
    var r := Strip(c);
    forall i | 0 <= i < |r|
      ensures r[i] != '\t' && r[i] != '\n'
    {
      if IsSpace(r[i]) {
        assert r[i] == ' ';
      }
    }
  }

  lemma {:induction false} ReplaceKeepsText(s: string)
    ensures NonSpace(ReplaceTabsNewlines(s)) == NonSpace(s)
    decreases |s|
  {
    if s != [] {
      var r := ReplaceTabsNewlines(s);
      ReplaceKeepsText(s[1..]);
      assert r[1..] == ReplaceTabsNewlines(s[1..]);
    }
  }

  // ---------------------------------------------------------------------
  // Idempotence

  lemma {:induction false} CollapseFixed(s: string)
    requires OnlyPlainSpaces(s) && NoDoubleSpace(s)
    ensures Collapse(s) == s
    decreases |s|
  {
    if s != [] {
      SliceShape(s, 1, |s|);
      CollapseFixed(s[1..]);
      CollapseFixedStep(s);
    }
  }

  lemma CollapseFixedStep(s: string)
    requires s != [] && OnlyPlainSpaces(s) && NoDoubleSpace(s)
    requires Collapse(s[1..]) == s[1..]
    ensures Collapse(s) == s
  {
    if IsSpace(s[0]) {
      assert s[0] == ' ';
      assert |s| > 1 ==> !IsSpace(s[1]);
      assert TrimStart(s[1..]) == s[1..];
      assert s == [' '] + s[1..];
    } else {
      assert s == [s[0]] + s[1..];
    }
  }

  lemma ReplaceFixed(s: string)
    requires OnlyPlainSpaces(s)
    ensures ReplaceTabsNewlines(s) == s
  {
  }

  /** Normalising the whitespace of an already normalised text changes nothing. */
  lemma NormalizeIdempotent(s: string, nfc: string -> string)
    ensures var r := Normalize(s, nfc);
      Strip(Collapse(ReplaceTabsNewlines(r))) == r
  {
    var a := ReplaceTabsNewlines(nfc(s));
    CollapseShape(a);
    StripShape(Collapse(a));
    var r := Normalize(s, nfc);
    ReplaceFixed(r);
    CollapseFixed(r);
    if r != [] {
      assert TrimStart(r) == r;
      assert TrimEnd(r) == r;
    }
  }
}
