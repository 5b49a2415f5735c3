/**
 * Python's re.findall(r'\b[a-zA-Z]{3,}\b', text) on a str: the tokens are the maximal runs of
 * ASCII letters, at least three long, whose neighbours are non-word characters or the ends of
 * the text (\b is a boundary between a word character \w and a non-word character).
 */
module Tokenize {
  import Text

  predicate IsAsciiLetter(c: char) {
    'a' <= c <= 'z' || 'A' <= c <= 'Z'
  }

  /**
   * Python re's \w for str patterns: ASCII letters and digits, '_', and the Unicode letters and
   * numbers. The ASCII and Latin-1 ranges are exact; above U+00FF every character counts as a
   * word character except whitespace and the General Punctuation block (U+2000 to U+206F).
   */
  predicate IsWordChar(c: char) {
    var n := c as int;
    IsAsciiLetter(c) || ('0' <= c <= '9') || c == '_'
    || n == 0xAA || n == 0xB2 || n == 0xB3 || n == 0xB5 || n == 0xB9 || n == 0xBA
    || (0xBC <= n <= 0xBE) || (0xC0 <= n <= 0xFF && n != 0xD7 && n != 0xF7)
    || (n > 0xFF && !Text.IsSpace(c) && !(0x2000 <= n <= 0x206F))
  }

  predicate AllLetters(s: string) {
    forall k :: 0 <= k < |s| ==> IsAsciiLetter(s[k])
  }

  /** The text s[i..j] is one match of \b[a-zA-Z]{3,}\b. */
  predicate TokenAt(s: string, i: nat, j: nat) {
    && i + 3 <= j <= |s|
    && (forall k :: i <= k < j ==> IsAsciiLetter(s[k]))
    && (i == 0 || !IsWordChar(s[i - 1]))
    && (j == |s| || !IsWordChar(s[j]))
  }

  /** The first position at or after i that does not hold an ASCII letter. */
  function RunEnd(s: string, i: nat): (j: nat)
    requires i <= |s|
    ensures i <= j <= |s|
    ensures j == |s| || !IsAsciiLetter(s[j])
    decreases |s| - i
  {
    if i < |s| && IsAsciiLetter(s[i]) then RunEnd(s, i + 1) else i
  }

  /** The run from i to RunEnd(s, i) is all letters and cannot be extended. */
  lemma {:induction false} RunEndIsRun(s: string, i: nat)
    requires i <= |s|
    ensures forall k :: i <= k < RunEnd(s, i) ==> IsAsciiLetter(s[k])
    decreases |s| - i
  {
    if i < |s| && IsAsciiLetter(s[i]) {
      RunEndIsRun(s, i + 1);
    }
  }

  /** A match always extends to the end of its run of letters. */
  lemma TokenEndsRun(s: string, i: nat, j: nat)
    requires TokenAt(s, i, j)
    ensures j == RunEnd(s, i)
  {
    RunEndIsRun(s, i);
  }

  datatype Span = Span(start: nat, end: nat)

  /** Spans in the order the scan finds them, none overlapping the next. */
  predicate Ordered(spans: seq<Span>) {
    forall a, b :: 0 <= a < b < |spans| ==> spans[a].end <= spans[b].start
  }

  /** Position i is not strictly inside a run of letters. */
  predicate AtRunBoundary(s: string, i: nat)
    requires i <= |s|
  {
    i == 0 || i == |s| || !IsAsciiLetter(s[i - 1]) || !IsAsciiLetter(s[i])
  }

  /** The run of letters that starts at i is a match. */
  predicate RunIsToken(s: string, i: nat, j: nat)
    requires i <= j <= |s|
  {
    j - i >= 3 && (i == 0 || !IsWordChar(s[i - 1])) && (j == |s| || !IsWordChar(s[j]))
  }

  /** The left-to-right scan of re.findall from position i: the matches starting at or after i, in order. */
  function SpansFrom(s: string, i: nat): (spans: seq<Span>)
    requires i <= |s| && AtRunBoundary(s, i)
    decreases |s| - i
  {
    if i == |s| then []
    else if !IsAsciiLetter(s[i]) then SpansFrom(s, i + 1)
    else
      var j := RunEnd(s, i);
      if RunIsToken(s, i, j) then [Span(i, j)] + SpansFrom(s, j) else SpansFrom(s, j)
  }

  /** One step of the scan at the first letter of a run. */
  lemma SpansFromRun(s: string, i: nat, j: nat)
    requires i < |s| && AtRunBoundary(s, i) && IsAsciiLetter(s[i]) && j == RunEnd(s, i)
    ensures SpansFrom(s, i) == if RunIsToken(s, i, j) then [Span(i, j)] + SpansFrom(s, j) else SpansFrom(s, j)
  {
  }

  /** Everything the scan reports is a match. */
  lemma {:induction false} SpansFromSound(s: string, i: nat)
    requires i <= |s| && AtRunBoundary(s, i)
    ensures forall sp :: sp in SpansFrom(s, i) ==> i <= sp.start && TokenAt(s, sp.start, sp.end)
    decreases |s| - i
  {
    if i < |s| {
      if !IsAsciiLetter(s[i]) {
        SpansFromSound(s, i + 1);
      } else {
        RunEndIsRun(s, i);
        SpansFromSound(s, RunEnd(s, i));
      }
    }
  }

  /** The scan reports its matches left to right. */
  lemma {:induction false} SpansFromOrdered(s: string, i: nat)
    requires i <= |s| && AtRunBoundary(s, i)
    ensures Ordered(SpansFrom(s, i))
    decreases |s| - i
  {
    if i < |s| {
      if !IsAsciiLetter(s[i]) {
        SpansFromOrdered(s, i + 1);
      } else {
        SpansFromSound(s, RunEnd(s, i));
        SpansFromOrdered(s, RunEnd(s, i));
      }
    }
  }

  /** The scan misses no match that starts at or after i. */
  lemma {:induction false} SpansFromComplete(s: string, i: nat, a: nat, b: nat)
    requires i <= |s| && AtRunBoundary(s, i)
    requires i <= a && TokenAt(s, a, b)
    ensures Span(a, b) in SpansFrom(s, i)
    decreases |s| - i
  {
    if !IsAsciiLetter(s[i]) {
      SpansFromComplete(s, i + 1, a, b);
    } else {
      var j := RunEnd(s, i);
      RunEndIsRun(s, i);
      if a == i {
        TokenEndsRun(s, a, b);
      } else if a < j {
        assert false;
      } else {
        SpansFromComplete(s, j, a, b);
      }
    }
  }

  function Spans(s: string): seq<Span> {
    SpansFrom(s, 0)
  }

  predicate Within(s: string, spans: seq<Span>) {
    forall k :: 0 <= k < |spans| ==> spans[k].start <= spans[k].end <= |s|
  }

  /** The texts of the spans, in order. */
  function Texts(s: string, spans: seq<Span>): seq<string>
    requires Within(s, spans)
  {
    seq(|spans|, k requires 0 <= k < |spans| => s[spans[k].start..spans[k].end])
  }

  /** re.findall(r'\b[a-zA-Z]{3,}\b', s). */
  function Tokens(s: string): seq<string> {
    SpansFromSound(s, 0);
    Texts(s, Spans(s))
  }

  /** Every token is a run of at least three ASCII letters that stands in s as a whole match. */
  lemma TokensAreMatches(s: string, k: nat)
    requires k < |Tokens(s)|
    ensures |Tokens(s)[k]| >= 3 && AllLetters(Tokens(s)[k])
    ensures exists i: nat, j: nat :: TokenAt(s, i, j) && Tokens(s)[k] == s[i..j]
  {
    var spans := Spans(s);
    SpansFromSound(s, 0);
    assert spans[k] in spans;
    var i, j := spans[k].start, spans[k].end;
    assert TokenAt(s, i, j);
    assert Tokens(s)[k] == s[i..j];
  }

  /** Every match is found. */
  lemma MatchesAreTokens(s: string, i: nat, j: nat)
    requires TokenAt(s, i, j)
    ensures s[i..j] in Tokens(s)
  {
    var spans := Spans(s);
    SpansFromComplete(s, 0, i, j);
    var k :| 0 <= k < |spans| && spans[k] == Span(i, j);
    assert Tokens(s)[k] == s[i..j];
  }

  // ------------------------------------------------- tokens of texts joined with a space

  /** The spans moved d positions to the right. */
  function Shift(spans: seq<Span>, d: nat): seq<Span> {
    seq(|spans|, k requires 0 <= k < |spans| => Span(spans[k].start + d, spans[k].end + d))
  }

  /** The letter run at d + k of s is the one at k of s[d..], moved right. */
  lemma {:induction false} RunEndRight(s: string, d: nat, k: nat)
    requires d <= |s| && k <= |s| - d
    ensures RunEnd(s, d + k) == d + RunEnd(s[d..], k)
    decreases |s| - d - k
  {
    if d + k < |s| {
      assert s[d + k] == s[d..][k];
      RunEndRight(s, d, k + 1);
    }
  }

  /** A letter run of s[..n] that ends before a non-letter at n is the same run in s. */
  lemma {:induction false} RunEndLeft(s: string, n: nat, i: nat)
    requires i <= n < |s| && !IsAsciiLetter(s[n])
    ensures RunEnd(s, i) == RunEnd(s[..n], i)
    decreases n - i
  {
    if i < n {
      assert s[i] == s[..n][i];
      RunEndLeft(s, n, i + 1);
    }
  }

  /** Past a non-word character at d - 1, the scan of s is the scan of s[d..], moved right. */
  lemma {:induction false} SpansRight(s: string, d: nat, k: nat)
    requires 1 <= d <= |s| && !IsWordChar(s[d - 1])
    requires k <= |s| - d && AtRunBoundary(s[d..], k)
    ensures AtRunBoundary(s, d + k)
    ensures SpansFrom(s, d + k) == Shift(SpansFrom(s[d..], k), d)
    decreases |s| - d - k
  {
    var b := s[d..];
    if d + k < |s| {
      assert s[d + k] == b[k];
      assert k > 0 ==> s[d + k - 1] == b[k - 1];
      if !IsAsciiLetter(b[k]) {
        SpansRight(s, d, k + 1);
      } else {
        var j := RunEnd(b, k);
        RunEndRight(s, d, k);
        SpansRight(s, d, j);
        SpansRightRun(s, d, k, j);
      }
    }
  }

  /** The step of SpansRight over one run of letters. */
  lemma SpansRightRun(s: string, d: nat, k: nat, j: nat)
    requires 1 <= d <= |s| && !IsWordChar(s[d - 1])
    requires d + k < |s| && AtRunBoundary(s[d..], k) && IsAsciiLetter(s[d..][k])
    requires j == RunEnd(s[d..], k) && d + j == RunEnd(s, d + k)
    requires AtRunBoundary(s, d + j) && SpansFrom(s, d + j) == Shift(SpansFrom(s[d..], j), d)
    ensures AtRunBoundary(s, d + k)
    ensures SpansFrom(s, d + k) == Shift(SpansFrom(s[d..], k), d)
  {
    var b := s[d..];
    RunIsTokenRight(s, d, k, j);
    SpansFromRun(s, d + k, d + j);
    SpansFromRun(b, k, j);
    ShiftedRunStep(SpansFrom(s, d + k), SpansFrom(s, d + j), SpansFrom(b, k), SpansFrom(b, j),
                   Span(k, j), d, RunIsToken(b, k, j));
  }

  lemma ShiftedRunStep(x: seq<Span>, xRest: seq<Span>, y: seq<Span>, yRest: seq<Span>, sp: Span, d: nat, found: bool)
    requires x == if found then [Span(sp.start + d, sp.end + d)] + xRest else xRest
    requires y == if found then [sp] + yRest else yRest
    requires xRest == Shift(yRest, d)
    ensures x == Shift(y, d)
  {
    if found {
      ShiftCons(sp, yRest, d);
    }
  }

  /** Whether a run of s[d..] is a match is the same question in s, when s[d - 1] is a non-word character. */
  lemma RunIsTokenRight(s: string, d: nat, k: nat, j: nat)
    requires 1 <= d <= |s| && !IsWordChar(s[d - 1])
    requires d + k < |s| && AtRunBoundary(s[d..], k) && IsAsciiLetter(s[d..][k])
    requires k <= j <= |s| - d
    ensures AtRunBoundary(s, d + k) && IsAsciiLetter(s[d + k])
    ensures RunIsToken(s, d + k, d + j) == RunIsToken(s[d..], k, j)
  {
    var b := s[d..];
    assert s[d + k] == b[k];
    assert k > 0 ==> s[d + k - 1] == b[k - 1];
    assert j < |b| ==> s[d + j] == b[j];
  }

  /** Up to a non-word character at n, the scan of s is the scan of s[..n]; after it, that of s[n + 1..]. */
  lemma {:induction false} SpansLeft(s: string, n: nat, i: nat)
    requires n < |s| && !IsWordChar(s[n])
    requires i <= n && AtRunBoundary(s[..n], i)
    ensures AtRunBoundary(s, i)
    ensures SpansFrom(s, i) == SpansFrom(s[..n], i) + Shift(SpansFrom(s[n + 1..], 0), n + 1)
    decreases n - i
  {
    var a := s[..n];
    if i == n {
      assert SpansFrom(s, i) == SpansFrom(s, i + 1);
      SpansRight(s, n + 1, 0);
    } else {
      assert s[i] == a[i];
      assert i > 0 ==> s[i - 1] == a[i - 1];
      if !IsAsciiLetter(a[i]) {
        SpansLeft(s, n, i + 1);
      } else {
        var j := RunEnd(a, i);
        RunEndLeft(s, n, i);
        assert j < n ==> s[j] == a[j];
        assert RunIsToken(s, i, j) == RunIsToken(a, i, j);
        SpansLeft(s, n, j);
      }
    }
  }

  lemma ShiftCons(sp: Span, rest: seq<Span>, d: nat)
    ensures Shift([sp] + rest, d) == [Span(sp.start + d, sp.end + d)] + Shift(rest, d)
  {
    assert ([sp] + rest)[1..] == rest;
  }

  lemma {:induction false} TextsAppend(s: string, x: seq<Span>, y: seq<Span>)
    requires Within(s, x) && Within(s, y)
    ensures Within(s, x + y)
    ensures Texts(s, x + y) == Texts(s, x) + Texts(s, y)
  {
    assert Within(s, x + y);
  }

  /** The texts of spans inside s[..n] are the same in s and in s[..n]. */
  lemma TextsLeft(s: string, n: nat, spans: seq<Span>)
    requires n <= |s| && Within(s[..n], spans)
    ensures Within(s, spans) && Texts(s, spans) == Texts(s[..n], spans)
  {
    forall k | 0 <= k < |spans|
      ensures Texts(s, spans)[k] == Texts(s[..n], spans)[k]
    {
      assert spans[k] in spans;
      assert s[spans[k].start..spans[k].end] == s[..n][spans[k].start..spans[k].end];
    }
  }

  /** The texts of spans of s[d..], moved right by d, are the same texts in s. */
  lemma TextsRight(s: string, d: nat, spans: seq<Span>)
    requires d <= |s| && Within(s[d..], spans)
    ensures Within(s, Shift(spans, d)) && Texts(s, Shift(spans, d)) == Texts(s[d..], spans)
  {
    var right := Shift(spans, d);
    assert Within(s, right) by {
      forall sp | sp in right ensures sp.start <= sp.end <= |s| {
        var k :| 0 <= k < |right| && right[k] == sp;
        assert spans[k] in spans;
      }
    }
    forall k | 0 <= k < |right|
      ensures Texts(s, right)[k] == Texts(s[d..], spans)[k]
    {
      var sp := spans[k];
      assert sp in spans;
      assert s[sp.start + d..sp.end + d] == s[d..][sp.start..sp.end];
    }
  }

  /** Tokens never straddle the space that joins two texts. */
  lemma TokensOfJoin(a: string, b: string)
    ensures Tokens(a + " " + b) == Tokens(a) + Tokens(b)
  {
    var s := a + " " + b;
    var d := |a| + 1;
    assert s[..|a|] == a && s[d..] == b && s[|a|] == ' ';
    SpansLeft(s, |a|, 0);
    SpansFromSound(a, 0);
    SpansFromSound(b, 0);
    TextsLeft(s, |a|, Spans(a));
    TextsRight(s, d, Spans(b));
    TextsAppend(s, Spans(a), Shift(Spans(b), d));
  }
}
