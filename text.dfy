/**
 * String helpers with Python's meaning: str.isspace(), str.lower(),
 * str.split() with no argument and str.strip() with no argument.
 */
module Text {

  /** Python's str.isspace(): the characters that str.split() and str.strip() treat as whitespace. */
  predicate IsSpace(c: char) {
    var n := c as int;
    (9 <= n <= 13) || (28 <= n <= 32) || n == 0x85 || n == 0xA0 || n == 0x1680
    || (0x2000 <= n <= 0x200A) || n == 0x2028 || n == 0x2029 || n == 0x202F
    || n == 0x205F || n == 0x3000
  }

  predicate AllSpace(s: string) {
    forall i :: 0 <= i < |s| ==> IsSpace(s[i])
  }

  /** Python's str.lower() on one character of the ASCII and Latin-1 ranges; other characters are kept. */
  function LowerChar(c: char): char {
    var n := c as int;
    if 65 <= n <= 90 || (0xC0 <= n <= 0xDE && n != 0xD7) then (n + 32) as char else c
  }

  function Lower(s: string): string {
    seq(|s|, i requires 0 <= i < |s| => LowerChar(s[i]))
  }

  /** A string that lower-casing leaves as it is. */
  predicate IsLower(s: string) {
    forall i :: 0 <= i < |s| ==> LowerChar(s[i]) == s[i]
  }

  lemma LowerIsLower(s: string)
    ensures IsLower(Lower(s))
  {
    forall i | 0 <= i < |s|
      ensures LowerChar(Lower(s)[i]) == Lower(s)[i]
    {
      var n := s[i] as int;
      if 65 <= n <= 90 || (0xC0 <= n <= 0xDE && n != 0xD7) {
        assert Lower(s)[i] as int == n + 32;
      }
    }
  }

  /** Lower-casing neither creates nor removes whitespace. */
  lemma LowerKeepsSpace(s: string)
    ensures forall i :: 0 <= i < |s| ==> (IsSpace(Lower(s)[i]) <==> IsSpace(s[i]))
  {
  }

  // ---------------------------------------------------------------- str.split()

  /** Length of the leading run of non-whitespace characters of s. */
  function RunLength(s: string): (k: nat)
    ensures k <= |s|
    ensures forall i :: 0 <= i < k ==> !IsSpace(s[i])
    ensures k < |s| ==> IsSpace(s[k])
  {
    if s == [] || IsSpace(s[0]) then 0 else 1 + RunLength(s[1..])
  }

  /** Python's str.split() with no argument: the maximal runs of non-whitespace characters, in order. */
  function Split(s: string): (words: seq<string>)
    ensures forall w :: w in words ==> w != [] && !HasSpace(w)
    decreases |s|
  {
    if s == [] then []
    else if IsSpace(s[0]) then Split(s[1..])
    else
      var k := RunLength(s);
      [s[..k]] + Split(s[k..])
  }

  predicate HasSpace(s: string) {
    exists i :: 0 <= i < |s| && IsSpace(s[i])
  }

  /** Position i begins a word: a non-whitespace character at the start or right after whitespace. */
  predicate WordStart(s: string, i: nat)
    requires i < |s|
  {
    !IsSpace(s[i]) && (i == 0 || IsSpace(s[i - 1]))
  }

  /** The number of word beginnings at positions i, i + 1, ..., |s| - 1 of s. */
  function WordStarts(s: string, i: nat): nat
    decreases |s| - i
  {
    if i >= |s| then 0 else (if WordStart(s, i) then 1 else 0) + WordStarts(s, i + 1)
  }

  /** Word beginnings past position k of s are those of the suffix s[k..]. */
  lemma {:induction false} WordStartsOfSuffix(s: string, k: nat, i: nat)
    requires k < i
    requires k <= |s|
    ensures WordStarts(s, i) == WordStarts(s[k..], i - k)
    decreases |s| - i
  {
    if i < |s| {
      assert WordStart(s, i) == WordStart(s[k..], i - k);
      WordStartsOfSuffix(s, k, i + 1);
    }
  }

  /** Inside a run of non-whitespace there is no word beginning. */
  lemma {:induction false} NoWordStartsInRun(s: string, i: nat, k: nat)
    requires 1 <= i <= k <= |s|
    requires forall j :: 0 <= j < k ==> !IsSpace(s[j])
    ensures WordStarts(s, i) == WordStarts(s, k)
    decreases k - i
  {
    if i < k {
      NoWordStartsInRun(s, i + 1, k);
    }
  }

  /** A leading whitespace character neither begins a word nor hides one. */
  lemma LeadingSpaceStarts(s: string)
    requires s != [] && IsSpace(s[0])
    ensures WordStarts(s, 0) == WordStarts(s[1..], 0)
  {
    assert WordStarts(s, 0) == WordStarts(s, 1);
    if |s| > 1 {
      assert WordStart(s, 1) == WordStart(s[1..], 0);
      WordStartsOfSuffix(s, 1, 2);
    }
  }

  /** str.split() yields one word per word beginning: its words are the maximal non-whitespace runs. */
  lemma {:induction false} SplitCountsWordStarts(s: string)
    ensures |Split(s)| == WordStarts(s, 0)
    decreases |s|
  {
    if s == [] {
    } else if IsSpace(s[0]) {
      LeadingSpaceStarts(s);
      SplitCountsWordStarts(s[1..]);
    } else {
      var k := RunLength(s);
      assert WordStarts(s, 0) == 1 + WordStarts(s, 1);
      NoWordStartsInRun(s, 1, k);
      SplitCountsWordStarts(s[k..]);
      if k < |s| {
        LeadingSpaceStarts(s[k..]);
        assert WordStarts(s, k) == WordStarts(s, k + 1);
        WordStartsOfSuffix(s, k, k + 1);
        assert WordStarts(s, k + 1) == WordStarts(s[k..], 1);
        assert s[k..][1..] == s[k + 1..];
      }
    }
  }

  /** The characters that are not whitespace, in order. */
  function NonSpace(s: string): string {
    if s == [] then [] else (if IsSpace(s[0]) then [] else [s[0]]) + NonSpace(s[1..])
  }

  function Concat(words: seq<string>): string {
    if words == [] then [] else words[0] + Concat(words[1..])
  }

  lemma {:induction false} NonSpaceAppend(a: string, b: string)
    ensures NonSpace(a + b) == NonSpace(a) + NonSpace(b)
  {
    if a != [] {
      assert (a + b)[1..] == a[1..] + b;
      NonSpaceAppend(a[1..], b);
    } else {
      assert a + b == b;
    }
  }

  lemma {:induction false} NonSpaceOfWord(w: string)
    requires !HasSpace(w)
    ensures NonSpace(w) == w
  {
    if w != [] {
      assert !IsSpace(w[0]);
      assert !HasSpace(w[1..]) by {
        forall i | 0 <= i < |w[1..]| ensures !IsSpace(w[1..][i]) {
          assert w[1..][i] == w[i + 1];
        }
      }
      NonSpaceOfWord(w[1..]);
    }
  }

  /** str.split() loses nothing but whitespace: its words joined back give the non-whitespace characters. */
  lemma {:induction false} SplitKeepsText(s: string)
    ensures Concat(Split(s)) == NonSpace(s)
    decreases |s|
  {
    if s == [] {
    } else if IsSpace(s[0]) {
      SplitKeepsText(s[1..]);
    } else {
      var k := RunLength(s);
      var words := Split(s);
      assert words == [s[..k]] + Split(s[k..]);
      assert words[1..] == Split(s[k..]);
      SplitKeepsText(s[k..]);
      assert s == s[..k] + s[k..];
      NonSpaceAppend(s[..k], s[k..]);
      assert !HasSpace(s[..k]);
      NonSpaceOfWord(s[..k]);
    }
  }

  // ---------------------------------------------------------------- str.strip()

  /** Number of whitespace characters at the start of s. */
  function LeadingSpace(s: string): (k: nat)
    ensures k <= |s|
    ensures forall i :: 0 <= i < k ==> IsSpace(s[i])
    ensures k < |s| ==> !IsSpace(s[k])
  {
    if s != [] && IsSpace(s[0]) then 1 + LeadingSpace(s[1..]) else 0
  }

  /** Number of whitespace characters at the end of s. */
  function TrailingSpace(s: string): (k: nat)
    ensures k <= |s|
    ensures forall i :: |s| - k <= i < |s| ==> IsSpace(s[i])
    ensures k < |s| ==> !IsSpace(s[|s| - 1 - k])
  {
    if s != [] && IsSpace(s[|s| - 1]) then 1 + TrailingSpace(s[..|s| - 1]) else 0
  }

  /** Python's str.strip() with no argument. */
  function Strip(s: string): string {
    var a := LeadingSpace(s);
    s[a..|s| - TrailingSpace(s[a..])]
  }

  /** Where the stripped text sits in s: it starts at a, and everything around it is whitespace. */
  lemma StripPosition(s: string) returns (a: nat)
    ensures a + |Strip(s)| <= |s|
    ensures Strip(s) == s[a..a + |Strip(s)|]
    ensures AllSpace(s[..a]) && AllSpace(s[a + |Strip(s)|..])
    ensures Strip(s) == [] || (!IsSpace(Strip(s)[0]) && !IsSpace(Strip(s)[|Strip(s)| - 1]))
  {
    a := LeadingSpace(s);
    var b := TrailingSpace(s[a..]);
    var r := s[a..|s| - b];
    assert AllSpace(s[..a]);
    var tail := s[a + |r|..];
    assert AllSpace(tail) by {
      forall i | 0 <= i < |tail| ensures IsSpace(tail[i]) {
        assert tail[i] == s[a..][|s[a..]| - b + i];
      }
    }
  }

  /** str.strip() leaves no whitespace at either end and cuts nothing but whitespace off s. */
  lemma StripTrims(s: string)
    ensures Strip(s) == [] || (!IsSpace(Strip(s)[0]) && !IsSpace(Strip(s)[|Strip(s)| - 1]))
    ensures exists a :: 0 <= a <= |s| - |Strip(s)| && Strip(s) == s[a..a + |Strip(s)|]
                        && AllSpace(s[..a]) && AllSpace(s[a + |Strip(s)|..])
  {
    var a := StripPosition(s);
  }

  /** A string with no whitespace at either end is its own strip. */
  lemma StripStripped(s: string)
    requires s == [] || (!IsSpace(s[0]) && !IsSpace(s[|s| - 1]))
    ensures Strip(s) == s
  {
  }

  lemma LeadingSpaceOfPadded(pre: string, s: string)
    requires AllSpace(pre)
    requires s == [] || !IsSpace(s[0])
    ensures LeadingSpace(pre + s) == |pre|
  {
    var t := pre + s;
    assert forall i :: 0 <= i < |pre| ==> t[i] == pre[i];
    assert s != [] ==> t[|pre|] == s[0];
    var k := LeadingSpace(t);
    if k != |pre| {
      assert false;
    }
  }

  lemma TrailingSpaceOfPadded(s: string, post: string)
    requires AllSpace(post)
    requires s == [] || !IsSpace(s[|s| - 1])
    ensures TrailingSpace(s + post) == |post|
  {
    var t := s + post;
    assert forall i :: |s| <= i < |t| ==> t[i] == post[i - |s|];
    assert s != [] ==> t[|s| - 1] == s[|s| - 1];
    var k := TrailingSpace(t);
    if k != |post| {
      assert false;
    }
  }

  /** Whitespace padding around a core with no whitespace at its ends is exactly what str.strip() removes. */
  lemma StripPaddedCore(t: string, pre: string, r: string, post: string)
    requires t == pre + r + post
    requires AllSpace(pre) && AllSpace(post)
    requires r == [] || (!IsSpace(r[0]) && !IsSpace(r[|r| - 1]))
    ensures Strip(t) == r
  {
    if r == [] {
      assert t == pre + post;
      AllSpaceAppend(pre, post);
      var a := LeadingSpace(t);
      if a < |t| {
        assert false;
      }
    } else {
      assert t == pre + (r + post);
      LeadingSpaceOfPadded(pre, r + post);
      assert t[|pre|..] == r + post;
      TrailingSpaceOfPadded(r, post);
      assert t[|pre|..|t| - |post|] == r;
    }
  }

  lemma AllSpaceAppend(x: string, y: string)
    requires AllSpace(x) && AllSpace(y)
    ensures AllSpace(x + y)
  {
    forall i | 0 <= i < |x + y| ensures IsSpace((x + y)[i]) {
      if i < |x| { assert (x + y)[i] == x[i]; } else { assert (x + y)[i] == y[i - |x|]; }
    }
  }

  /** str.strip() ignores extra whitespace around its argument. */
  lemma StripPadded(pre: string, s: string, post: string)
    requires AllSpace(pre) && AllSpace(post)
    ensures Strip(pre + s + post) == Strip(s)
  {
    var a := StripPosition(s);
    var n := |Strip(s)|;
    Regroup(pre, s, post, a, n);
    StripPaddedCore(pre + s + post, pre + s[..a], s[a..a + n], s[a + n..] + post);
  }

  /** Cutting s into whitespace, a core and whitespace, and adding more whitespace around it. */
  lemma Regroup(pre: string, s: string, post: string, a: nat, n: nat)
    requires a + n <= |s|
    requires AllSpace(pre) && AllSpace(post) && AllSpace(s[..a]) && AllSpace(s[a + n..])
    ensures pre + s + post == (pre + s[..a]) + s[a..a + n] + (s[a + n..] + post)
    ensures AllSpace(pre + s[..a]) && AllSpace(s[a + n..] + post)
  {
    assert s == s[..a] + s[a..a + n] + s[a + n..];
    AllSpaceAppend(pre, s[..a]);
    AllSpaceAppend(s[a + n..], post);
  }
}
