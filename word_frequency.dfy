/**
 * The word-frequency table behind the word cloud: join the present cells of a text column with
 * spaces, lower-case, extract \b[a-zA-Z]{3,}\b tokens, count them, and keep the words that are
 * not stop words and occur more than ten times.
 */
module WordFrequency {
  import opened Wrappers
  import Text
  import Tokenize

  /** The stop words removed before the cloud is drawn. */
  const STOP_WORDS: set<string> := {
    "the", "and", "of", "in", "to", "a", "for", "with", "on",
    "as", "by", "from", "that", "this", "is", "are", "was", "were",
    "be", "been", "have", "has", "had", "but", "not", "which",
    "their", "can", "we", "our", "an", "will", "study"
  }

  /** A word keeps its place in the table only when it occurs more often than this. */
  const MIN_COUNT_EXCLUSIVE: nat := 10

  /** Series.dropna(): the present cells, in order. */
  function Present(vals: seq<Option<string>>): seq<string> {
    if vals == [] then []
    else (if vals[0].Some? then [vals[0].value] else []) + Present(vals[1..])
  }

  /** ' '.join(texts). */
  function Join(texts: seq<string>): string {
    if texts == [] then []
    else if |texts| == 1 then texts[0]
    else texts[0] + " " + Join(texts[1..])
  }

  /** The tokens of the lower-cased cells, cell by cell; a missing cell has none. */
  function CellTokens(vals: seq<Option<string>>): seq<string> {
    if vals == [] then []
    else (if vals[0].Some? then Tokenize.Tokens(Text.Lower(vals[0].value)) else []) + CellTokens(vals[1..])
  }

  /** collections.Counter over a token list. */
  function Counts(tokens: seq<string>): (counts: map<string, nat>)
    ensures forall w :: w in counts <==> w in tokens
    ensures forall w :: w in counts ==> counts[w] == multiset(tokens)[w]
  {
    map w | w in tokens :: multiset(tokens)[w]
  }

  /** The result of the comprehension over word_freq.items() in create_word_cloud. */
  function Frequencies(vals: seq<Option<string>>): map<string, nat> {
    var counts := Counts(Tokenize.Tokens(Text.Lower(Join(Present(vals)))));
    map w | w in counts && w !in STOP_WORDS && counts[w] > MIN_COUNT_EXCLUSIVE :: counts[w]
  }

  /** A word made of at least three lower-case ASCII letters. */
  predicate IsLowerWord(w: string) {
    |w| >= 3 && forall k :: 0 <= k < |w| ==> 'a' <= w[k] <= 'z'
  }

  // ------------------------------------------------------------ properties

  lemma LowerOfJoin(a: string, b: string)
    ensures Text.Lower(a + " " + b) == Text.Lower(a) + " " + Text.Lower(b)
  {
  }

  /** Joining with spaces and lower-casing yields exactly the tokens of each present cell, in order. */
  lemma {:induction false} TokensOfColumn(vals: seq<Option<string>>)
    ensures Tokenize.Tokens(Text.Lower(Join(Present(vals)))) == CellTokens(vals)
  {
    if vals != [] {
      TokensOfColumn(vals[1..]);
      if vals[0].Some? {
        var v := vals[0].value;
        var rest := Present(vals[1..]);
        assert Present(vals) == [v] + rest;
        if rest == [] {
          assert Join(Present(vals)) == v;
          assert Text.Lower(Join(rest)) == [];
          assert Tokenize.Tokens([]) == [];
        } else {
          assert Join(Present(vals)) == v + " " + Join(rest);
          LowerOfJoin(v, Join(rest));
          Tokenize.TokensOfJoin(Text.Lower(v), Text.Lower(Join(rest)));
        }
      } else {
        assert Present(vals) == Present(vals[1..]);
      }
    }
  }

  /** Every token of a lower-cased text is a lower-case ASCII word of at least three letters. */
  lemma LowerTokensAreLowerWords(s: string, t: string)
    requires t in Tokenize.Tokens(Text.Lower(s))
    ensures IsLowerWord(t)
  {
    var l := Text.Lower(s);
    var k :| 0 <= k < |Tokenize.Tokens(l)| && Tokenize.Tokens(l)[k] == t;
    Tokenize.TokensAreMatches(l, k);
    var i: nat, j: nat :| Tokenize.TokenAt(l, i, j) && t == l[i..j];
    forall m | 0 <= m < |t| ensures 'a' <= t[m] <= 'z' {
      assert t[m] == l[i + m];
      assert Tokenize.IsAsciiLetter(l[i + m]);
    }
  }

  /** Every token of the column comes from the lower-cased text of one present cell. */
  lemma {:induction false} CellTokensFromCells(vals: seq<Option<string>>, t: string)
    requires t in CellTokens(vals)
    ensures exists i :: 0 <= i < |vals| && vals[i].Some? && t in Tokenize.Tokens(Text.Lower(vals[i].value))
  {
    if vals[0].Some? && t in Tokenize.Tokens(Text.Lower(vals[0].value)) {
    } else {
      CellTokensFromCells(vals[1..], t);
      var i :| 0 <= i < |vals[1..]| && vals[1..][i].Some? && t in Tokenize.Tokens(Text.Lower(vals[1..][i].value));
      assert vals[i + 1] == vals[1..][i];
    }
  }

  /**
   * The word-frequency table: a word is kept exactly when it is not a stop word and occurs more
   * than ten times as a token of the column, and its value is that number of occurrences.
   */
  lemma FrequenciesMeaning(vals: seq<Option<string>>)
    ensures forall w :: w in Frequencies(vals) <==>
      w !in STOP_WORDS && multiset(CellTokens(vals))[w] > MIN_COUNT_EXCLUSIVE
    ensures forall w :: w in Frequencies(vals) ==> Frequencies(vals)[w] == multiset(CellTokens(vals))[w]
  {
    TokensOfColumn(vals);
  }

  /**
   * Every key of the table is a lower-case ASCII word of at least three letters that stands as a
   * whole \b-delimited match in the lower-cased text of some present cell.
   */
  lemma FrequencyKeysAreMatches(vals: seq<Option<string>>, w: string)
    requires w in Frequencies(vals)
    ensures IsLowerWord(w)
    ensures exists i :: 0 <= i < |vals| && vals[i].Some? && w in Tokenize.Tokens(Text.Lower(vals[i].value))
  {
    FrequenciesMeaning(vals);
    assert w in CellTokens(vals);
    CellTokensFromCells(vals, w);
    var i :| 0 <= i < |vals| && vals[i].Some? && w in Tokenize.Tokens(Text.Lower(vals[i].value));
    LowerTokensAreLowerWords(vals[i].value, w);
  }

  /** A missing cell changes nothing: dropna() removes it before the join. */
  lemma MissingCellsContributeNothing(before: seq<Option<string>>, after: seq<Option<string>>)
    ensures Frequencies(before + [None] + after) == Frequencies(before + after)
  {
    var vals := before + [None] + after;
    PresentAppend(before, [None]);
    PresentAppend(before + [None], after);
    PresentAppend(before, after);
    assert Present([None]) == [];
    assert Present(vals) == Present(before + after);
  }

  lemma {:induction false} PresentAppend(a: seq<Option<string>>, b: seq<Option<string>>)
    ensures Present(a + b) == Present(a) + Present(b)
  {
    if a != [] {
      assert (a + b)[1..] == a[1..] + b;
      PresentAppend(a[1..], b);
    } else {
      assert a + b == b;
    }
  }
}
