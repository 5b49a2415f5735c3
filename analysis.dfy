/**
 * The values the analysis methods compute from the cleaned rows, apart from the figures they draw:
 * publications per year and per month of the latest year, the journal and source rankings, the
 * word-cloud frequencies and the sample of rows.
 */
module Analysis {
  import opened Wrappers
  import opened Records
  import opened Counting
  import WordFrequency
  import Text

  // ------------------------------------------------------------ publications over time

  /** df_clean['year'] */
  function Years(rows: seq<CleanRecord>): seq<Option<int>> {
    seq(|rows|, i requires 0 <= i < |rows| => rows[i].year)
  }

  /** value_counts().sort_index() of the year column: rows without a year are not counted. */
  function YearlyCounts(rows: seq<CleanRecord>): (r: seq<Entry<int>>)
    ensures IsCountTable(Years(rows), r)
    ensures StrictlyAscending(r)
  {
    CountsByKey(Years(rows))
  }

  /** The yearly counts add up to the number of rows that have a year. */
  lemma YearlyCountsTotal(rows: seq<CleanRecord>)
    ensures SumCounts(YearlyCounts(rows)) == PresentCount(Years(rows))
  {
    CountTableSum(Years(rows), YearlyCounts(rows));
  }

  /** Series.max(), which skips missing values; None when every value is missing. */
  function LatestYear(years: seq<Option<int>>): (m: Option<int>)
    ensures m.None? <==> forall i :: 0 <= i < |years| ==> years[i].None?
    ensures m.Some? ==> Some(m.value) in years
    ensures m.Some? ==> forall i :: 0 <= i < |years| && years[i].Some? ==> years[i].value <= m.value
  {
    if years == [] then None
    else
      var rest := LatestYear(years[1..]);
      assert forall i :: 1 <= i < |years| ==> years[i] == years[1..][i - 1];
      match years[0]
      case None => rest
      case Some(y) => if rest.Some? && rest.value > y then rest else Some(y)
  }

  /** df_clean[df_clean['year'] == y]['month'], with the other rows blanked out instead of dropped. */
  function MonthsIn(rows: seq<CleanRecord>, y: int): seq<Option<int>> {
    seq(|rows|, i requires 0 <= i < |rows| => if rows[i].year == Some(y) then rows[i].month else None)
  }

  /** The per-month counts of the latest year, in month order; nothing when no row has a year. */
  function MonthlyCounts(rows: seq<CleanRecord>): (r: seq<Entry<int>>)
    ensures LatestYear(Years(rows)).None? ==> r == []
    ensures LatestYear(Years(rows)).Some? ==> IsCountTable(MonthsIn(rows, LatestYear(Years(rows)).value), r)
    ensures StrictlyAscending(r)
  {
    match LatestYear(Years(rows))
    case None => []
    case Some(y) => CountsByKey(MonthsIn(rows, y))
  }

  /** Every key of the monthly counts is a month number. */
  lemma MonthlyCountsAreMonths(rows: seq<CleanRecord>)
    requires forall i :: 0 <= i < |rows| ==> DatesConsistent(rows[i])
    ensures forall e :: e in MonthlyCounts(rows) ==> 1 <= e.key <= 12
  {
    var r := MonthlyCounts(rows);
    forall e | e in r ensures 1 <= e.key <= 12 {
      var y := LatestYear(Years(rows)).value;
      assert e.key in Keys(r);
      var months := MonthsIn(rows, y);
      var i :| 0 <= i < |months| && months[i] == Some(e.key);
      assert DatesConsistent(rows[i]);
    }
  }

  lemma {:induction false} MonthsOfYearCount(rows: seq<CleanRecord>, y: int)
    requires forall i :: 0 <= i < |rows| ==> DatesConsistent(rows[i])
    ensures PresentCount(MonthsIn(rows, y)) == Occurrences(Years(rows), y)
  {
    if rows != [] {
      var n := |rows| - 1;
      assert MonthsIn(rows, y)[..n] == MonthsIn(rows[..n], y);
      assert Years(rows)[..n] == Years(rows[..n]);
      assert DatesConsistent(rows[n]);
      MonthsOfYearCount(rows[..n], y);
    }
  }

  /** The monthly counts add up to the latest year's yearly count. */
  lemma MonthlyCountsTotal(rows: seq<CleanRecord>)
    requires forall i :: 0 <= i < |rows| ==> DatesConsistent(rows[i])
    requires LatestYear(Years(rows)).Some?
    ensures SumCounts(MonthlyCounts(rows)) == Occurrences(Years(rows), LatestYear(Years(rows)).value)
  {
    var y := LatestYear(Years(rows)).value;
    CountTableSum(MonthsIn(rows, y), MonthlyCounts(rows));
    MonthsOfYearCount(rows, y);
  }

  // ------------------------------------------------------------ journals and sources

  /** df_clean['journal_clean'] */
  function Journals(rows: seq<CleanRecord>): seq<Option<string>> {
    seq(|rows|, i requires 0 <= i < |rows| => rows[i].journalClean)
  }

  /** df_clean['source_x'] */
  function Sources(rows: seq<CleanRecord>): seq<Option<string>> {
    seq(|rows|, i requires 0 <= i < |rows| => rows[i].sourceX)
  }

  /** The number of sources analyze_sources shows. */
  const TOP_SOURCES: int := 10

  // ------------------------------------------------------------ word cloud

  /** The columns whose cells are strings. */
  predicate IsTextColumn(col: Column) {
    col in {Title, Abstract, Journal, SourceX, JournalClean}
  }

  /** The cells of a text column. */
  function TextCells(rows: seq<CleanRecord>, col: Column): seq<Option<string>>
    requires IsTextColumn(col)
  {
    seq(|rows|, i requires 0 <= i < |rows| =>
      match col
      case Title => rows[i].title
      case Abstract => rows[i].abstractText
      case Journal => rows[i].journal
      case SourceX => rows[i].sourceX
      case JournalClean => rows[i].journalClean)
  }

  /**
   * The frequencies create_word_cloud computes for a column: for a text column, a word is kept
   * exactly when it is not a stop word and occurs more than ten times among the tokens of the
   * column's present cells, with that number as its value. The text of a date or number cell
   * ("2020-03-01 00:00:00", "2020.0", "17") has no ASCII letter, so such a column gives no word.
   */
  function WordCloud(rows: seq<CleanRecord>, col: Column): (freq: map<string, nat>)
    ensures !IsTextColumn(col) ==> freq == map[]
    ensures IsTextColumn(col) ==>
      var tokens := WordFrequency.CellTokens(TextCells(rows, col));
      forall w :: w in freq <==> w !in WordFrequency.STOP_WORDS && multiset(tokens)[w] > WordFrequency.MIN_COUNT_EXCLUSIVE
    ensures IsTextColumn(col) ==>
      var tokens := WordFrequency.CellTokens(TextCells(rows, col));
      forall w :: w in freq ==> freq[w] == multiset(tokens)[w]
  {
    if IsTextColumn(col) then
      WordFrequency.FrequenciesMeaning(TextCells(rows, col));
      WordFrequency.Frequencies(TextCells(rows, col))
    else map[]
  }

  // ------------------------------------------------------------ sample

  /** The columns get_sample_data looks for, in the order it shows them. */
  const SAMPLE_COLUMNS: seq<Column> := [Title, Abstract, Journal, Year, SourceX]

  /** One cell of the sample: a string column's value or the year. */
  datatype Cell = Text(text: Option<string>) | Number(number: Option<int>)

  /** A DataFrame of selected columns. */
  datatype Frame = Frame(columns: seq<Column>, rows: seq<seq<Cell>>)

  /** [col for col in wanted if col in present] */
  function Available(wanted: seq<Column>, present: set<Column>): (cols: seq<Column>)
    ensures forall c :: c in cols <==> c in wanted && c in present
    ensures |cols| <= |wanted|
  {
    if wanted == [] then []
    else (if wanted[0] in present then [wanted[0]] else []) + Available(wanted[1..], present)
  }

  /** Available of a list without repeats has no repeats. */
  lemma {:induction false} AvailableDistinct(wanted: seq<Column>, present: set<Column>)
    requires Distinct(wanted)
    ensures Distinct(Available(wanted, present))
  {
    if wanted != [] {
      var rest := Available(wanted[1..], present);
      AvailableDistinct(wanted[1..], present);
      if wanted[0] in present {
        assert wanted[0] !in wanted[1..];
        assert wanted[0] !in rest;
        assert Available(wanted, present) == [wanted[0]] + rest;
      }
    }
  }

  /** Available keeps the order of wanted: it is a subsequence of it. */
  lemma AvailableKeepsOrder(wanted: seq<Column>, present: set<Column>, i: nat, j: nat)
    requires i < j < |Available(wanted, present)|
    ensures exists p, q :: 0 <= p < q < |wanted| && wanted[p] == Available(wanted, present)[i]
                                                  && wanted[q] == Available(wanted, present)[j]
  {
    var p, q := AvailablePositions(wanted, present, i, j);
  }

  lemma {:induction false} AvailablePositions(wanted: seq<Column>, present: set<Column>, i: nat, j: nat)
    returns (p: nat, q: nat)
    requires i < j < |Available(wanted, present)|
    ensures p < q < |wanted|
    ensures wanted[p] == Available(wanted, present)[i] && wanted[q] == Available(wanted, present)[j]
  {
    var rest := Available(wanted[1..], present);
    if wanted[0] in present {
      assert Available(wanted, present) == [wanted[0]] + rest;
      if i == 0 {
        p := 0;
        var q' := AvailablePosition(wanted[1..], present, j - 1);
        q := q' + 1;
      } else {
        var p', q' := AvailablePositions(wanted[1..], present, i - 1, j - 1);
        p, q := p' + 1, q' + 1;
      }
    } else {
      assert Available(wanted, present) == rest;
      var p', q' := AvailablePositions(wanted[1..], present, i, j);
      p, q := p' + 1, q' + 1;
    }
  }

  lemma {:induction false} AvailablePosition(wanted: seq<Column>, present: set<Column>, j: nat) returns (q: nat)
    requires j < |Available(wanted, present)|
    ensures q < |wanted| && wanted[q] == Available(wanted, present)[j]
  {
    var rest := Available(wanted[1..], present);
    if wanted[0] in present && j == 0 {
      q := 0;
    } else {
      var j' := if wanted[0] in present then j - 1 else j;
      assert Available(wanted, present)[j] == rest[j'];
      var q' := AvailablePosition(wanted[1..], present, j');
      q := q' + 1;
    }
  }

  /** The value of one sampled column in a row. */
  function CellOf(r: CleanRecord, col: Column): Cell {
    match col
    case Year => Number(r.year)
    case Title => Text(r.title)
    case Abstract => Text(r.abstractText)
    case Journal => Text(r.journal)
    case _ => Text(r.sourceX)
  }

  /** df_clean[available_columns].head(n) */
  function Sample(t: CleanTable, n: int): (f: Frame)
    ensures f.columns == Available(SAMPLE_COLUMNS, t.columns)
    ensures forall c :: c in f.columns <==> c in SAMPLE_COLUMNS && c in t.columns
    ensures Distinct(f.columns)
    ensures |f.rows| == HeadLength(|t.rows|, n)
    ensures forall i :: 0 <= i < |f.rows| ==> |f.rows[i]| == |f.columns|
    ensures forall i, j :: 0 <= i < |f.rows| && 0 <= j < |f.columns| ==> f.rows[i][j] == CellOf(t.rows[i], f.columns[j])
  {
    var cols := Available(SAMPLE_COLUMNS, t.columns);
    AvailableDistinct(SAMPLE_COLUMNS, t.columns);
    var k := HeadLength(|t.rows|, n);
    Frame(cols, seq(k, i requires 0 <= i < k => seq(|cols|, j requires 0 <= j < |cols| => CellOf(t.rows[i], cols[j]))))
  }

  // ------------------------------------------------------------ a worked example

  /** Three journal cells as they come from the file, and what cleaning makes of them. */
  lemma CleanCapitalisedExample()
    ensures CleanJournal(Some("Nature")) == Some("nature")
    ensures CleanJournal(Some("Lancet")) == Some("lancet")
  {
    assert Text.Lower("Nature") == "nature";
    Text.StripStripped("nature");
    assert Text.Lower("Lancet") == "lancet";
    Text.StripStripped("lancet");
  }

  lemma CleanPaddedNatureExample()
    ensures CleanJournal(Some("nature ")) == Some("nature")
  {
    assert Text.Lower("nature ") == [] + "nature" + " ";
    Text.StripPaddedCore(Text.Lower("nature "), [], "nature", " ");
  }

  /** The cleaned journal column of the example. */
  const EXAMPLE_JOURNALS: seq<Option<string>> := [Some("nature"), Some("nature"), Some("lancet")]

  lemma ExampleDistinct()
    ensures DistinctValues(EXAMPLE_JOURNALS) == ["nature", "lancet"]
  {
    var vals := EXAMPLE_JOURNALS;
    assert "nature"[0] != "lancet"[0];
    assert vals[..2] == [Some("nature"), Some("nature")];
    assert vals[..2][..1] == [Some("nature")];
    assert vals[..1] == [Some("nature")];
    assert DistinctValues(vals[..1]) == ["nature"];
    assert DistinctValues(vals[..2]) == ["nature"];
    assert "lancet" !in ["nature"];
  }

  lemma ExampleTally()
    ensures Tally(["nature", "lancet"], EXAMPLE_JOURNALS) == [Entry("nature", 2), Entry("lancet", 1)]
  {
    var vals := EXAMPLE_JOURNALS;
    assert "nature"[0] != "lancet"[0];
    assert vals[..2] == [Some("nature"), Some("nature")];
    assert vals[..2][..1] == [Some("nature")];
    assert vals[..1] == [Some("nature")];
    assert Occurrences(vals[..1], "nature") == 1;
    assert Occurrences(vals[..2], "nature") == 2;
    assert Occurrences(vals[..1], "lancet") == 0;
    assert Occurrences(vals[..2], "lancet") == 0;
  }

  lemma TopCountsExample()
    ensures TopCounts(EXAMPLE_JOURNALS, 2) == [Entry("nature", 2), Entry("lancet", 1)]
  {
    ExampleDistinct();
    ExampleTally();
    var t := [Entry("nature", 2), Entry("lancet", 1)];
    assert SortByCount(t) == t;
  }

  /** "Nature", "nature " and "Lancet" rank as nature (2) ahead of lancet (1) in analyze_journals(2). */
  lemma JournalRankingExample()
    ensures TopCounts([CleanJournal(Some("Nature")), CleanJournal(Some("nature ")), CleanJournal(Some("Lancet"))], 2)
         == [Entry("nature", 2), Entry("lancet", 1)]
  {
    CleanCapitalisedExample();
    CleanPaddedNatureExample();
    TopCountsExample();
    assert [CleanJournal(Some("Nature")), CleanJournal(Some("nature ")), CleanJournal(Some("Lancet"))] == EXAMPLE_JOURNALS;
  }
}
