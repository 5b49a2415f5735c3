/**
 * CORD19Analyzer: the loaded table, the cleaned table, and the methods that load, clean and
 * analyse them. Every analysis refuses to run until the cleaned table exists.
 */
module Analyzer {
  import opened Wrappers
  import opened Records
  import opened Counting
  import Analysis
  import WordFrequency

  /** What a method gives back: nothing before the data is ready, the exception it raises, or its value. */
  datatype Outcome<T> = NotReady | Raised(error: Error) | Done(value: T)

  /** The two bar charts of analyze_publications_over_time: per year, and per month of the latest year. */
  datatype Timeline = Timeline(yearly: seq<Entry<int>>, monthly: seq<Entry<int>>)

  class Cord19Analyzer {
    const filePath: string
    var df: Option<RawTable>
    var dfClean: Option<CleanTable>

    /** Every cleaned row has its year and month together, taken from its publish date. */
    ghost predicate Valid()
      reads this
    {
      dfClean.Some? ==> forall i :: 0 <= i < |dfClean.value.rows| ==> DatesConsistent(dfClean.value.rows[i])
    }

    constructor(path: string)
      ensures filePath == path && df.None? && dfClean.None?
      ensures Valid()
    {
      filePath := path;
      df := None;
      dfClean := None;
    }

    /**
     * load_data, given what reading filePath produced: the table, or None when reading failed.
     * A failed read keeps the previous table; the cleaned table is kept either way.
     */
    method LoadData(read: Option<RawTable>) returns (ok: bool)
      requires Valid()
      modifies this`df
      ensures ok <==> read.Some?
      ensures df == if read.Some? then read else old(df)
      ensures Valid()
    {
      if read.Some? {
        df := read;
        ok := true;
      } else {
        ok := false;
      }
    }

    /**
     * clean_data: rebuild the cleaned table from a copy of the loaded one, one column assignment at
     * a time, stopping at the first exception; the loaded table is not touched.
     */
    method CleanData(parse: string -> Option<Date>) returns (outcome: Outcome<CleanTable>)
      requires Valid()
      modifies this`dfClean
      ensures df.None? ==> outcome.NotReady? && dfClean == old(dfClean)
      ensures df.Some? ==> dfClean == Some(CleanedTable(df.value, parse))
      ensures df.Some? && CleanError(df.value).Some? ==> outcome == Raised(CleanError(df.value).value)
      ensures df.Some? && CleanError(df.value).None? ==> outcome == Done(dfClean.value)
      ensures Valid()
    {
      if df.None? {
        return NotReady;
      }
      var t := df.value;
      CleanedRows(t, parse);
      dfClean := Some(Copy(t));
      if PublishTime !in t.columns {
        return Raised(KeyError(PublishTime));
      }
      dfClean := Some(WithDates(dfClean.value, t, parse));
      if Abstract !in t.columns {
        return Raised(KeyError(Abstract));
      }
      dfClean := Some(WithWordCounts(dfClean.value));
      if Journal !in t.columns {
        return Raised(KeyError(Journal));
      }
      if NoJournalText(t) {
        return Raised(AttributeError);
      }
      dfClean := Some(WithJournalClean(dfClean.value));
      outcome := Done(dfClean.value);
    }

    /**
     * analyze_publications_over_time: the per-year counts in year order, and the per-month counts
     * of the latest year that the second chart draws.
     */
    method AnalyzePublicationsOverTime() returns (outcome: Outcome<Timeline>)
      requires Valid()
      ensures dfClean.None? ==> outcome.NotReady?
      ensures dfClean.Some? && Year !in dfClean.value.columns ==> outcome == Raised(KeyError(Year))
      ensures dfClean.Some? && Year in dfClean.value.columns ==> outcome.Done?
      ensures outcome.Done? ==>
        var rows := dfClean.value.rows;
        var years := Analysis.Years(rows);
        && IsCountTable(years, outcome.value.yearly)
        && StrictlyAscending(outcome.value.yearly)
        && SumCounts(outcome.value.yearly) == PresentCount(years)
        && StrictlyAscending(outcome.value.monthly)
        && (forall e :: e in outcome.value.monthly ==> 1 <= e.key <= 12)
        && (Analysis.LatestYear(years).None? ==> outcome.value.monthly == [])
        && (Analysis.LatestYear(years).Some? ==>
              IsCountTable(Analysis.MonthsIn(rows, Analysis.LatestYear(years).value), outcome.value.monthly)
              && SumCounts(outcome.value.monthly) == Occurrences(years, Analysis.LatestYear(years).value))
    {
      if dfClean.None? {
        return NotReady;
      }
      var c := dfClean.value;
      if Year !in c.columns {
        return Raised(KeyError(Year));
      }
      var yearly := Analysis.YearlyCounts(c.rows);
      Analysis.YearlyCountsTotal(c.rows);
      var monthly := Analysis.MonthlyCounts(c.rows);
      Analysis.MonthlyCountsAreMonths(c.rows);
      if Analysis.LatestYear(Analysis.Years(c.rows)).Some? {
        Analysis.MonthlyCountsTotal(c.rows);
      }
      outcome := Done(Timeline(yearly, monthly));
    }

    /**
     * analyze_journals: the topN most frequent cleaned journal names with their counts, most
     * frequent first; missing names are not counted. The bar chart of an empty ranking fails when
     * pandas reads the position of its first bar.
     */
    method AnalyzeJournals(topN: int) returns (outcome: Outcome<seq<Entry<string>>>)
      ensures dfClean.None? ==> outcome.NotReady?
      ensures dfClean.Some? && JournalClean !in dfClean.value.columns ==> outcome == Raised(KeyError(JournalClean))
      ensures dfClean.Some? && JournalClean in dfClean.value.columns ==>
        var size := HeadLength(|DistinctValues(Analysis.Journals(dfClean.value.rows))|, topN);
        && (size == 0 ==> outcome == Raised(IndexError))
        && (size > 0 ==> outcome.Done? && |outcome.value| == size)
      ensures outcome.Done? ==>
        var journals := Analysis.Journals(dfClean.value.rows);
        && (forall e :: e in outcome.value ==> Some(e.key) in journals && e.count == Occurrences(journals, e.key))
        && DistinctKeys(outcome.value)
        && NonIncreasing(outcome.value)
        && (forall k :: Some(k) in journals && k !in Keys(outcome.value) ==>
              forall e :: e in outcome.value ==> e.count >= Occurrences(journals, k))
    {
      if dfClean.None? {
        return NotReady;
      }
      var c := dfClean.value;
      if JournalClean !in c.columns {
        return Raised(KeyError(JournalClean));
      }
      var journals := Analysis.Journals(c.rows);
      var top := TopCounts(journals, topN);
      if top == [] {
        return Raised(IndexError);
      }
      forall k | Some(k) in journals && k !in Keys(top)
        ensures forall e :: e in top ==> e.count >= Occurrences(journals, k)
      {
        TopCountsAreTop(journals, topN, k);
      }
      outcome := Done(top);
    }

    /**
     * create_word_cloud: the word frequencies behind the cloud of one column. WordCloud refuses an
     * empty table of frequencies, and fails when maxWords leaves no word to size the others by;
     * otherwise maxWords only limits the picture and the frequencies are returned whole.
     */
    method CreateWordCloud(col: Column, maxWords: int) returns (outcome: Outcome<map<string, nat>>)
      ensures dfClean.None? ==> outcome.NotReady?
      ensures dfClean.Some? && col !in dfClean.value.columns ==> outcome == Raised(KeyError(col))
      ensures dfClean.Some? && col in dfClean.value.columns ==>
        var freq := Analysis.WordCloud(dfClean.value.rows, col);
        && (freq == map[] ==> outcome == Raised(ValueError))
        && (freq != map[] && HeadLength(|freq|, maxWords) == 0 ==> outcome == Raised(IndexError))
        && (freq != map[] && HeadLength(|freq|, maxWords) > 0 ==> outcome == Done(freq))
      ensures dfClean.Some? && !Analysis.IsTextColumn(col) ==> !outcome.Done?
      ensures outcome.Done? && Analysis.IsTextColumn(col) ==>
        var tokens := WordFrequency.CellTokens(Analysis.TextCells(dfClean.value.rows, col));
        && (forall w :: w in outcome.value <==>
              w !in WordFrequency.STOP_WORDS && multiset(tokens)[w] > WordFrequency.MIN_COUNT_EXCLUSIVE)
        && (forall w :: w in outcome.value ==> outcome.value[w] == multiset(tokens)[w])
        && (forall w :: w in outcome.value ==> WordFrequency.IsLowerWord(w))
    {
      if dfClean.None? {
        return NotReady;
      }
      var c := dfClean.value;
      if col !in c.columns {
        return Raised(KeyError(col));
      }
      var freq := Analysis.WordCloud(c.rows, col);
      if freq == map[] {
        return Raised(ValueError);
      }
      if HeadLength(|freq|, maxWords) == 0 {
        return Raised(IndexError);
      }
      if Analysis.IsTextColumn(col) {
        var cells := Analysis.TextCells(c.rows, col);
        forall w | w in freq ensures WordFrequency.IsLowerWord(w) {
          WordFrequency.FrequencyKeysAreMatches(cells, w);
        }
      }
      outcome := Done(freq);
    }

    /**
     * analyze_sources: the ten most frequent sources with their counts, most frequent first; an
     * empty ranking fails in its bar chart as in AnalyzeJournals.
     */
    method AnalyzeSources() returns (outcome: Outcome<seq<Entry<string>>>)
      ensures dfClean.None? ==> outcome.NotReady?
      ensures dfClean.Some? && SourceX !in dfClean.value.columns ==> outcome == Raised(KeyError(SourceX))
      ensures dfClean.Some? && SourceX in dfClean.value.columns ==>
        var size := HeadLength(|DistinctValues(Analysis.Sources(dfClean.value.rows))|, Analysis.TOP_SOURCES);
        && (size == 0 ==> outcome == Raised(IndexError))
        && (size > 0 ==> outcome.Done? && |outcome.value| == size)
      ensures outcome.Done? ==>
        var sources := Analysis.Sources(dfClean.value.rows);
        && (forall e :: e in outcome.value ==> Some(e.key) in sources && e.count == Occurrences(sources, e.key))
        && DistinctKeys(outcome.value)
        && NonIncreasing(outcome.value)
        && (forall k :: Some(k) in sources && k !in Keys(outcome.value) ==>
              forall e :: e in outcome.value ==> e.count >= Occurrences(sources, k))
    {
      if dfClean.None? {
        return NotReady;
      }
      var c := dfClean.value;
      if SourceX !in c.columns {
        return Raised(KeyError(SourceX));
      }
      var sources := Analysis.Sources(c.rows);
      var top := TopCounts(sources, Analysis.TOP_SOURCES);
      if top == [] {
        return Raised(IndexError);
      }
      forall k | Some(k) in sources && k !in Keys(top)
        ensures forall e :: e in top ==> e.count >= Occurrences(sources, k)
      {
        TopCountsAreTop(sources, Analysis.TOP_SOURCES, k);
      }
      outcome := Done(top);
    }

    /**
     * get_sample_data: the first n rows (all but the last -n when n is negative), restricted to
     * those of title, abstract, journal, year and source_x that exist, in that order.
     */
    method GetSampleData(n: int) returns (outcome: Outcome<Analysis.Frame>)
      ensures dfClean.None? <==> outcome.NotReady?
      ensures !outcome.Raised?
      ensures outcome.Done? ==> outcome.value == Analysis.Sample(dfClean.value, n)
      ensures outcome.Done? ==>
        var t := dfClean.value;
        && outcome.value.columns == Analysis.Available(Analysis.SAMPLE_COLUMNS, t.columns)
        && Distinct(outcome.value.columns)
        && |outcome.value.rows| == HeadLength(|t.rows|, n)
        && (forall i, j :: 0 <= i < |outcome.value.rows| && 0 <= j < |outcome.value.columns| ==>
              j < |outcome.value.rows[i]| && outcome.value.rows[i][j] == Analysis.CellOf(t.rows[i], outcome.value.columns[j]))
    {
      if dfClean.None? {
        return NotReady;
      }
      outcome := Done(Analysis.Sample(dfClean.value, n));
    }
  }
}
