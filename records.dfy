/**
 * The metadata table as the analyzer sees it: the raw rows read from metadata.csv, the cleaned
 * rows with the derived columns, and the column-by-column cleaning that turns one into the other.
 */
module Records {
  import opened Wrappers
  import Text

  /** The columns the analyzer reads or adds. */
  datatype Column = Title | Abstract | Journal | PublishTime | SourceX
                  | Year | Month | AbstractWordCount | JournalClean

  /** The columns that can come from the file itself. */
  const RAW_COLUMNS: set<Column> := {Title, Abstract, Journal, PublishTime, SourceX}

  /** The columns clean_data adds. */
  const DERIVED_COLUMNS: set<Column> := {Year, Month, AbstractWordCount, JournalClean}

  type RawColumns = cs: set<Column> | cs <= RAW_COLUMNS witness {}

  type MonthNumber = m: int | 1 <= m <= 12 witness 1

  /** A parsed publish_time; only its year and month are used. */
  datatype Date = Date(year: int, month: MonthNumber, day: int)

  /** One line of metadata.csv; None is an empty (NaN) cell. */
  datatype RawRecord = RawRecord(
    title: Option<string>,
    abstractText: Option<string>,
    journal: Option<string>,
    publishTime: Option<string>,
    sourceX: Option<string>)

  /** The loaded DataFrame: which of the columns the file has, and its rows. */
  datatype RawTable = RawTable(columns: RawColumns, rows: seq<RawRecord>)

  /** One row of df_clean; a field is meaningful only when its column is in the table. */
  datatype CleanRecord = CleanRecord(
    title: Option<string>,
    abstractText: Option<string>,
    journal: Option<string>,
    sourceX: Option<string>,
    publishTime: Option<Date>,
    year: Option<int>,
    month: Option<int>,
    abstractWordCount: nat,
    journalClean: Option<string>)

  datatype CleanTable = CleanTable(columns: set<Column>, rows: seq<CleanRecord>)

  /**
   * The exceptions the analyzer's methods raise: a missing column, the .str accessor on a column
   * without text, WordCloud given no word, and a bar chart or word cloud with nothing to draw.
   */
  datatype Error = KeyError(column: Column) | AttributeError | ValueError | IndexError

  // ------------------------------------------------------------ one cell at a time

  /** pd.to_datetime(..., errors='coerce') on one cell: a missing or unparseable cell becomes NaT. */
  function ParseCell(cell: Option<string>, parse: string -> Option<Date>): (d: Option<Date>)
    ensures cell.None? ==> d.None?
    ensures cell.Some? ==> d == parse(cell.value)
  {
    if cell.None? then None else parse(cell.value)
  }

  /** .dt.year of a parsed cell. */
  function YearOf(d: Option<Date>): Option<int> {
    if d.None? then None else Some(d.value.year)
  }

  /** .dt.month of a parsed cell. */
  function MonthOf(d: Option<Date>): Option<int> {
    if d.None? then None else Some(d.value.month as int)
  }

  /** abstract_word_count: the number of words str.split() finds, or 0 for a missing abstract. */
  function AbstractWords(a: Option<string>): (n: nat)
    ensures a.None? ==> n == 0
    ensures a.Some? ==> n == Text.WordStarts(a.value, 0)
  {
    match a
    case None => 0
    case Some(s) => Text.SplitCountsWordStarts(s); |Text.Split(s)|
  }

  /** journal_clean: .str.lower().str.strip(); a missing name stays missing and a present one stays present. */
  function CleanJournal(j: Option<string>): (r: Option<string>)
    ensures r.None? <==> j.None?
  {
    match j
    case None => None
    case Some(s) => Some(Text.Strip(Text.Lower(s)))
  }

  /**
   * A cleaned journal name is lower-case, has no whitespace at either end, and is the lower-cased
   * name with only whitespace cut off either end.
   */
  lemma CleanJournalTrims(j: string)
    ensures Text.IsLower(CleanJournal(Some(j)).value)
    ensures var r := CleanJournal(Some(j)).value;
      r == [] || (!Text.IsSpace(r[0]) && !Text.IsSpace(r[|r| - 1]))
    ensures var r := CleanJournal(Some(j)).value;
      exists a :: 0 <= a <= |j| - |r| && r == Text.Lower(j)[a..a + |r|] &&
        Text.AllSpace(Text.Lower(j)[..a]) && Text.AllSpace(Text.Lower(j)[a + |r|..])
  {
    var l := Text.Lower(j);
    var a := Text.StripPosition(l);
    Text.LowerIsLower(j);
    SliceOfLower(l, Text.Strip(l), a);
  }

  lemma SliceOfLower(l: string, r: string, a: nat)
    requires Text.IsLower(l)
    requires a + |r| <= |l| && r == l[a..a + |r|]
    ensures Text.IsLower(r)
  {
    forall i | 0 <= i < |r| ensures Text.LowerChar(r[i]) == r[i] {
      assert r[i] == l[a + i];
    }
  }

  lemma {:induction false} LowerOfLower(s: string)
    requires Text.IsLower(s)
    ensures Text.Lower(s) == s
  {
  }

  /** Cleaning a journal name twice gives the same name as cleaning it once. */
  lemma CleanJournalIdempotent(j: Option<string>)
    ensures CleanJournal(CleanJournal(j)) == CleanJournal(j)
  {
    if j.Some? {
      var r := CleanJournal(j).value;
      CleanJournalTrims(j.value);
      LowerOfLower(r);
      Text.StripStripped(r);
    }
  }

  /** Names that differ only in letter case and surrounding whitespace clean to the same name. */
  lemma CleanJournalIgnoresCaseAndPadding(j: string, pre: string, post: string)
    requires Text.AllSpace(pre) && Text.AllSpace(post)
    ensures CleanJournal(Some(pre + j + post)) == CleanJournal(Some(Text.Lower(j)))
  {
    var l := Text.Lower(pre + j + post);
    var m := Text.Lower(j);
    assert l == Text.Lower(pre) + m + Text.Lower(post);
    Text.LowerKeepsSpace(pre);
    Text.LowerKeepsSpace(post);
    Text.StripPadded(Text.Lower(pre), m, Text.Lower(post));
    Text.LowerIsLower(j);
    LowerOfLower(m);
  }

  // ------------------------------------------------------------ one row at a time

  /** What clean_data computes for one raw row, with every derived column present. */
  function CleanRow(r: RawRecord, parse: string -> Option<Date>): CleanRecord {
    var d := ParseCell(r.publishTime, parse);
    CleanRecord(r.title, r.abstractText, r.journal, r.sourceX,
                d, YearOf(d), MonthOf(d), AbstractWords(r.abstractText), CleanJournal(r.journal))
  }

  /** The fields of x that the columns cols make visible agree with y. */
  predicate Agrees(cols: set<Column>, x: CleanRecord, y: CleanRecord) {
    && x.title == y.title && x.abstractText == y.abstractText
    && x.journal == y.journal && x.sourceX == y.sourceX
    && (Year in cols ==> x.publishTime == y.publishTime && x.year == y.year && x.month == y.month)
    && (AbstractWordCount in cols ==> x.abstractWordCount == y.abstractWordCount)
    && (JournalClean in cols ==> x.journalClean == y.journalClean)
  }

  /** A row whose year and month are both present or both missing, with the month in 1..12. */
  predicate DatesConsistent(x: CleanRecord) {
    && (x.year.Some? <==> x.month.Some?)
    && (x.year.Some? <==> x.publishTime.Some?)
    && (x.year.Some? ==> x.year.value == x.publishTime.value.year)
    && (x.month.Some? ==> 1 <= x.month.value <= 12 && x.month.value == x.publishTime.value.month as int)
  }

  // ------------------------------------------------------------ one column at a time

  /** self.df.copy() */
  function Copy(t: RawTable): CleanTable {
    CleanTable(t.columns, seq(|t.rows|, i requires 0 <= i < |t.rows| =>
      var r := t.rows[i];
      CleanRecord(r.title, r.abstractText, r.journal, r.sourceX, None, None, None, 0, None)))
  }

  /** The publish_time conversion and the year and month columns. */
  function WithDates(c: CleanTable, t: RawTable, parse: string -> Option<Date>): CleanTable
    requires |c.rows| == |t.rows|
  {
    CleanTable(c.columns + {Year, Month}, seq(|c.rows|, i requires 0 <= i < |c.rows| =>
      var d := ParseCell(t.rows[i].publishTime, parse);
      c.rows[i].(publishTime := d, year := YearOf(d), month := MonthOf(d))))
  }

  /** The abstract_word_count column. */
  function WithWordCounts(c: CleanTable): CleanTable {
    CleanTable(c.columns + {AbstractWordCount}, seq(|c.rows|, i requires 0 <= i < |c.rows| =>
      c.rows[i].(abstractWordCount := AbstractWords(c.rows[i].abstractText))))
  }

  /** The journal_clean column. */
  function WithJournalClean(c: CleanTable): CleanTable {
    CleanTable(c.columns + {JournalClean}, seq(|c.rows|, i requires 0 <= i < |c.rows| =>
      c.rows[i].(journalClean := CleanJournal(c.rows[i].journal))))
  }

  /** Every journal cell is missing, so pandas reads the column as floats and has no .str accessor. */
  predicate NoJournalText(t: RawTable) {
    |t.rows| > 0 && forall i :: 0 <= i < |t.rows| ==> t.rows[i].journal.None?
  }

  /** The exception clean_data raises on a loaded table, if any, in the order it meets them. */
  function CleanError(t: RawTable): (e: Option<Error>)
    ensures e == Some(KeyError(PublishTime)) <==> PublishTime !in t.columns
    ensures e == Some(KeyError(Abstract)) <==> PublishTime in t.columns && Abstract !in t.columns
    ensures e == Some(KeyError(Journal)) <==> PublishTime in t.columns && Abstract in t.columns && Journal !in t.columns
    ensures e == Some(AttributeError) <==> {PublishTime, Abstract, Journal} <= t.columns && NoJournalText(t)
    ensures e.None? <==> {PublishTime, Abstract, Journal} <= t.columns && !NoJournalText(t)
  {
    if PublishTime !in t.columns then Some(KeyError(PublishTime))
    else if Abstract !in t.columns then Some(KeyError(Abstract))
    else if Journal !in t.columns then Some(KeyError(Journal))
    else if NoJournalText(t) then Some(AttributeError)
    else None
  }

  /** df_clean after clean_data: the copy with every column assignment made before the one that raises. */
  function CleanedTable(t: RawTable, parse: string -> Option<Date>): (c: CleanTable)
    ensures |c.rows| == |t.rows|
    ensures t.columns <= c.columns && c.columns <= t.columns + DERIVED_COLUMNS
    ensures Year in c.columns <==> PublishTime in t.columns
    ensures Month in c.columns <==> PublishTime in t.columns
    ensures AbstractWordCount in c.columns <==> PublishTime in t.columns && Abstract in t.columns
    ensures JournalClean in c.columns <==> CleanError(t).None?
  {
    var c0 := Copy(t);
    if PublishTime !in t.columns then c0
    else
      var c1 := WithDates(c0, t, parse);
      if Abstract !in t.columns then c1
      else
        var c2 := WithWordCounts(c1);
        if CleanError(t).Some? then c2 else WithJournalClean(c2)
  }

  /**
   * Row i of the cleaned table is CleanRow of row i of the loaded one, in every column the table
   * has, and its year and month come from its parsed date.
   */
  lemma CleanedRow(t: RawTable, parse: string -> Option<Date>, i: nat)
    requires i < |t.rows|
    ensures Agrees(CleanedTable(t, parse).columns, CleanedTable(t, parse).rows[i], CleanRow(t.rows[i], parse))
    ensures DatesConsistent(CleanedTable(t, parse).rows[i])
  {
    var c0 := Copy(t);
    if PublishTime in t.columns {
      var c1 := WithDates(c0, t, parse);
      assert c1.rows[i].year == YearOf(ParseCell(t.rows[i].publishTime, parse));
      if Abstract in t.columns {
        var c2 := WithWordCounts(c1);
        assert c2.rows[i].abstractWordCount == AbstractWords(t.rows[i].abstractText);
      }
    }
  }

  /** Every row of the cleaned table agrees with CleanRow and has consistent dates. */
  lemma CleanedRows(t: RawTable, parse: string -> Option<Date>)
    ensures forall i :: 0 <= i < |t.rows| ==>
      Agrees(CleanedTable(t, parse).columns, CleanedTable(t, parse).rows[i], CleanRow(t.rows[i], parse))
    ensures forall i :: 0 <= i < |CleanedTable(t, parse).rows| ==> DatesConsistent(CleanedTable(t, parse).rows[i])
  {
    forall i | 0 <= i < |t.rows|
      ensures Agrees(CleanedTable(t, parse).columns, CleanedTable(t, parse).rows[i], CleanRow(t.rows[i], parse))
      ensures DatesConsistent(CleanedTable(t, parse).rows[i])
    {
      CleanedRow(t, parse, i);
    }
  }
}
