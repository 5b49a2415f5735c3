# CORD-19 metadata analyzer, modelled in Dafny

This project models `CORD19Analyzer`, the class that loads the CORD-19 `metadata.csv` table,
cleans it, and computes the values behind the dashboard's charts. It covers:

- **the analyzer's lifecycle** (`Analyzer.Cord19Analyzer`). The fields `df` (the loaded table) and
  `dfClean` (the cleaned table) start empty. `LoadData` sets `df`. `CleanData` rebuilds `dfClean`
  from a copy of `df`, one column assignment at a time. Every analysis method answers `NotReady`
  until `dfClean` exists, and raises `KeyError` when the column it reads is missing.
- **cleaning one row** (`Records`):
  - `publish_time` is parsed, and a missing or unparseable cell becomes a missing date;
  - `year` and `month` come from that date;
  - `abstract_word_count` is the number of `str.split()` words, or 0 for a missing abstract;
  - `journal_clean` is the journal name lower-cased and stripped, and a missing name stays missing.
- **Python's string primitives** as the cleaning uses them (`Text`): `str.isspace`, `str.split()`,
  `str.strip()` and `str.lower()`.
- **the regular expression** `\b[a-zA-Z]{3,}\b` as `re.findall` applies it (`Tokenize`). A match is
  a maximal run of at least three ASCII letters. A word character (a digit, `_` or a non-ASCII
  letter) must not touch the run on either side.
- **pandas' counting** (`Counting`): `value_counts()` (missing values dropped, most frequent first),
  `value_counts().sort_index()`, and `head(n)`, including pandas' meaning for a negative `n`.
- **the word-frequency table** of `create_word_cloud` (`WordFrequency`). The present cells of a
  column are joined with spaces and lower-cased. Tokens are counted with `Counter`. Stop words and
  words seen ten times or fewer are dropped.
- **the analyses** (`Analysis`): publications per year, per month of the latest year, the journal
  and source rankings, the word cloud's frequencies, and the sample of rows.

Reading the CSV file is a parameter of `LoadData`: the table read, or `None` when reading failed.
Date parsing is a parameter of `CleanData`: a function from a cell's text to an optional date.

Behaviour worth noting, as data_Analysis.py and the libraries it calls give it:

- **Negative `top_n`.** `head(top_n)` with a negative `top_n` keeps all but the last `-top_n`
  rows (data_Analysis.py:119). It does not return an empty table.
- **Tie order.** Ties in `value_counts()` have no guaranteed order. No contract promises one.
- **Empty rankings raise.** The bar chart of an empty `value_counts()` table fails with
  `IndexError` when pandas reads the position of its first bar (data_Analysis.py:122, 175). This
  happens when `top_n` is 0, when a negative `top_n` removes every row, or when no journal or
  source is present.
- **The word cloud raises.** `generate_from_frequencies` (data_Analysis.py:152-157) raises
  `ValueError` for an empty frequency table. This is always so for a date or number column, and
  for a text column where no word other than a stop word occurs more than ten times. It raises
  `IndexError` when `max_words` keeps no word (0, or a negative value whose magnitude is at least
  the number of words). Otherwise `max_words` limits only the picture, and the returned
  frequencies are never truncated (data_Analysis.py:164).
- **`clean_data` can raise.** It raises `KeyError` when `publish_time`, `abstract` or `journal`
  is missing (data_Analysis.py:64-77). It raises `AttributeError` when every journal cell of a
  non-empty table is missing, because pandas then reads the column as floats and `.str` is
  unavailable (data_Analysis.py:77). In both cases `df_clean` keeps the columns assigned before
  the failing line.
- **`load_data` clears nothing.** A failed `load_data` keeps the previous `df`. A successful one
  keeps the previous `df_clean` as well (data_Analysis.py:18-26).

## Model

| member | source | states |
|---|---|---|
| Analyzer.Cord19Analyzer.constructor | data_Analysis.py:12-16 | the path is kept; there is no loaded table and no cleaned table |
| Analyzer.Cord19Analyzer.LoadData | data_Analysis.py:18-26 | returns true exactly when reading succeeded; then `df` is the table read, otherwise `df` is unchanged; `dfClean` is never touched |
| Analyzer.Cord19Analyzer.CleanData | data_Analysis.py:53-80 | with no loaded table: not ready, and `dfClean` is unchanged; otherwise `dfClean` is `CleanedTable` of `df` and the date parser, which depends on nothing else, so cleaning twice gives the same table; `df` is not modified; the outcome is the exception `CleanError` names, or the cleaned table; every cleaned row keeps the class invariant (year and month together) |
| Analyzer.Cord19Analyzer.AnalyzePublicationsOverTime | data_Analysis.py:82-110 | not ready before cleaning; KeyError without a year column; otherwise the yearly counts are a count table of the year column, in strictly ascending year order, summing to the number of rows with a year; the monthly counts are a count table of the months of rows in the latest year, in month order, keyed 1..12, summing to that year's count, and empty when no row has a year |
| Analyzer.Cord19Analyzer.AnalyzeJournals | data_Analysis.py:112-127 | not ready before cleaning; KeyError without journal_clean; IndexError when head(topN) of the journal counts is empty; otherwise exactly min(topN, distinct present journals) entries for non-negative topN and all but the last -topN for negative topN, each a present cleaned journal with its exact number of rows, no journal twice, counts non-increasing, and no journal left out occurs more often than any journal shown |
| Analyzer.Cord19Analyzer.CreateWordCloud | data_Analysis.py:129-164 | not ready before cleaning; KeyError for a missing column; ValueError when the frequency table is empty, so always for a date or number column; IndexError when maxWords keeps no word; otherwise the whole table: a word is in it exactly when it is not a stop word and occurs more than ten times among the tokens of the column's present cells, its value is that number, and it is a lower-case ASCII word of three or more letters |
| Analyzer.Cord19Analyzer.AnalyzeSources | data_Analysis.py:166-182 | not ready before cleaning; KeyError without source_x; IndexError when no source is present; otherwise exactly min(10, distinct present sources) entries with the same ranking guarantees as the journals |
| Analyzer.Cord19Analyzer.GetSampleData | data_Analysis.py:184-193 | not ready exactly before cleaning and never an exception; otherwise the value is `Sample` of the cleaned table: the columns are those of title, abstract, journal, year, source_x that exist, in that order and each once; head(n) many rows (negative n drops the last -n); row i holds the values of cleaned row i in those columns |
| Records.AbstractWords | data_Analysis.py:72-74 | 0 for a missing abstract; otherwise the number of positions where a word starts, a non-whitespace character at the start or after whitespace |
| Records.CleanJournal | data_Analysis.py:77 | the cleaned name is missing exactly when the journal is missing |
| Records.CleanJournalTrims | data_Analysis.py:77 | a cleaned name is lower-case, has no whitespace at either end, and equals the lower-cased name with only whitespace removed from its two ends |
| Records.CleanJournalIdempotent | data_Analysis.py:77 | cleaning a cleaned name changes nothing |
| Records.CleanJournalIgnoresCaseAndPadding | data_Analysis.py:77 | a name padded with whitespace cleans to the same name as its lower-cased core |
| Records.CleanedTable | data_Analysis.py:60-77 | the row count is that of the loaded table; the loaded columns are kept; year and month are added exactly when publish_time exists; abstract_word_count is added exactly when publish_time and abstract exist; journal_clean is added exactly when cleaning raises nothing |
| Records.CleanedRow | data_Analysis.py:60-77 | row i of the cleaned table equals `CleanRow` of loaded row i in every column the cleaned table has, and its year and month are both present or both missing, taken from its parsed date, with the month in 1..12 |
| Records.CleanedRows | data_Analysis.py:60-77 | the same for every row |
| Records.CleanRow | data_Analysis.py:64-77 | one raw row with every derived column; CleanedRow states that each row of the cleaned table agrees with it |
| Records.Copy | data_Analysis.py:60 | `df.copy()`: the loaded columns and cells; CleanedTable and CleanedRow state the result |
| Records.WithDates | data_Analysis.py:64-68 | the publish_time, year and month assignments; CleanedTable and CleanedRow state the result |
| Records.WithWordCounts | data_Analysis.py:72-74 | the abstract_word_count assignment; CleanedTable and CleanedRow state the result |
| Records.WithJournalClean | data_Analysis.py:77 | the journal_clean assignment; CleanedTable and CleanedRow state the result |
| Text.Split | data_Analysis.py:73 | every word `str.split()` returns is non-empty and has no whitespace; with SplitCountsWordStarts and SplitKeepsText this fixes the number of words and their concatenation, which is all abstract_word_count uses, but not where each word ends |
| Text.SplitCountsWordStarts | data_Analysis.py:73 | the number of words equals the number of word starts |
| Text.SplitKeepsText | data_Analysis.py:73 | the words, concatenated, are the input with its whitespace removed |
| Text.LowerIsLower | data_Analysis.py:77 | lower-casing a lower-cased text changes no character |
| Text.LowerKeepsSpace | data_Analysis.py:77 | lower-casing keeps whitespace and non-whitespace where they are |
| Text.StripTrims | data_Analysis.py:77 | the result of `str.strip()` has no whitespace at either end and is the input with only whitespace removed at its two ends |
| Text.StripStripped | data_Analysis.py:77 | a string with no whitespace at either end is its own strip |
| Text.StripPadded | data_Analysis.py:77 | extra whitespace around the input does not change the strip |
| Text.StripPaddedCore | data_Analysis.py:77 | stripping whitespace padding from a core with no whitespace at either end gives the core |
| Text.StripPosition | data_Analysis.py:77 | `Text.Strip` (`str.strip()`) is the slice of its input between two all-whitespace margins, with no whitespace at its own ends |
| Text.Lower | data_Analysis.py:77 | `str.lower()` character by character; its meaning is stated by LowerIsLower and LowerKeepsSpace |
| Tokenize.RunEndIsRun | data_Analysis.py:139 | the letter run scanned from a position is all ASCII letters and stops at a non-letter or the end |
| Tokenize.TokenEndsRun | data_Analysis.py:139 | a match always extends to the end of its letter run |
| Tokenize.SpansFromSound | data_Analysis.py:139 | every span the scan reports lies after the scan position and is a match |
| Tokenize.SpansFromOrdered | data_Analysis.py:139 | the scan reports matches left to right, with no overlap |
| Tokenize.SpansFromComplete | data_Analysis.py:139 | every match after the scan position is reported |
| Tokenize.TokensAreMatches | data_Analysis.py:139 | every token is the text of a match: three or more ASCII letters, with no word character on either side |
| Tokenize.MatchesAreTokens | data_Analysis.py:139 | the text of every match is a token |
| Tokenize.TokensOfJoin | data_Analysis.py:136-139 | the tokens of two texts joined with a space are the tokens of the first followed by those of the second |
| Tokenize.Tokens | data_Analysis.py:139 | `re.findall` of the pattern: the texts of the scan's spans; TokensAreMatches, MatchesAreTokens and the SpansFrom lemmas state that these are exactly the matches, left to right |
| Counting.OccurrencesPositive | data_Analysis.py:119 | a value occurs a positive number of times exactly when it is present |
| Counting.DistinctValues | data_Analysis.py:119 | the distinct present values, each once |
| Counting.ValueCounts | data_Analysis.py:119 | one entry per distinct present value with its exact count, no value twice, counts non-increasing, as many entries as distinct present values |
| Counting.SortByCount | data_Analysis.py:119 | a permutation of its input with counts non-increasing |
| Counting.CountsByKey | data_Analysis.py:89 | one entry per distinct present value with its exact count, keys strictly ascending |
| Counting.SortByKey | data_Analysis.py:89 | a permutation of its input with keys strictly ascending |
| Counting.CountTableSum | data_Analysis.py:89 | the counts of a count table add up to the number of present values |
| Counting.TopEntriesAreTop | data_Analysis.py:119 | no value left out of `head(n)` of a sorted count table occurs more often than a value shown |
| Counting.TopCounts | data_Analysis.py:119 | each entry is a present value with its exact count, no value twice, counts non-increasing; the length is head(n) of the number of distinct present values: min(n, that number) for non-negative n, that number less -n (at least 0) for negative n |
| Counting.TopCountsAreTop | data_Analysis.py:119 | no value left out occurs more often than a value shown |
| Counting.Head | data_Analysis.py:119 | head(n) is a prefix: the first n rows for non-negative n (all if fewer), all but the last -n for negative n |
| WordFrequency.TokensOfColumn | data_Analysis.py:136-139 | the tokens of the joined, lower-cased column are the tokens of each present cell, cell by cell |
| WordFrequency.FrequenciesMeaning | data_Analysis.py:140-149 | a word is kept exactly when it is no stop word and occurs more than ten times, and its value is its number of occurrences |
| WordFrequency.Frequencies | data_Analysis.py:136-149 | join, lower, findall, Counter and the filtering comprehension; its meaning is stated by FrequenciesMeaning and FrequencyKeysAreMatches |
| WordFrequency.FrequencyKeysAreMatches | data_Analysis.py:136-149 | every kept word is a lower-case ASCII word of three or more letters that is a whole match in the lower-cased text of some present cell |
| WordFrequency.LowerTokensAreLowerWords | data_Analysis.py:139 | every token of a lower-cased text is a lower-case ASCII word of three or more letters |
| WordFrequency.MissingCellsContributeNothing | data_Analysis.py:136 | a missing cell anywhere in the column leaves the frequencies unchanged |
| Analysis.YearlyCounts | data_Analysis.py:89 | a count table of the year column, keys strictly ascending |
| Analysis.YearlyCountsTotal | data_Analysis.py:89 | the yearly counts add up to the number of rows with a year |
| Analysis.LatestYear | data_Analysis.py:102 | missing exactly when no row has a year; otherwise a year some row has, and no row has a later one |
| Analysis.MonthlyCounts | data_Analysis.py:102-103 | empty when no row has a year; otherwise a count table of the months of rows in the latest year; keys strictly ascending |
| Analysis.MonthlyCountsAreMonths | data_Analysis.py:103 | every monthly key is in 1..12 |
| Analysis.MonthlyCountsTotal | data_Analysis.py:102-103 | the monthly counts add up to the number of rows in the latest year |
| Analysis.MonthsIn | data_Analysis.py:103 | the month column of the rows in one year; MonthlyCounts, MonthlyCountsAreMonths and MonthlyCountsTotal state what is counted |
| Analysis.WordCloud | data_Analysis.py:136-149 | for a text column a word is kept exactly when it is not a stop word and occurs more than ten times among the tokens of the present cells, and its value is that number; nothing for a column of dates or numbers |
| Analysis.TextCells | data_Analysis.py:136 | the cells of a text column, missing ones included; WordCloud and FrequenciesMeaning state what is made of them |
| Analysis.Available | data_Analysis.py:191 | a column is kept exactly when it is wanted and present |
| Analysis.AvailableKeepsOrder | data_Analysis.py:191 | the kept columns keep the wanted order |
| Analysis.AvailableDistinct | data_Analysis.py:191 | a wanted list without repeats gives kept columns without repeats |
| Analysis.Sample | data_Analysis.py:190-193 | the columns are `Available` of title, abstract, journal, year, source_x: the present ones, in that order, none twice; head(n) many rows; each cell is the value of that row in that column |
| Analysis.JournalRankingExample | data_Analysis.py:77-119 | the journals "Nature", "nature " and "Lancet" rank as nature with 2 ahead of lancet with 1 for a top 2 |

## Left out

- Figures: every matplotlib, seaborn and WordCloud call, and the figure objects the methods return alongside their values.
- `print` output and the `warnings.filterwarnings` call: console output and process configuration.
- `basic_exploration`: its missing-value percentages are floating point, and `describe()` and `dtypes` are pandas reports.
- `app.py` (the Streamlit dashboard): user interface, caching and layout, with float averages and percentages.
- Analyzer.Cord19Analyzer.LoadData: `pd.read_csv` is replaced by its result. The table keeps only the five columns the analyzer reads; other CSV columns pass through pandas untouched and are not modelled.
- Records.ParseCell: `pd.to_datetime` is a parameter applied cell by cell. pandas infers one format for the whole column, which this does not capture. A column whose dates pandas cannot give a single datetime type, so that `.dt` fails, is not modelled.
- Analysis.Years: pandas holds years and months as floats because of missing values. They are integers here.
- Counting.ValueCounts: the order among equal counts is unspecified in pandas. The model sorts in one fixed way, and no contract states an order among ties.
- Text.LowerChar: `str.lower()` is modelled for ASCII and Latin-1 letters. Other scripts keep their case. Characters whose lower-case form is longer than one character are not modelled.
- Tokenize.IsWordChar: `\w` is exact for ASCII and Latin-1. Above U+00FF every character that is not whitespace and not in U+2000..U+206F counts as a word character, which approximates Unicode's letter and digit classes.
- Analyzer.Cord19Analyzer.CreateWordCloud: the column is one of the nine columns modelled. A date or number column gives no word, because the text pandas gives such cells (`2020-03-01 00:00:00`, `2020.0`, `17`) holds no ASCII letter, so the call raises `ValueError`. Exceptions from font loading or layout inside WordCloud are not modelled.
- Analysis.WordCloud: the picture layout belongs to WordCloud rendering and is not modelled; `max_words` enters only through `CreateWordCloud`'s exceptions.
- Analyzer.Cord19Analyzer.AnalyzeJournals: the only bar-chart failure modelled, here and in `AnalyzeSources`, is the empty ranking; other matplotlib errors are not.
- Records.CleanError: pandas raises `AttributeError` whenever it infers a non-string type for the journal column. Only the all-missing case of that type inference is modelled; a column whose every present cell reads as a number or a boolean is treated as text.
