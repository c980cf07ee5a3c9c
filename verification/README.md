# Data analyst agent: a Dafny model

A model of the question-answering core of a small "data analyst agent" web service. A client
posts a text of numbered questions, optionally with CSV files. The service picks a table: the
first wikitable of the first Wikipedia page the text links to, or else the first uploaded CSV.
It then answers each numbered question from a fixed repertoire:

- how many films grossed $2 bn before 2000;
- the earliest film over $1.5 bn;
- the correlation of Rank and Peak;
- a scatterplot of Rank against Peak as a PNG data URI.

Unrecognised questions get a fixed message. A second request handler (`app/utils/data_tools.py`)
scrapes the first linked page, cleans the table and returns four fixed answers. A standalone
endpoint (`app.py`) answers "mean", "summary" or "columns" queries about one uploaded CSV.

Modules, following the program's files:

- `Wrappers`: `Option`, and `Result` with the Python exceptions the code can raise. `Traverse`
  is the loop that stops at the first raising element.
- `Strings`: the Python string primitives the code relies on. These are `str.isspace` and the
  regex class `\s`, `strip`, ASCII `lower`, the substring test `in`, and `split('\n')`.
- `Numbers`: decimal digits and the subset of `float()` spellings the model accepts.
- `Data`: cells (`Missing`, `Num`, `Text`), tables, columns and the answer values.
- `Cascade`: an ordered list of keyword rules where the first rule that fires wins. The
  if/elif chains of `app/analysis.py` and `app.py` are shown to be such lists.
- `Urls`: `extract_urls`, i.e. `re.findall(r'https?://[^\s]+', text)`. `app/utils.py:3-9` and
  `app/utils/data_tools.py:10-16` hold the same function, so `DataTools` calls `Urls.ExtractUrls` too.
- `Analysis`: `answer_questions`.
- `DataTools`: header normalisation, cleaning and the fixed four answers of `app/utils/data_tools.py`.
- `Main`: the `/api/` endpoint of `app/main.py`, i.e. CSV loading, the Wikipedia choice and the source preference.
- `StandaloneApp`: the `/analyze` endpoint of `app.py`.

Python exceptions are values (`Raises(ValueError)`, `Raises(KeyError)`, ...). A request handler
that raises is a `Raises` result, not a crash. Some work is done by libraries outside the model:
fetching and parsing HTML pages, `pd.read_csv`, drawing the PNG, and the Pearson correlation.
These are passed in as function parameters (`fetch`, `scrape`, `render`) or kept symbolic
(`Answer.Pearson(rank, peak)`, `Reply.Mean(table)`).

Points where the code behaves in a way a reader might not expect, and which the model follows:

- A scraped gross cell with nothing left after dropping non-digits does not become 0. In
  `app/utils/data_tools.py:36-41` `astype(float)` raises `ValueError` on the empty string, so
  `DataTools.CleanGrossCell` raises. The same holds for a row too short to reach the gross
  column: pandas pads it with NaN, whose text "nan" has no digits (`DataTools.NormaliseShortGrossRow`).
- The thresholds are not read from the question. The code hard-codes 2 bn, 1.5 bn and the
  year 2000 whatever the question says (`app/analysis.py:24,38,44,50`).
- Answering can raise. In `app/analysis.py:49` the earliest-film gross conversion has no
  `try`, comparing a text `Year` with 2000 raises, and `linregress` in the scatterplot branch
  raises on degenerate data. `Analysis.AnswerOne` returns `Raises` for the count, earliest and
  scatterplot intents in these cases.
- Ties on the earliest year are not resolved by any fixed rule. `sort_values` does not promise
  a stable order, so the contracts only promise a row with the minimal year
  (`Analysis.IsEarliest`).
- An undefined correlation is not replaced by 0.0. In `app/analysis.py:66` a NaN is truthy and
  is kept. The correlation is symbolic in the model (see Left out).

## Model

| member | source | states |
|---|---|---|
| Wrappers.Traverse | app/analysis.py:20-105 | the per-element loop succeeds iff every element succeeds, yields one result per element in order, and otherwise raises the exception of the first failing element |
| Strings.Contains | app/analysis.py:24 | `sub in s` holds iff `sub` occurs at some index of `s` |
| Strings.Lower | app/analysis.py:21 | lowering keeps the length, leaves no upper-case letter, and changes only upper-case letters, to their lower-case counterpart |
| Strings.Strip | app/analysis.py:17 | the stripped text is a contiguous slice whose removed prefix and suffix are all whitespace, and it neither starts nor ends with whitespace |
| Strings.StripUnique | app/analysis.py:17 | any whitespace-trimmed slice with non-space ends is the result of strip |
| Strings.StripIdempotent | app/analysis.py:17 | stripping twice is stripping once |
| Strings.SplitLines | app/analysis.py:17 | `split('\n')` yields at least one piece and no piece holds a newline |
| Strings.JoinSplitLines | app/analysis.py:17 | joining the pieces with newlines gives back the text |
| Strings.SplitLinesAppend | app/analysis.py:17 | splitting `a + "\n" + b` is splitting `a` followed by splitting `b` |
| Numbers.ParseUnsigned | app/analysis.py:34 | an unsigned decimal parses iff it is a non-empty run of digits or has exactly one '.' with digits on both sides and at least one digit; the value is the digits' value, or the whole part plus the fraction digits over the matching power of ten; a second '.', any other character, "" and "." make it unparseable |
| Numbers.ParseFloat | app/analysis.py:34 | `float()` of blank text fails; after stripping, an unsigned text parses as `ParseUnsigned` does, a leading '+' is dropped, and a leading '-' parses iff the rest does and negates its value |
| Numbers.ParseFloatOfNat | app/analysis.py:34 | `float(str(n)) == n` for every natural number |
| Numbers.DigitsOfNatToString | app/analysis.py:34 | the decimal spelling of n reads back as n |
| Data.Column | app/analysis.py:37 | a column has one cell per row, and row i's cell is the cell at the first position labelled with the name (Missing when the row is shorter) |
| Data.CountTrue | app/analysis.py:38 | the count is the size of the set of selected row indices |
| Cascade.FirstMatch | app/analysis.py:21-105 | the result is the outcome of the first rule that fires, or the fallback when none fires |
| Urls.SchemeAt | app/utils.py:7 | the scheme at an index has length 7 iff "http://" occurs there and 8 iff "https://" occurs there |
| Urls.MatchAt | app/utils.py:7 | a match at an index fails iff no scheme starts there, or the scheme reaches the end of the text or is followed by whitespace; a match runs past the scheme to the end of the text or to the first whitespace |
| Urls.ScanMatches | app/utils.py:7-8 | every span the scanner reports is a match of the pattern at its start |
| Urls.Scan | app/utils.py:7-8 | every reported span starts at or after the scan position and ends within the text after its start |
| Urls.ScanInOrder | app/utils.py:7-8 | the reported spans are ordered and do not overlap |
| Urls.ScanNoneSkipped | app/utils.py:7-8 | every index where a match starts lies inside some reported span |
| Urls.ScanIsFindAll | app/utils.py:7-8 | the scanner meets the whole `re.findall` description: maximal matches, left to right, non-overlapping, none skipped |
| Urls.ExtractUrls | app/utils.py:7-8 | one URL per span; each is "http://" or "https://" followed by non-space characters, is the text of its span, and ends at whitespace or at the end of the text |
| Urls.UrlNeedsHttp | app/utils.py:7-8 | a text without "http" has no URLs |
| Analysis.IsNumberedIff | app/analysis.py:17 | a line is numbered iff some non-empty prefix is all digits and is followed by '.' |
| Analysis.NumberedLines | app/analysis.py:17 | the kept lines are no more than the given ones and are all numbered |
| Analysis.NumberedLinesMembers | app/analysis.py:17 | every stripped numbered line is kept, and every kept question is a stripped input line |
| Analysis.NumberedLinesAppend | app/analysis.py:17 | the filter distributes over concatenation of line lists |
| Analysis.QuestionsOfLine | app/analysis.py:17 | a text without newline yields its stripped self if numbered, else nothing |
| Analysis.QuestionsOfJoinedText | app/analysis.py:17 | the questions of two texts joined by a newline are the questions of each, in order |
| Analysis.Questions | app/analysis.py:17 | there are no more questions than lines, and a text is a question iff it is the stripped form of some line and is numbered |
| Analysis.ClassifyIsFirstMatch | app/analysis.py:21-105 | the intent chain is the rule table read top-down on the lower-cased question, with all phrases of a rule required |
| Analysis.ClassifyIgnoresCase | app/analysis.py:21 | a question and its lower-cased form get the same intent |
| Analysis.Classify | app/analysis.py:21-103 | on the lower-cased question: the count intent iff all three count phrases occur; the earliest, correlation and scatterplot intents only when their phrases occur; unrecognised iff no phrase set of the four branches is complete |
| Analysis.DropCurrency | app/analysis.py:34 | removing "$" and "," leaves neither character, keeps every other character exactly as often as it occurred, never lengthens the text, and leaves a text without either unchanged |
| Analysis.DropCurrencyAppend | app/analysis.py:34 | removing "$" and "," distributes over concatenation |
| Analysis.LenientGross | app/analysis.py:31-36 | `parse_gross`: a missing cell has no value, a number keeps its value, a text is the float of its currency-free form, and a text that does not parse counts as 0 |
| Analysis.LenientGrossOfDollars | app/analysis.py:31-36 | a "$"-prefixed decimal spelling of n has gross n |
| Analysis.StrictGross | app/analysis.py:49 | the earliest-film conversion raises ValueError exactly for a non-empty text whose currency-free form does not parse, and otherwise agrees with `parse_gross` |
| Analysis.CountRows | app/analysis.py:31-39 | comparing a text Year with 2000 raises exactly when such a cell exists, and always TypeError; otherwise the count is the number of rows with gross at least 2 bn and a numeric year before 2000 |
| Analysis.RowsAbove | app/analysis.py:50 | a row is kept iff its gross exceeds the bound |
| Analysis.EarliestOf | app/analysis.py:54 | the chosen row is among the candidates and has the least numeric year among them |
| Analysis.EarliestTitle | app/analysis.py:49-55 | "" iff no gross exceeds 1.5 bn; raises iff a row over 1.5 bn has a text year, and always TypeError; otherwise the Title of a row over 1.5 bn with minimal year |
| Analysis.DataUri | app/analysis.py:93-97 | the URI is a prefix of the full one, starts with the PNG prefix, is at most 100000 characters, is unchanged when it fits and exactly 100000 long when it does not |
| Analysis.AnswerOne | app/analysis.py:20-105 | no table gives the default of the intent; unrecognised questions get the fixed message; only the count, earliest and scatterplot questions can raise |
| Analysis.AnswerIntent | app/analysis.py:24-105 | the branch for each intent: count over Gross and Year is `CountRows` of those columns; the earliest film converts every gross strictly, propagates a conversion failure, else takes `EarliestTitle`; correlation is Pearson of Rank and Peak; the scatterplot propagates a drawing failure, else is the data URI of the drawn image; missing columns give the defaults; no table gives the default |
| Analysis.AnswerQuestions | app/analysis.py:10-107 | one answer per numbered question, in order, each the answer to that question; the call fails iff some question's answer raises, and never without a table |
| Analysis.AnswerAll | app/analysis.py:20-105 | over any question list: one answer per question, in order, each the answer to that question; fails iff some answer raises, and never without a table |
| Analysis.NoTableGivesDefaults | app/analysis.py:25-105 | without a table every question gets its intent's default and nothing raises |
| DataTools.StripHeaders | app/utils/data_tools.py:30 | every header is replaced by its stripped form |
| DataTools.StripHeadersIdempotent | app/utils/data_tools.py:30 | normalising headers twice changes nothing more |
| DataTools.RenameFilm | app/utils/data_tools.py:31-32 | "Title" is present afterwards iff "Title" or "Film" was; without "Title", no "Film" remains; the only change is "Film" to "Title" |
| DataTools.RenameFilmIdempotent | app/utils/data_tools.py:31-32 | renaming twice is renaming once |
| DataTools.KeepNumeric | app/utils/data_tools.py:39 | only digits and '.' remain, each kept as often as it occurred, and an all-numeric text is unchanged |
| DataTools.KeepNumericAppend | app/utils/data_tools.py:39 | the filter distributes over concatenation |
| DataTools.CleanGrossCell | app/utils/data_tools.py:36-41 | a cleaned gross is a non-negative number; a missing cell raises ValueError; a number loses its sign; a text cell succeeds iff its digits and dots parse as a float, and then its value is what those digits and dots parse to; every failure is ValueError |
| DataTools.CoerceCell | app/utils/data_tools.py:43-50 | coercion yields a number or a missing cell, keeps non-text cells, gives a number iff the text parses, and that number is the parsed value |
| DataTools.CoerceCellIdempotent | app/utils/data_tools.py:43-50 | coercing twice is coercing once |
| DataTools.CoerceNatText | app/utils/data_tools.py:43-50 | the decimal text of n coerces back to n |
| DataTools.CleanCell | app/utils/data_tools.py:35-50 | only a "Worldwide gross" cell can fail, and then with ValueError; a cleaned gross is a number; a Year, Peak or Rank cell always succeeds, is never text, and a text becomes a number iff it parses; every other cell is kept |
| DataTools.CleanRow | app/utils/data_tools.py:35-50 | a row, padded with NaN to the header width, cleans iff every position cleans under its header, with ValueError otherwise, and each cleaned cell is the cleaning of the cell at its position |
| DataTools.CleanGrossOfNatText | app/utils/data_tools.py:36-41 | a gross spelled as a prefix without digits or dots followed by the decimal digits of n cleans to n |
| DataTools.Normalise | app/utils/data_tools.py:19-52 | headers stripped then "Film" renamed; one row per row, each as wide as the header or wider, a short row padded with NaN; cleaned columns hold no text; other cells unchanged; every cell is the cleaning of the original cell (NaN past a short row's end) under its header; raises iff some such cell cannot be cleaned, and always ValueError |
| DataTools.NormaliseShortGrossRow | app/utils/data_tools.py:35-41 | a row that ends before the "Worldwide gross" column makes normalisation raise ValueError, because its padded NaN cell has no digits |
| DataTools.NormaliseIdempotent | app/utils/data_tools.py:29-50 | normalising a normalised table changes nothing |
| DataTools.CountAnswer | app/utils/data_tools.py:95 | the count is the number of rows with gross over 2,000,000,000 and year before 2000 |
| DataTools.EarliestAnswer | app/utils/data_tools.py:98-99 | IndexError iff no gross exceeds 1,500,000,000; when some gross does, it succeeds iff a Title column exists and otherwise raises KeyError; success yields the Title of a row over the threshold with minimal year |
| DataTools.ScrapedAnswers | app/utils/data_tools.py:95-99 | missing gross or year columns raise KeyError; success gives four answers |
| DataTools.ScrapedAnswersOutcome | app/utils/data_tools.py:98-106 | with gross and year present: an earliest-film failure propagates; after it succeeds, missing Rank or Peak raises KeyError; with them present the answers succeed iff the plot is drawn, and a drawing failure propagates |
| DataTools.ScrapedAnswersValues | app/utils/data_tools.py:94-108 | successful answers need all five columns and are exactly the count, the earliest title, the Rank/Peak correlation and the drawn data URI |
| DataTools.WithPlot | app/utils/data_tools.py:101-108 | the four answers are returned iff drawing succeeds, a drawing failure propagates, and the list is the count, the earliest title, the Rank/Peak correlation and the PNG data URI |
| DataTools.YearsAreNumbers | app/utils/data_tools.py:43-44 | after cleaning, no Year cell is text |
| DataTools.HandleQuestionRequest | app/utils/data_tools.py:74-111 | no URL gives the four fixed answers; a fetch failure of the first URL propagates; a page without a wikitable raises ValueError; otherwise the first URL's table is cleaned, a cleaning failure propagates, and the cleaned table is answered; success always gives four answers |
| DataTools.OnlyFirstUrlFetched | app/utils/data_tools.py:88-91 | the reply depends on the fetcher only through what it returns for the first URL in the text |
| Main.CsvFrames | app/main.py:20-27 | loading raises iff some ".csv" upload cannot be read, and then with a parse error |
| Main.Put | app/main.py:27 | assigning to a key yields the pair; a present key keeps the position of its first entry, whose value is replaced while the rest stays; an absent key is appended at the end; entries of other keys survive |
| Main.PutEntries | app/main.py:27 | after an assignment every entry is the assigned pair or was already in the dict |
| Main.FramesFromCsv | app/main.py:21-27 | every entry of the dict is the name and the read table of some ".csv" upload |
| Main.FramesEmpty | app/main.py:20-27 | the dict is empty iff no upload is a ".csv" |
| Main.FirstFrameName | app/main.py:20-46 | the first entry is named after the first ".csv" upload |
| Main.FirstFrameTable | app/main.py:20-46 | the first entry holds the table of the last ".csv" upload with that name |
| Main.FirstWikipediaUrl | app/main.py:34-38 | none iff no URL contains "wikipedia.org"; otherwise the first one that does |
| Main.OnlyFirstWikipediaUrlScraped | app/main.py:34-38 | the chosen source depends on the scraper only through what it returns for the first Wikipedia URL |
| Main.ResolveSource | app/main.py:30-46 | a CSV failure or a scrape failure raises; when loading and scraping both succeed so does the choice; a scraped table wins; without one, no table iff no ".csv" upload, else the first frame's table |
| Main.AnalyzeData | app/main.py:49-51 | the response is what answering the questions over the resolved table gives, and a resolution failure raises the same exception |
| StandaloneApp.RouteIsFirstMatch | app.py:15-23 | the query dispatch is the rule table read top-down, with any one keyword of a rule sufficient |
| StandaloneApp.RouteIgnoresCase | app.py:15 | a query and its lower-cased form are routed alike |
| StandaloneApp.RouteOf | app.py:15-23 | on the lower-cased query: the mean route iff "mean" or "average" occurs; describe only with "describe" or "summary"; columns only with "columns"; not understood iff none of the five words occurs |
| StandaloneApp.Analyze | app.py:9-26 | an unreadable upload gives a 500 reply carrying the error; otherwise mean, describe, the column list or the apology message, by route |

## Left out

- Fetching pages, HTML parsing, `pd.read_html` and `pd.read_csv` are function parameters or `Option` inputs. `scrape_wikipedia_table` of `app/scraping.py` is the `Main.Scraper` parameter, and the request, parse and `read_html` steps of `app/utils/data_tools.py:23-27` are the `DataTools.Fetcher` parameter. Each raises, finds no wikitable (None), or yields a table.
- Drawing the scatterplot and base64-encoding the PNG are a `render` parameter that returns a `Result`: the base64 text, or the exception the drawing raises (`linregress` on degenerate data, for one). Only the prefix and the 100000-character truncation are modelled.
- Pearson correlation, `round(..., 6)`, `df.mean` and `df.describe` are floating-point statistics. They are kept symbolic (`Answer.Pearson`, `Reply.Mean`, `Reply.Describe`), so the exceptions they can raise (a 500 reply in `app.py`) are not modelled.
- Numbers are exact reals: float rounding is left out, and so are dividing by 1e9 and then comparing with 2 (the model compares with 2e9 directly).
- Numbers.ParseFloat: accepts only optional whitespace, an optional sign and digits with at most one '.'. Exponents, "inf"/"nan", underscores and non-ASCII digits are treated as unparseable.
- Strings.Lower: ASCII letters only. Python lower-cases all of Unicode, and `\d` matches all Unicode digits, whereas `Analysis.IsNumbered` accepts ASCII digits only.
- Analysis.LenientGross: `str()` of a number is not spelled out; a numeric gross keeps its value, as `float(str(x))` does for finite floats.
- DataTools.CleanGrossCell: a numeric gross keeps its absolute value. Python's `str()` writes large and small floats in exponent form (`str(1e16)` is "1e+16"), and dropping everything but digits and dots from that gives "116". The model does not spell out `str()` of a float, so it does not reproduce this.
- Analysis.EarliestTitle: a text Year among the rows over 1.5 bn is modelled as TypeError. pandas only raises when the column mixes numbers and text; an all-text column is sorted as strings.
- Analysis.AnswerOne: the `GrossNum` column that the count and earliest answers add to the shared table is left out. No later answer reads it.
- Duplicate column names: `Data.Column` takes the first column of a name, and `DataTools.Normalise` cleans every column that carries a cleaned name, where pandas would select all of them together as a frame.
- JSON serialisation of the answers, including NaN correlation values, is left out.
- FastAPI routing, request parsing, UTF-8 decoding and async are left out.
