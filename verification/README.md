# SentiNik dashboard data layer, in Dafny

This project models the data layer of the SentiNik sentiment-analysis
dashboard: the `SentimentAnalyzer` class of `script.js` with its DOM,
Chart.js and network glue removed. It proves properties of the model.

- **`CsvLine`** models the quote-toggling line splitter `parseCSVLine`. It is
  a loop with its invariant, proved against the fold `Fields`.
- **`Reviews`** models the record loader `parseCSV`: trimming and splitting
  the text, accepting a line only when its field count matches the header
  count, and the `parseInt`/`parseFloat` conversions with their `NaN` and
  `|| 0` fallbacks. It also models the id→title table `getGameName`.
- **`Filters`** models the predicate of `applyFilters` and the
  order-preserving selection that it makes.
- **`Aggregates`** models the summaries of the filtered view:
  - sentiment counts;
  - the five-bucket confidence histogram;
  - the per-game comparison with sorted labels;
  - the two scatter splits;
  - the per-game 1–5 star histogram of the game modal.
- **`TopWords`** models the word list of `getTopWords`:
  - tokenising;
  - the word test;
  - counting in a first-seen dictionary;
  - the stable descending sort;
  - the cut to fifty entries.
- **`Format`** models `formatPlaytime`, `truncateText` and `convertToCSV`.
- **`Strings`** and **`Numbers`** hold the JavaScript built-ins that these
  use. Strings gets `trim`, `split`, `join`, `toLowerCase`, `includes` and
  the default sort order. Numbers gets decimal `parseInt`/`parseFloat` and
  integer-to-text conversion.
- **`Dashboard`** holds the class `SentimentAnalyzer`. Its fields are
  `rawData`, `filteredData`, `currentFilter` and `gameNames`.
  - `ParseCsv`, `ApplyFilters`, `ResetFilters` and the four filter setters
    reassign the fields. The setters are the bodies of the change/input
    listeners.
  - Every method except the `LoadDataLines` helper keeps `Valid()`.
    `LoadDataLines` runs inside `ParseCsv` before `gameNames` is recomputed,
    so it keeps only the naming of the records. `Valid()` says:
    - the view is an order-preserving part of the loaded reviews;
    - `gameNames` is the sorted distinct list of loaded names;
    - every loaded review carries the name of its id.
  - The `Get…` methods are the source's loops, proved against the
    `Aggregates`/`TopWords` functions.
  - Two loops are written as helpers of their own: the loader loop is
    `LoadDataLines`, and the inner word loop of `getTopWords` is
    `CountKeptWords`.

`NaN` is modelled as `None`. An `Option<int>` holds the game id and the
rating, so a `NaN` rating never equals a filter value or a star bucket.
Confidence is an exact `real`.

## Model

| member | source | states |
|---|---|---|
| CsvLine.Fields | script.js:81-101 | the fold that defines the splitter's result; its content is stated by FieldsJoin, FieldsCount, FieldsHaveNoQuotes and FieldsWithoutQuotes |
| CsvLine.ParseCsvLine | script.js:81-101 | the loop over the characters returns exactly the fields of the fold `Fields(line)` (quote toggles the flag, an unquoted comma ends a field, the last field is always pushed) |
| CsvLine.ScanInvariant | script.js:86-97 | after any prefix: the finished fields plus the current one, joined by commas, are the prefix without quotes; the flag is the parity of quotes; one finished field per unquoted comma; no quote in any field |
| CsvLine.ScanText | script.js:86-97 | the joined fields and current text are the text read with its quotes removed |
| CsvLine.ScanQuotes | script.js:89-90 | `inQuotes` is true exactly when an odd number of quotes has been read |
| CsvLine.ScanCount | script.js:91-93 | one field is finished per comma read outside quotes |
| CsvLine.ScanNoQuotes | script.js:89-96 | no finished field and not the current text contains a quote |
| CsvLine.FieldsJoin | script.js:81-101 | joining the result with `,` gives the input line with every `"` removed |
| CsvLine.FieldsCount | script.js:81-101 | the result has one more field than there are unquoted commas |
| CsvLine.FieldsHaveNoQuotes | script.js:81-101 | no returned field contains `"` |
| CsvLine.ScanFromAppend | script.js:86-97 | scanning `a + b` is scanning `a` then continuing with `b` |
| CsvLine.ScanPlainText | script.js:94-96 | text without quotes (and without commas outside quotes) is appended to the current field |
| CsvLine.ScanWithoutQuotes | script.js:86-97 | on a quote-free text the state holds the comma-separated pieces of the text |
| CsvLine.FieldsWithoutQuotes | script.js:81-101 | on a quote-free line the splitter is plain `split(',')` |
| Strings.Trim | script.js:58 | `trim()`: never longer than its input; TrimStartSpec, TrimEndSpec and TrimSpec state what is removed |
| Strings.TrimStartSpec | script.js:58 | leading trim removes exactly a whitespace prefix and stops at a non-whitespace character |
| Strings.TrimEndSpec | script.js:58 | trailing trim removes exactly a whitespace suffix and stops at a non-whitespace character |
| Strings.TrimSpec | script.js:50 | a trimmed text neither starts nor ends with whitespace |
| Strings.Split | script.js:50-51 | `split(sep)` gives one more piece than there are separators |
| Strings.SplitPieces | script.js:50-51 | no piece contains the separator |
| Strings.JoinSplit | script.js:50-51 | joining the pieces with the separator gives the text back |
| Strings.SplitNoSep | script.js:51 | a text without the separator splits into itself alone |
| Strings.SplitAppend | script.js:50 | splitting `a + sep + b` is the pieces of `a` followed by the pieces of `b` |
| Strings.SplitJoin | script.js:860-866 | splitting a join of separator-free pieces gives the pieces back |
| Strings.JoinExcludes | script.js:865-866 | a character absent from every piece and distinct from the separator is absent from the join |
| Strings.LowerSpec | script.js:138 | lower-casing keeps the length, turns each letter `A`–`Z` into its lower-case letter (32 code points on), leaves every other character unchanged, and is idempotent |
| Strings.ContainsSpec | script.js:208 | `includes(sub)` holds exactly when `sub` occurs at some position of the text |
| Strings.LessIrreflexive | script.js:78 | the default sort order is irreflexive |
| Strings.LessTransitive | script.js:78 | the default sort order is transitive |
| Strings.LessTotal | script.js:78 | any two different texts are ordered one way or the other |
| Strings.LessAsymmetric | script.js:78 | the default sort order is asymmetric |
| Strings.Insert | script.js:78 | inserting into a strictly sorted list keeps it strictly sorted and adds exactly the new element |
| Strings.SortedDistinct | script.js:78 | `[...new Set(xs)].sort()` is strictly sorted and has exactly the elements of `xs` |
| Strings.StrictlySortedUnique | script.js:78 | two strictly sorted lists with the same elements are equal |
| Numbers.IntToString | script.js:116 | `String(n)` is never empty; ParseIntToString, ParseFloatIntToString and IntToStringInjective state its content |
| Numbers.DigitChar | script.js:116 | every digit value has a digit character that reads back as that value |
| Numbers.DigitRun | script.js:62-67 | the digit run is a prefix of digits followed by a non-digit or the end |
| Numbers.ValueOfNatToString | script.js:116 | the digits of `n` have the value `n` |
| Numbers.ParseUnsignedNatToString | script.js:62-67 | the digits of `n` read back as `n` |
| Numbers.ParseUnsignedLeading | script.js:62-67 | the digits of `n` followed by a non-digit read back as `n` |
| Numbers.ParseInt | script.js:62-67 | decimal `parseInt`: skips leading whitespace, an optional sign, then the leading digits, `NaN` when there are none; ParseIntDigitFirst, ParseIntMinusFirst and ParseIntToString state it |
| Numbers.ParseIntDigitFirst | script.js:62-67 | `parseInt` of a text starting with a digit is its leading digit run |
| Numbers.ParseIntMinusFirst | script.js:62-63 | a leading `-` negates the value of the digits after it |
| Numbers.ParseIntLeadingNegative | script.js:62-67 | `parseInt` reads a negative number back through the text that follows it |
| Numbers.ParseIntLeadingNatural | script.js:62-67 | `parseInt` reads a non-negative number back through the text that follows it |
| Numbers.ParseIntLeading | script.js:62-67 | `parseInt` of an integer's text followed by a non-digit gives the integer |
| Numbers.ParseIntToString | script.js:62-67 | `parseInt(String(n)) == n` for every integer |
| Numbers.IntToStringInjective | script.js:116 | different integers have different texts |
| Numbers.Fraction | script.js:68 | the digits after the decimal point have a value between 0 and 1 |
| Numbers.ValueOfFront | script.js:68 | the value of a digit string is its first digit times the power of ten of the rest's length, plus the rest's value |
| Numbers.FractionStep | script.js:68 | shifting one digit in front of a fraction v / p gives (d·p + v) / 10p |
| Numbers.FractionQuotient | script.js:68 | the fraction of digits `ds` is their integer value divided by 10 to the number of digits |
| Numbers.ParseUnsignedDecimalFraction | script.js:68 | the text `a.ds` parses as a decimal to a plus the fraction of `ds` |
| Numbers.ParseFloatDecimal | script.js:68 | `parseFloat("a.ds")` is a plus the fraction of `ds`, that is a + value(ds) / 10^len(ds) |
| Numbers.ParseUnsignedDecimalNatToString | script.js:68 | a natural number's text parses as a decimal to itself |
| Numbers.ParseFloat | script.js:68 | decimal `parseFloat`: skips leading whitespace, an optional sign, then digits with an optional fractional part, `NaN` when there is no digit; ParseFloatDigitFirst, ParseFloatDecimal and ParseFloatIntToString state it |
| Numbers.ParseFloatDigitFirst | script.js:68 | `parseFloat` of a text starting with a digit is its unsigned decimal |
| Numbers.ParseFloatMinus | script.js:68 | a leading `-` negates the decimal after it |
| Numbers.ParseFloatNegative | script.js:68 | a negative integer's text parses to that integer |
| Numbers.ParseFloatNatural | script.js:68 | a non-negative integer's text parses to that integer |
| Numbers.ParseFloatIntToString | script.js:68 | `parseFloat(String(n)) == n` for every integer |
| Reviews.GameName | script.js:103-117 | `getGameName`: the title of a known id, otherwise `Game ` and the id; GameNameInjective and GameNameFallback state it |
| Reviews.TitlesDistinct | script.js:104-115 | the ten titles are pairwise distinct and none starts with `Game ` |
| Reviews.GameNameFallback | script.js:116 | an unknown id gives `Game ` followed by text that `parseInt` reads back as the id |
| Reviews.TitleIsNotFallback | script.js:103-117 | a title is never a fallback name |
| Reviews.NaNIsNotFallback | script.js:116 | `Game NaN` is no number's fallback name |
| Reviews.FallbackInjective | script.js:116 | different unknown ids give different fallback names |
| Reviews.GameNameInjective | script.js:103-117 | `getGameName` is injective, `NaN` included: equal names mean equal ids |
| Reviews.GameNameNotInheritedKey | script.js:576-580 | no game name is any of the twelve names a plain object inherits from `Object.prototype` (`__proto__`, `constructor`, `toString`, `valueOf`, `hasOwnProperty`, …), so `!gameStats[item.game_name]` finds no counter before the first one and every game is an own key |
| Reviews.GameNameCapital | script.js:103-117 | every game name, title or fallback, starts with an upper-case letter |
| Reviews.MakeReview | script.js:56-71 | a built record's `game_name` is `getGameName` of its parsed `game_id` |
| Reviews.Lines | script.js:50-51 | the trimmed text always has a first line, the header line |
| Reviews.LoadLines | script.js:53-75 | the loader loop as a fold over the data lines; LoadLinesSpec states its records |
| Reviews.Records | script.js:49-75 | the records of a whole text: the data lines after the header, loaded against the header's fields; LoadedNames and LoadLinesSpec state them |
| Reviews.LoadLinesNext | script.js:53-75 | reading one more line appends exactly what that line contributes |
| Reviews.LoadLinesSpec | script.js:53-75 | one record per line whose field count equals the header count, in input order, each at the position given by the accepted lines before it; every other line is skipped |
| Reviews.AcceptedCountPrefix | script.js:53-75 | the number of accepted lines among a prefix never exceeds the number among the whole list without its last line |
| Reviews.AcceptedCountMonotone | script.js:53-75 | a prefix has no more accepted lines than the whole |
| Reviews.NamedByIdAppend | script.js:73 | appending records named by their ids keeps every record named by its id |
| Reviews.LoadedNames | script.js:53-75 | every loaded record carries the name of its id |
| Filters.Passes | script.js:191-213 | the per-review test of `applyFilters`: the game, sentiment and rating criteria apply unless `all`, the search text unless empty; SelectMembers states the view it gives |
| Filters.Select | script.js:191-213 | the view as a fold over the data; SelectIsSubsequence, SelectMultiplicity and SelectMembers state its content |
| Filters.SelectIsSubsequence | script.js:191-213 | the view is an order-preserving subsequence of the data |
| Filters.SelectMultiplicity | script.js:191-213 | each passing review keeps its multiplicity and each failing one is dropped |
| Filters.SelectMembers | script.js:191-213 | a review is in the view exactly when it is in the data and passes every active criterion |
| Filters.SelectDefault | script.js:221-234 | under the default criteria the view is the whole data |
| Filters.SelectAllPass | script.js:191-213 | when every review passes, the view is the whole data |
| Filters.SelectIdempotent | script.js:191-213 | filtering the view again changes nothing |
| Filters.SubsequenceOfSelf | script.js:77 | a list is a subsequence of itself (the copy `[...rawData]`) |
| Filters.SubsequenceExtend | script.js:73 | pushing onto the data keeps the view a subsequence |
| Aggregates.CountSentiment | script.js:553-560 | the number of reviews in view with a given sentiment; SentimentCountsBound and GameComparisonSpec use it |
| Aggregates.Bucket | script.js:565-570 | the bucket of a confidence; BucketIsFirstBound states it |
| Aggregates.SumIncrement | script.js:566-570 | one bucket increment adds one to the total |
| Aggregates.SentimentCountsBound | script.js:553-560 | positive + negative ≤ number of reviews in view |
| Aggregates.BucketIsFirstBound | script.js:565-570 | the bucket is the first whose bound (0.2, 0.4, 0.6, 0.8) the confidence meets, else the fifth |
| Aggregates.Histogram | script.js:563 | the histogram has five counters; HistogramSpec states what each counts |
| Aggregates.HistogramSpec | script.js:562-573 | the five counts sum to the view's size and each counts exactly the reviews of its bucket |
| Aggregates.NamesElems | script.js:78 | the names taken from the data are exactly the game names of its reviews |
| Aggregates.CountGameAbsent | script.js:578-584 | a game with no review has no counts |
| Aggregates.GameStats | script.js:576-584 | the `gameStats` dictionary; GameStatsSpec states its keys and counts |
| Aggregates.GameStatsSpec | script.js:576-584 | the dictionary's keys are the names in view and each holds that game's positive and negative counts |
| Aggregates.GameStatsKeys | script.js:578-581 | the dictionary's keys are exactly the game names met |
| Aggregates.GameKeysOrder | script.js:578-581 | the keys, in the order they are created, are distinct and appear in the order of the names of the data |
| Aggregates.GameStatsCounts | script.js:582-583 | each key holds the positive and negative counts of its game |
| Aggregates.GameStatsLabels | script.js:586 | the sorted keys are the comparison labels, each with its game's counts |
| Aggregates.Series | script.js:589-590 | one count per label; GameStatsSeries states each count |
| Aggregates.GameStatsSeries | script.js:586-591 | the arrays read from the dictionary are each label's positive and negative counts |
| Aggregates.CountsFor | script.js:589-590 | one count per label; CountsForTotal states their sum |
| Aggregates.SortedIsDistinct | script.js:586 | sorted labels are distinct |
| Aggregates.CountsForStep | script.js:582-583 | one more review adds its sentiment's count to the total of the label series |
| Aggregates.CountsForTotal | script.js:589-590 | when every name is a label, the series sums to the sentiment's total count |
| Aggregates.CountsForEmpty | script.js:589-590 | with no reviews every series sums to zero |
| Aggregates.GameComparisonOf | script.js:575-592 | the comparison chart's labels and two series; GameComparisonSpec and GameStatsLabels state them |
| Aggregates.GameComparisonSpec | script.js:575-592 | labels strictly sorted and equal to the set of names in view; both arrays as long as the labels; their sums equal the sentiment totals |
| Aggregates.RatingScatter | script.js:631-642 | the rating scatter as a fold over the view; RatingScatterSeries states its series |
| Aggregates.PlaytimeScatter | script.js:644-657 | the playtime scatter as a fold over the view; PlaytimeScatterSeries states its series |
| Aggregates.PlottedSpec | script.js:633-654 | the reviews a series plots are those of its sentiment (with positive playtime for the playtime chart), in data order, each as often as in the view |
| Aggregates.RatingPointsSnoc | script.js:636-638 | one more review adds its (rating, confidence) point at the end |
| Aggregates.PlaytimePointsSnoc | script.js:650-652 | one more review adds its (playtime, confidence) point at the end |
| Aggregates.RatingScatterSeries | script.js:631-642 | each rating series is the (rating, confidence) points of the view's reviews of its sentiment, in view order |
| Aggregates.PlaytimeScatterSeries | script.js:644-657 | each playtime series is the (playtime, confidence) points of the view's reviews of its sentiment with positive playtime, in view order |
| Aggregates.RatingScatterSpec | script.js:631-642 | one point per positive (negative) review, each with that review's rating and confidence |
| Aggregates.PlaytimeScatterSpec | script.js:644-657 | only reviews with positive playtime give a point, at most one per review of that sentiment, every point with x > 0 |
| Aggregates.RatingHistogram | script.js:786 | five counters; RatingHistogramBars states what each counts |
| Aggregates.RatingHistogramStep | script.js:787-790 | one review of the game with rating k in 1..5 adds one to bar k; any other review leaves the bars alone |
| Aggregates.RatingHistogramBars | script.js:783-791 | bar k counts the game's reviews rated k + 1 |
| Aggregates.RatingHistogramTotal | script.js:783-791 | the bars sum to the game's reviews rated 1..5, at most the game's reviews |
| Aggregates.CountRatedBound | script.js:788 | at most all of a game's reviews are rated 1..5 |
| TopWords.Words | script.js:667 | each match is a non-empty run of word characters, and a text ending in one has a match |
| TopWords.WordsOfRun | script.js:667 | a non-empty run of word characters is one match, itself |
| TopWords.WordsNonWord | script.js:667 | a non-word character at the end adds no match |
| TopWords.WordsExtend | script.js:667 | a word character after a word character extends the last match |
| TopWords.WordsBegin | script.js:667 | a word character after a non-word character starts a new match |
| TopWords.WordsSplit | script.js:667 | matches never cross a non-word character: the matches of `a + c + b` are those of `a` followed by those of `b` |
| TopWords.KeptWords | script.js:670 | every kept word is longer than two characters, not a stop word and not all digits |
| TopWords.KeptWordsCount | script.js:670 | each word that passes keeps its number of occurrences and every other word is dropped |
| TopWords.PositiveWords | script.js:663-673 | every counted word passes the word test |
| TopWords.PositiveWordsNext | script.js:663-665 | a positive review adds its kept words; any other review adds nothing |
| TopWords.Bump | script.js:671 | one increment adds one to that word's count and leaves the rest unchanged |
| TopWords.BumpWords | script.js:671 | an increment adds that word to the keys and no other |
| TopWords.BumpDistinct | script.js:671 | an increment keeps the keys distinct |
| TopWords.BumpCounted | script.js:671 | an increment keeps every count positive |
| TopWords.Tally | script.js:660-674 | the dictionary's keys are distinct |
| TopWords.TallyKeptNext | script.js:669-673 | a kept word is counted; any other word leaves the dictionary as it is |
| TopWords.TallyWords | script.js:660-674 | the keys are exactly the words counted |
| TopWords.TallyCounts | script.js:660-674 | each word's count is its number of occurrences |
| TopWords.TallyCounted | script.js:660-674 | every stored count is positive |
| TopWords.CountOfEntry | script.js:676 | an entry's count is the count stored for its word |
| TopWords.InsertByCount | script.js:677 | insertion into a non-increasing list keeps it non-increasing and adds exactly the new entry |
| TopWords.SortByCount | script.js:677 | the sort gives a non-increasing permutation of the entries |
| TopWords.InsertDistinct | script.js:677 | inserting a new word keeps the words distinct |
| TopWords.SortDistinct | script.js:677 | sorting keeps the words distinct |
| TopWords.SortedEntry | script.js:677 | every sorted entry is an entry of the dictionary |
| TopWords.TopEntry | script.js:676-679 | each listed word passes the word test and carries its number of occurrences in the positive reviews |
| TopWords.PastCut | script.js:677-678 | an entry not kept by the cut comes after it and has no larger count than any kept entry |
| TopWords.TallyEntry | script.js:669-676 | every counted word has its entry with its number of occurrences |
| TopWords.SortedMissing | script.js:677-678 | an entry missing after the cut means a full list whose counts are all at least its own |
| TopWords.TopMissing | script.js:676-678 | a counted word missing from the list occurs no more often than any listed word, and the list is full |
| TopWords.TopShape | script.js:678 | cutting a sorted list of distinct words keeps it sorted and distinct |
| TopWords.TopWordsOf | script.js:659-680 | the word list: the tally sorted by count and cut to fifty; TopWordsSpec states it |
| TopWords.TopWordsSpec | script.js:659-680 | at most 50 entries, non-increasing counts, distinct words, each passing the word test with its exact count, and no omitted word outranks a listed one |
| TopWords.OnlyPositiveCount | script.js:663-664 | dropping non-positive reviews leaves the counted words unchanged |
| TopWords.TopWordsOnlyPositive | script.js:663-664 | only positive reviews affect the word list |
| TopWords.PrototypeKeysMiscounted | script.js:660-671 | as written, `constructor` and `__proto__` pass the word test, yet the first is stored as a string and the second is not stored |
| TopWords.PrototypeKeysCounted | script.js:660-671 | the model's dictionary counts `constructor` and `__proto__` once each |
| Format.JsRem | script.js:721 | JavaScript's `%`: the remainder takes the sign of the dividend and is smaller than the divisor in size |
| Format.JsRemDivision | script.js:721 | the remainder completes truncating division: a = b · trunc(a / b) + a % b |
| Format.FormatPlaytime | script.js:719-729 | `formatPlaytime`; FormatPlaytimeCases, FormatPlaytimeAccounts and FormatPlaytimeReadBack state its text |
| Format.FormatPlaytimeCases | script.js:719-729 | `"{h}h {m}m"` with m < 60 from an hour on, `"{m}m"` from a minute on, `"{s}s"` below a minute and for negative values |
| Format.FormatPlaytimeAccounts | script.js:720-721 | the hours and minutes shown account for the seconds to within one minute |
| Format.FormatPlaytimeReadBack | script.js:719-729 | `parseInt` of the text gives the leading quantity: hours, minutes or seconds |
| Format.FormatPlaytimeUnit | script.js:722-728 | the text ends in `s` exactly below a minute and holds an `h` exactly from an hour on |
| Format.IntToStringNoLetters | script.js:727 | an integer's text holds no letter `h` |
| Format.TruncateText | script.js:731-734 | `truncateText`; TruncateTextSpec and TruncateTextIdempotent state it |
| Format.TruncateTextSpec | script.js:731-734 | unchanged when it fits, otherwise the first `maxLength` characters (none if negative) followed by `...` |
| Format.TruncateTextIdempotent | script.js:731-734 | truncating twice is truncating once |
| Format.Keys | script.js:859 | one header per property of the first row; ConvertToCsvReadBack states the header line |
| Format.CellsOf | script.js:862-865 | one cell per header; ConvertToCsvReadBack states the cells read back |
| Format.Rendered | script.js:862-865 | one rendered text per cell; RenderedAt states each |
| Format.Texts | script.js:862-865 | one text per cell; ScanRendered states what they are |
| Format.RowLines | script.js:862-865 | one line per row; RowLinesAt states each |
| Format.ConvertToCsv | script.js:856-869 | the export is empty exactly when there are no rows |
| Format.ScanCell | script.js:864 | the line splitter reads a rendered clean cell back as its text, the added quotes dropped |
| Format.ScanRendered | script.js:862-865 | the line splitter reads a rendered row as the cells' texts |
| Format.RowLineReadBack | script.js:862-865 | the dashboard's splitter reads a data line back as the row's cell texts |
| Format.RowLineOneLine | script.js:862-866 | a data line of clean cells holds no newline |
| Format.RenderedAt | script.js:862-865 | the k-th rendered text renders the k-th cell |
| Format.RowLinesAt | script.js:862-865 | the k-th line renders the k-th row |
| Format.ExportSplitsIntoLines | script.js:860-866 | splitting the export at newlines gives the header line and one line per row |
| Format.ConvertToCsvReadBack | script.js:856-869 | with plain keys and clean cells, the export splits into 1 + rows lines, the header line splits into the keys, and each row line reads back as its cells |
| Dashboard.CountKeptWords | script.js:669-673 | counting one review's words adds exactly its kept words to the dictionary |
| Dashboard.SentimentAnalyzer.constructor | script.js:3-13 | no data, an empty view and no game names, under the default criteria |
| Dashboard.SentimentAnalyzer.ParseCsv | script.js:49-79 | `rawData` gains the records of the text; the view shows everything; `gameNames` is the sorted distinct list of names; the criteria are kept |
| Dashboard.SentimentAnalyzer.LoadDataLines | script.js:53-75 | the loop appends the records of the data lines and keeps every record named by its id |
| Dashboard.SentimentAnalyzer.ApplyFilters | script.js:190-213 | the view becomes the selection of the data under the criteria; data, criteria and names unchanged |
| Dashboard.SentimentAnalyzer.ResetFilters | script.js:221-234 | default criteria and the view equal to the whole data |
| Dashboard.SentimentAnalyzer.SetGameFilter | script.js:122-125 | the game criterion changes and the view is recomputed |
| Dashboard.SentimentAnalyzer.SetSentimentFilter | script.js:127-130 | the sentiment criterion changes and the view is recomputed |
| Dashboard.SentimentAnalyzer.SetRatingFilter | script.js:132-135 | the rating criterion changes and the view is recomputed |
| Dashboard.SentimentAnalyzer.SetSearch | script.js:137-140 | the lower-cased search text is stored and the view is recomputed |
| Dashboard.SentimentAnalyzer.GetSentimentCounts | script.js:553-560 | the positive and negative counts of the view, their sum at most its size |
| Dashboard.SentimentAnalyzer.GetConfidenceData | script.js:562-573 | five counters in an array, summing to the view's size, each counting its bucket |
| Dashboard.SentimentAnalyzer.GetGameComparisonData | script.js:575-592 | the comparison of the view: sorted distinct labels of its names, with series summing to the sentiment totals |
| Dashboard.SentimentAnalyzer.GetRatingSentimentData | script.js:631-642 | one point per positive and per negative review |
| Dashboard.SentimentAnalyzer.GetPlaytimeSentimentData | script.js:644-657 | the playtime split, every point with positive playtime |
| Dashboard.SentimentAnalyzer.GetTopWords | script.js:659-680 | the word list: at most fifty, non-increasing, distinct, each word kept with its exact count |
| Dashboard.SentimentAnalyzer.GetRatingHistogram | script.js:783-791 | bar k counts the game's reviews rated k + 1; the bars sum to its reviews rated 1..5 |

## Left out

- `init`, `loadData`, `showLoading`/`hideLoading`/`showError`: the `fetch` of the CSV file, logging and error display. `ParseCsv` takes the text as a parameter.
- `populateFilters`, `updateStatistics`, `createDataTable`/`updateDataTable`, every chart's construction, update and destruction, the modal, table toggling and tab/view switching: DOM and Chart.js output only. The fields `charts` and `isDataLoaded` go with them.
- `setupEventListeners`: the DOM wiring is left out. The four filter listeners are the setters of `SentimentAnalyzer`.
- `debounce`: timer semantics. `SetSearch` applies the filters at once. The source builds a fresh debounced wrapper on every keystroke, so each keystroke still leads to one `applyFilters` call, 300 ms later.
- `downloadCSV` (Blob/URL/anchor) and the row objects built by `exportData`, whose ISO timestamp needs `Date`. `ConvertToCsv` takes the rows as given.
- `getTemporalData`: local-time `Date` arithmetic and locale formatting; its percentages are floating point.
- Floating-point presentation: the `frequency` of each word-cloud entry, `toFixed` percentages, and the averages of `showGameModal`.
- Format.FormatPlaytime: takes whole seconds only. The modal's non-integer average playtime is not modelled.
- Numbers.ParseInt: decimal text only. `parseInt`'s `0x` prefix and the digits beyond double precision are not modelled.
- Numbers.ParseFloat: an exact `real`. Exponents, `Infinity` and rounding to a double are not modelled.
- Strings.IsWhitespace: only the ASCII members of JavaScript's whitespace set. Non-breaking and Unicode spaces are not trimmed.
- Strings.Lower: ASCII letters only. TopWords.IsWordChar: `[A-Za-z0-9_]`, as `\w` without the `u` flag.
- Strings.Less: compares characters, where JavaScript compares UTF-16 code units. The two orders differ only above U+FFFF.
- Reviews.TextColumn: a text column missing from the header reads as `""`. The source holds `undefined` there, and `toLowerCase` then throws during filtering or word counting.
- Reviews.Review: keeps only the columns the dashboard reads. The source's record also holds every other column of the file.
- TopWords.SortByCount: the insertion keeps first-seen order among equal counts, as the stable `sort` does. The proofs state the non-increasing order and the counts, not the order of ties.
- Format.TruncateText: lengths and the cut count characters (Unicode scalar values), where JavaScript's `length` and `substring` count UTF-16 code units. Text with characters above U+FFFF is measured and cut at a different place.
- Format.TruncateTextSpec: states the cut in characters, not in UTF-16 code units, for the same reason.
- Aggregates.GameStatsKeys: states the set of keys. GameKeysOrder adds that the keys are distinct and follow the order of the data, but not that each key sits at its name's first occurrence; the keys are sorted (script.js:586) before any use.
- Format.ConvertToCsvReadBack: holds only for cells without `"` or newline. The export does not escape them, so such cells do not read back.
- Format.Row: a row is a list of (key, value) pairs and Format.Keys lists them in that order. `Object.keys` would drop a repeated key and move integer-like keys to the front. The rows built by `exportData` (script.js:839-850) have fixed, distinct, non-numeric property names, so this does not arise there.
- Format.Cell: an exported value is a string, a number with its text, or missing. `null` and nested objects are not modelled.

## Findings

| source | as written | input that shows it | evidently intended | confidence | as-written member | corrected member |
|---|---|---|---|---|---|---|
| script.js:660-671 | `wordCount` is a plain `{}`, so reading `wordCount[word]` before the first count of `word` finds any inherited `Object.prototype` property of that name. Of the all-lower-case names, `constructor` and `__proto__` are the two inherited ones. | a positive review whose cleaned text is `constructor` stores the string `"function Object() { [native code] }1"` instead of 1; one whose text is `__proto__` stores nothing, because assigning a string to `__proto__` is ignored | count every kept word, these two included, as a `Map` or an object made with `Object.create(null)` would; the model's dictionary gives every word its number of occurrences and counts each of these two once (TopWords.PrototypeKeysCounted) | not executed | TopWords.PrototypeKeysMiscounted | TopWords.TallyCounts |
