# J.League results scraper: a Dafny model of its parsing core

The scraper in `src/index.ts` fetches one season's match list from the J.League data site. It reads each row of the results table into a match record, and sorts the records by round. This project models the parts of it that compute:

- the text normalizers:
  - `toHalfWidth`, which shifts full-width ASCII forms down by `0xFEE0`
  - `findSeries`, the round number from `/第(.*)節/`
  - `separateScore`, the two goal counts from `/(.*)-(.*)/`
  - `parseDate`, month and day from `/(\d+)\/(\d+)/`
- `parseMatches`, over abstract table rows:
  - a loop that builds one record per row
  - a sort with the comparator `(a, b) => a.series - b.series`
- the search URL the scraper requests.

Modules:

- `JsRuntime` (`js_runtime.dfy`) holds what the code borrows from JavaScript:
  - `null` as `None`
  - numbers as `NaN` or an integer
  - the WhiteSpace and LineTerminator classes of ECMA-262
  - `parseInt` without a radix argument (ECMA-262 section 19.2.5), including the `0x` prefix and the sign
  - the decimal rendering of an integer in a template string (Number::toString)
- `JsRegex` (`js_regex.dfy`) holds the regular-expression matching the three patterns need:
  - `.` stops at line terminators
  - greedy `.*` before a literal lands on the last reachable literal
  - `\d+` takes the whole run of ASCII digits
  - `exec` tries start positions from left to right
- `TextNormalizers` (`text_normalizers.dfy`) describes each pattern twice:
  - declaratively, as a match predicate
  - operationally, as an `exec` search proved to find the leftmost match and its greedy capture
  
  From these it proves the null/empty cases of each normalizer as "if and only if" statements.
- `NormalizerExamples` (`normalizer_examples.dfy`) states the cases of `src/index.spec.ts` as lemmas.
- `MatchSort` (`match_sort.dfy`) holds:
  - the `MatchData` record
  - the comparator, as `Array.prototype.sort` reads it (a `NaN` difference counts as 0)
  - the specification `SortedBySeries`, a stable insertion into an ordered prefix, with its proved properties: permutation, comparator order, ascending order when no round is `NaN`, and stability per key
  - the in-place insertion sort on an array, proved equal to that specification
- `MatchParser` (`match_parser.dfy`) holds:
  - the row type
  - the record built from one row, and what each of its fields means
  - the loop of `parseMatches`
  - `parseMatches` itself
- `SearchQuery` (`search_query.dfy`) holds:
  - the URL template of lines 27-29
  - a query-string reader in the manner of `URLSearchParams`, as its partner
  - proofs that the reader finds exactly the season, frame 1, the competition ids in order and an empty broadcaster filter, and that decoding gives back the season and the ids

Three behaviours of the code are easy to misread; the model follows the code each time:

- A row with a missing cell does not degrade to a record with null fields. `elm.querySelector(...)` gives `null`, and reading `.textContent` from it throws. `ParseMatches` reports the first such row as `MissingCell`.
- Team names are not trimmed. The record holds the cell text exactly.
- The round is not restricted to digits between `第` and `節`. The capture is `.*`, so a round cell whose capture `parseInt` cannot read gives `NaN`, not `null`.

## Model

| member | source | states |
|---|---|---|
| JsRuntime.DigitValue | src/index.ts:79 | the digit value `parseInt` gives a character is below 10 exactly for `0`-`9`, and at most 36 |
| JsRuntime.DigitPrefix | src/index.ts:79 | the digits `parseInt` reads are the longest prefix of radix digits: a prefix of the input, all digits, followed by a non-digit or the end |
| JsRuntime.NaturalToDecimal | src/index.ts:28 | the decimal text of a natural number is nonempty, all digits, has no leading zero, and denotes the number |
| JsRuntime.NumberToString | src/index.ts:28-29 | `${n}` of an integer is a sign or digit followed by digits only |
| JsRuntime.ReadDigitsOfDecimal | src/index.ts:79 | a nonempty run of decimal digits is read in full, with its sign |
| JsRuntime.ParseIntOfNumberToString | src/index.ts:79 | `parseInt` inverts the decimal rendering of every integer |
| JsRuntime.TrimStartIsSuffix | src/index.ts:79 | the text `parseInt` reads after TrimString: a suffix of the input that does not start with white space or a line terminator |
| JsRuntime.TrimStartSkipsWhiteSpace | src/index.ts:79 | trimming drops any leading run of white space and line terminators |
| JsRuntime.ParseIntIgnoresLeadingWhiteSpace | src/index.ts:79 | `parseInt` gives the same value with or without leading white space, U+3000 included |
| JsRuntime.ParseIntOfDecimalPrefix | src/index.ts:85 | a leading run of decimal digits, not a `0x` prefix, is read as that number, whatever follows |
| JsRegex.LineEnd | src/index.ts:78 | a `.*` started at a position runs up to the next line terminator or the end, with no line terminator inside |
| JsRegex.DigitRunEnd | src/index.ts:73 | a `\d+` started at a position runs over exactly the digits up to the first non-digit |
| JsRegex.LastIndexIn | src/index.ts:84 | the last index holding a character in a range, or none exactly when the range has none |
| JsRegex.GreedyDotStarThen | src/index.ts:78 | `.*c` matched at a position ends on the last `c` reachable without crossing a line terminator, or fails exactly when there is none |
| TextNormalizers.ToHalfWidth | src/index.ts:88-92 | same length; each full-width form U+FF01-U+FF5E becomes its counterpart minus 0xFEE0 in `!`-`~`; every other character is unchanged; no full-width form is left |
| TextNormalizers.ToHalfWidthIdempotent | src/index.ts:88-92 | normalising twice is normalising once |
| TextNormalizers.ExecSeries | src/index.ts:84 | `exec` of `/第(.*)節/` finds the leftmost `第` that starts a match, and for it the last `節` on its line; none exactly when no match exists |
| TextNormalizers.FindSeriesNull | src/index.ts:82-86 | the round is null exactly when the half-width text has no `第…節` within one line |
| TextNormalizers.FindSeriesOnOneLine | src/index.ts:82-86 | on one line, the round is `parseInt` of the text between the first `第` and the last `節` |
| TextNormalizers.ExecScore | src/index.ts:78 | `exec` of `/(.*)-(.*)/` starts at the leftmost possible position and splits at the last `-` of that line |
| TextNormalizers.SeparateScoreNull | src/index.ts:77-80 | the score is null exactly when the text has no `-` |
| TextNormalizers.SeparateScoreOnOneLine | src/index.ts:77-80 | on one line, the score is `parseInt` of the text before the last `-` and of the text after it |
| TextNormalizers.DatePatternSlash | src/index.ts:73 | in a `digits/digits` match the first group is the whole digit run at its start, and the second lies within the digit run after the `/` |
| TextNormalizers.ExecDate | src/index.ts:73 | `exec` of `/(\d+)\/(\d+)/` finds the leftmost match and takes the second digit run whole; none exactly when no match exists |
| TextNormalizers.ParseDateEmptyWithoutPair | src/index.ts:72-75 | the date is `""` exactly when the text has no `digits/digits` |
| TextNormalizers.ParseDateLeftmost | src/index.ts:72-75 | otherwise it is the leftmost pair, digits verbatim (leading zeros kept), joined by `-` |
| NormalizerExamples.FindSeriesCapture | src/index.spec.ts:6-7 | in `第２節第１日` the capture is the normalised `2` |
| NormalizerExamples.FindSeriesFound | src/index.spec.ts:6-7 | `findSeries("第２節第１日")` is 2 |
| NormalizerExamples.FindSeriesNotFound | src/index.spec.ts:10-11 | `findSeries("第第１日")` is null |
| NormalizerExamples.SeparateScoreCapture | src/index.spec.ts:18-20 | `13-1` splits into the texts `13` and `1` |
| NormalizerExamples.SeparateScoreFound | src/index.spec.ts:18-20 | `separateScore("13-1")` is 13 and 1 |
| NormalizerExamples.SeparateScoreNotFound | src/index.spec.ts:23-24 | `separateScore("未定")` is null |
| NormalizerExamples.ParseDateFound | src/index.spec.ts:31-35 | `02/27(土)` gives `02-27` and `05/04(火・祝)` gives `05-04` |
| NormalizerExamples.ParseDateEmpty | src/index.spec.ts:38-39 | the empty text gives the empty date |
| MatchSort.InsertPermutes | src/index.ts:69 | inserting one record adds exactly that record |
| MatchSort.SortPermutes | src/index.ts:69 | the sorted records are a permutation of the input, of the same length |
| MatchSort.InsertKeepsOrder | src/index.ts:69 | inserting into a sequence in comparator order keeps it in comparator order |
| MatchSort.SortOrders | src/index.ts:69 | the sorted records have no neighbours that the comparator would swap |
| MatchSort.NeighboursOrderAll | src/index.ts:69 | without `NaN` rounds, neighbour order is ascending order overall, with null as 0 |
| MatchSort.SortAscends | src/index.ts:69 | without `NaN` rounds, the sorted records ascend by round, with null counted as 0 |
| MatchSort.WithKeyAppend | src/index.ts:69 | the records with a given key split over a concatenation |
| MatchSort.InsertKeepsKeyOrder | src/index.ts:69 | insertion puts the new record after every record with the same key |
| MatchSort.SortIsStable | src/index.ts:69 | records with equal keys keep their input order |
| MatchSort.InsertPosition | src/index.ts:69 | insertion places the record after the last one not greater than it |
| MatchSort.ShiftGreater | src/index.ts:69 | the records greater than the new one move up by one place; the rest stay put |
| MatchSort.InsertAt | src/index.ts:69 | one insertion step turns the array's prefix into the specified insertion; the rest is untouched |
| MatchSort.SortBySeries | src/index.ts:69 | the array is sorted in place into `SortedBySeries` of its old contents |
| MatchParser.RecordFields | src/index.ts:47-67 | round null iff no `第…節`; team names are the cell texts; both scores null or both set, null iff no `-`, otherwise the two parts of `separateScore`; the date is the year cell, a `-`, then the `parseDate` text, and ends after the `-` iff there is no `digits/digits` |
| MatchParser.RecordsAppend | src/index.ts:60-67 | pushing the record of one more row extends the records of the rows so far by exactly that record |
| MatchParser.CollectRecords | src/index.ts:45-68 | records for all rows when every cell is there, each being the record of its row, in table order; otherwise the first row with a missing cell |
| MatchParser.ParseMatches | src/index.ts:44-70 | the same failure; otherwise the sorted records: one per row, a permutation of the table's records, each the record of some row, in comparator order, ascending when no round is `NaN`, stable among equal keys |
| SearchQuery.ReadWrittenQuery | src/index.ts:27-29 | reading back a query written from plain parameters gives those parameters, in order |
| SearchQuery.SingleTemplate | src/index.ts:28 | the one-id template is the query of its four parameters |
| SearchQuery.PairTemplate | src/index.ts:29 | the two-id template is the query of its five parameters |
| SearchQuery.SearchUrlIsQuery | src/index.ts:27-29 | the URL is the endpoint, `?`, and the query of the template's parameters |
| SearchQuery.SearchParametersArePlain | src/index.ts:27-29 | every parameter the template writes reads back unchanged |
| SearchQuery.SearchUrlParameters | src/index.ts:27-29 | the URL carries exactly `competition_years`, `competition_frame_ids=1`, one or two `competition_ids` in order, and an empty `tv_relay_station_name` |
| SearchQuery.SearchParameterValues | src/index.ts:27-29 | one season value, frame `1`, and the ids in order |
| SearchQuery.DecodeSearchParameters | src/index.ts:27-29 | a URL whose query holds exactly the template's parameters decodes to the season and ids they were written from |
| SearchQuery.DecodeSearchUrlRoundTrip | src/index.ts:27-29 | decoding the URL gives back the season and the competition ids it was built from |

## Left out

- Network fetch, HTML parsing with JSDOM, writing the JSON file, `console.log`, and the `try`/`catch` around them (src/index.ts:1-5, 26, 30-42): I/O. `getData` is modelled only by the URL it requests.
- The top-level loop over the `url` table (src/index.ts:109-115), and the table itself (src/index.ts:7-18): static configuration driving I/O. The URL is modelled for any season and any one or two ids.
- `sleep` (src/index.ts:94-96): a timer with no result.
- DOM selectors (src/index.ts:46-57): the document is abstracted to its rows of six cells, and a cell is its text or missing. The model does not capture which `td` a selector picks, or that the team cells read the text of an `a` inside the cell.
- Throwing on a missing cell: `ParseMatches` returns `MissingCell` with the row index instead of an exception, and the partial result is dropped, as when the exception escapes.
- `parseInt` on values too large for a double: the model reads digits into an unbounded integer. It leaves out rounding to the nearest double and `Infinity`. Number::toString's exponent form for integers of 10^21 and more is left out as well.
- UTF-16: strings are sequences of Unicode scalar values rather than UTF-16 code units. All characters the patterns and `toHalfWidth` touch lie in the Basic Multilingual Plane, where the two agree.
- MatchSort.SortBySeries: when some round reads as `NaN`, the comparator is not consistent and ECMA-262 leaves the resulting order to the engine. The model fixes the order of a stable insertion sort. Ascending order is proved only when no round is `NaN`. Neighbour order, permutation and stability are proved for every input.
- MatchParser.ParseMatches: the sort is proved on a fresh array built from the collected records. The model does not capture that the source sorts the very array it collected into and returns it.
