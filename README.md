# codeprints analyzer: a verified model in Dafny

The codeprints analyzer turns a repository's commit history into a contribution
timeline, the `codeprints.json` file that codeprints.dev renders as a calendar
of shaded days. This project models its aggregation and classification engine
in Dafny and proves what that engine promises.

- **Parser** (`src/parser.rs`). It reads `git log --date=short` output, one
  date per commit. Blank lines are skipped and any other line that is not a
  date aborts the parse. Each date adds one commit to its day and to its
  year's summary: the total, plus a range that widens to the earliest and
  latest date seen. The timeline is then derived year by year:
  - backfill every calendar day of the year with 0;
  - compute five cut points from the year's day counts;
  - classify every day into an intensity 0 to 4 and a colour;
  - sort the years newest first and the contributions oldest first.
- **Merger** (`src/merge.rs`). It replays the contributions of several
  timelines into the same accumulated state, adding each contribution's
  count. It then derives the merged timeline the same way.
- **Quartiles** (`src/quartiles.rs`). The cut points `[0, 1, q25, q50, q75]`.
  Only the maximum of the input is used: `0 .. max - 1` go into a CKMS
  quantile sketch, which is queried at 0.25, 0.5 and 0.75. Each query answers
  a pair, and the source keeps its first component, which the `quantiles`
  crate documents as the approximate rank. The model's `Query` parameter
  stands for that component. Since the values inserted are `0 .. max - 1`,
  a value and its rank coincide.
- **The older snapshot** (`src/main.rs`). It reads the `uniq -c` lines
  `<count> <date>`, groups the days by year and summarises each year. It
  classifies the days without backfill.
- **Record types** (`src/types.rs`). `Range`, `Year`, `Contribution` and
  `Timeline`, with their derived orderings and defaults.

## Files and modules

One module per file:

| file | module | what it holds |
|---|---|---|
| `results.dfy` | `Results` | `Option`, `Result` and the error kinds |
| `text.dfy` | `Text` | `trim`, `split_whitespace`, `lines`, decimal text and string order |
| `calendar.dfy` | `Calendar` | the Gregorian date model that stands in for chrono |
| `sorting.dfy` | `Sorting` | orders, insertion sort (standing for `slice::sort`), reverse and uniqueness |
| `types.dfy` | `Types` | the record types and their orderings |
| `classify.dfy` | `Classify` | `get_intensity` and `map_color` |
| `quartiles.dfy` | `Quartiles` | `quartiles` and the sketch |
| `accumulate.dfy` | `Accumulate` | `update_years` and `update_days` as functions, and their replay over a list of updates |
| `timeline.dfy` | `Pipeline` | the accumulated `ParseState` class and the derivation of a timeline from it |
| `parser.dfy` | `Parsing` | `parse_date`, the `Parser` class and the scan over a run of dated texts |
| `merge.dfy` | `Merge` | the `Merger` class |
| `snapshot.dfy` | `Snapshot` | the older pipeline of `src/main.rs` |

### How the timeline is specified

- `Pipeline.IsTimelineOf(years, days, table, t)` states what a timeline must
  be, given a table of cut points for each year:
  - the years are the values of the year map, strictly descending in the
    derived order;
  - the contributions are strictly ascending in the derived order;
  - there is exactly one contribution for every calendar day of every year,
    classified under that year's cut points.
- `Pipeline.TableOf` ties the table to the cut points computed from each
  year's backfilled counts.
- `Parse`, `Merge` and `Current` return a timeline that meets both. Their
  `table` is a ghost out-parameter.
- `TimelineUnique` shows that the result does not depend on the order in
  which the hash maps are walked.

## Model

| member | source | states |
|---|---|---|
| Classify.Intensity | src/parser.rs:36-43 | the intensity is an index of the cut points such that every cut up to it is at most the count and the next cut, if any, is above it, i.e. one less than the first cut strictly above the count, or the last index |
| Classify.IntensityUnique | src/parser.rs:36-43 | an index with that property is the intensity: the loop's answer is determined |
| Classify.GetIntensity | src/parser.rs:36-43 | the search loop returns the intensity, for cut points starting at or below the count; the snapshot's copy at src/main.rs:96-103 is the same search |
| Classify.IntensityZero | src/parser.rs:36-43 | with cut points starting `0, 1`, the intensity is 0 exactly when the count is 0, and with five cut points it is at most 4 |
| Classify.IntensityMonotone | src/parser.rs:36-43 | a larger count never gets a lower intensity |
| Classify.IntensityExamples | src/parser.rs:188-198 | under `[0, 1, 11, 22, 32]` the counts 0, 1, 10, 18, 22, 32 and 100 get 0, 1, 1, 2, 3, 4 and 4; the snapshot's test at src/main.rs:246-256 is identical |
| Classify.ColorShades | src/parser.rs:45-54 | an intensity gets the neutral colour exactly when it is not 1 to 4, and 1 to 4 get four different shades; the snapshot's `map_color` at src/main.rs:105-114 is identical |
| Calendar.NextDay | src/parser.rs:58-61 | the successor of a valid date is later. It stays in the year except after December 31, where it is January 1 of the next year |
| Calendar.NextDayIsSuccessor | src/parser.rs:58-61 | no valid date lies strictly between a date and its successor |
| Calendar.YearDatesExactly | src/parser.rs:57-64 | the dates of a year are exactly the valid dates with that year, strictly increasing |
| Calendar.YearDatesLength | src/parser.rs:57-64 | a year has 366 days in a leap year and 365 otherwise |
| Pipeline.Backfill | src/parser.rs:57-64 | the keys become the old keys plus every valid date of the year. Old counts are kept and every new date gets 0 |
| Pipeline.CreateContributions | src/parser.rs:66-84 | one contribution per date of the map, with its formatted date, count, intensity under the cut points and colour, none repeated |
| Pipeline.ListedContributions | src/parser.rs:71-83 | the contributions built in any enumeration order of the days are exactly one per day, and distinct |
| Calendar.ParseDate | src/parser.rs:91 | a date parsed from text is valid and formats back to the trimmed text |
| Calendar.ParseDateIff | src/parser.rs:91 | text parses as date `d` exactly when, trimmed, it is `d`'s `YYYY-MM-DD` form |
| Calendar.ParseFormat | src/parser.rs:91 | a valid date's text form parses back to it |
| Calendar.FormatInjective | src/parser.rs:105 | different valid dates have different text forms |
| Calendar.FormatOrder | src/parser.rs:105-111 | for valid dates, comparing the text forms is comparing the dates, so the string range bounds are the earliest and latest dates |
| Text.Trim | src/parser.rs:87 | the trimmed text is empty exactly when the line is all whitespace, and text without whitespace at its ends is kept as it is |
| Text.TrimPadded | src/parser.rs:87 | leading whitespace before a date text is trimmed away |
| Text.Lines | src/parser.rs:122 | no line holds a line feed, and there are no lines exactly when the input is empty |
| Text.LinesOfJoin | src/parser.rs:122 | lines joined with line feeds split back into the same lines |
| Parsing.ParseLine | src/parser.rs:86-93 | a blank line yields no date. Any other line either yields a valid date whose text is the trimmed line, or fails naming the line |
| Parsing.ParseLineIff | src/parser.rs:86-93 | a line yields date `d` exactly when, trimmed, it is `d`'s text form |
| Accumulate.Widen | src/parser.rs:96-111 | the updated summary keeps its year text and adds the amount to the total |
| Accumulate.WidenRange | src/parser.rs:105-111 | with a set range, the new range runs from the earlier of the old start and the date to the later of the old end and the date |
| Accumulate.AddToYears | src/parser.rs:96-112 | the date's year is a key afterwards and no other year changes |
| Accumulate.AddToDays | src/parser.rs:115-117 | the date's count rises by the amount, starting from 0, and every other date keeps its count |
| Pipeline.ParseState.constructor | src/parser.rs:19-28 | both maps start empty |
| Pipeline.ParseState.UpdateYears | src/parser.rs:96-112 | the year map becomes `AddToYears` of the old one and the day map is unchanged |
| Pipeline.ParseState.UpdateDays | src/parser.rs:115-117 | the day map becomes `AddToDays` of the old one and the year map is unchanged |
| Accumulate.ReplayDaysCount | src/parser.rs:115-117 | after a run of updates, a date's count is its old count plus the amounts added on it, and it is a key exactly when it was one or got an update |
| Accumulate.ReplayYearsTotal | src/parser.rs:96-103 | from nothing, a year is present exactly when some update falls in it, and its total is the sum of the amounts in that year |
| Accumulate.ReplayYearsRange | src/parser.rs:105-111 | from nothing, a year's range runs from the earliest to the latest date updated in it |
| Accumulate.ReplayInYear | src/parser.rs:96-112 | updates all in one year, between a first and a last date that occur, give that year alone, with its sum as total and those dates as range |
| Accumulate.AddKeepsConsistent | src/parser.rs:96-117 | one update of both maps keeps every year total equal to the sum of that year's day counts |
| Accumulate.ReplayConsistent | src/parser.rs:96-117 | so does any run of updates |
| Accumulate.ReplaySnoc | src/parser.rs:122-128 | replaying one more date line applies its update to both maps after the earlier ones |
| Accumulate.ReplayAppend | src/parser.rs:122-128 | replaying two runs one after the other is replaying their concatenation |
| Parsing.ScanFailure | src/parser.rs:122-128 | the line loop fails exactly when some line fails, and then with the first failing line's error |
| Parsing.ScanEntries | src/parser.rs:122-128 | every update comes, in order, from a line that reads as its date. Without failure, every date line gives an update |
| Parsing.ScanAppend | src/parser.rs:122-128 | reading two runs of lines in turn: the second is read only if the first does not fail |
| Parsing.Parser.constructor | src/parser.rs:19-28 | a new parser holds its input and empty maps |
| Parsing.Parser.ReadLines | src/parser.rs:122-128 | reading the lines leaves the maps holding exactly the updates of the date lines before the first bad line, which is the error, and succeeds exactly when there is none |
| Parsing.Parser.Parse | src/parser.rs:120-155 | the maps receive exactly the updates of the date lines before any failure. A bad line is returned as the error. Otherwise the result succeeds exactly when every year has cut points, and is then the timeline of the new state; its only other error is the missing quartile |
| Pipeline.ParseState.YearContributions | src/parser.rs:135-147 | one year's contributions: one per calendar day of the year, classified under the cut points of its backfilled counts, or the cut-point failure |
| Pipeline.ParseState.ToTimeline | src/parser.rs:130-154 | succeeds exactly when every year has cut points, and then returns the timeline of the state; a backfilled year is never empty, so the only failure is the missing quartile |
| Pipeline.SortedYears | src/parser.rs:130-132 | the sorted and reversed years are the values of the year map, strictly descending in the derived order |
| Pipeline.Values | src/parser.rs:143 | the collected values are exactly the map's values |
| Pipeline.FilledCounts | src/parser.rs:142-144 | the counts handed to `quartiles` are the day counts of the backfilled year |
| Pipeline.TimelineUnique | src/parser.rs:130-149 | a state and its cut points have one timeline, whatever order the hash maps are walked in |
| Pipeline.TimelineDense | src/parser.rs:135-149 | every calendar day of every year has a contribution, classified under its year's cut points, and no date appears twice |
| Pipeline.YearsNewestFirst | src/parser.rs:130-132 | the year strings strictly decrease, and for four-digit years the years themselves do |
| Pipeline.TableOfUnique | src/parser.rs:142-144 | a state has at most one table of cut points, and only when every year has some |
| Pipeline.SingleYear | src/parser.rs:130-132 | a state with one year gives a timeline listing that year alone |
| Parsing.ParserExample | src/parser.rs:163-186 | the test's nine lines split and read without failure as seven commits, giving year 2020 alone with total 7 and range 2020-04-15 to 2020-04-17 |
| Sorting.Sort | src/parser.rs:131 | sorting permutes the list |
| Sorting.SortSorted | src/parser.rs:131 | under a strict total order the sorted list is sorted |
| Sorting.SortAscending | src/parser.rs:149 | a list without repetitions sorts into a strictly ascending list of the same elements |
| Sorting.ReverseAscending | src/parser.rs:132 | reversing an ascending list gives a descending one with the same elements |
| Sorting.AscendingUnique | src/parser.rs:149 | two strictly ascending lists with the same elements are equal |
| Sorting.DescendingUnique | src/parser.rs:130-132 | two strictly descending lists with the same elements are equal |
| Sorting.Enumerate | src/parser.rs:135 | enumerating a map lists each key once |
| Types.RangeOrder | src/types.rs:31-36 | the derived order of `Range` (start, then end) is a strict total order |
| Types.YearOrder | src/types.rs:10-16 | the derived order of `Year` (year, total, range) is a strict total order |
| Types.ContributionOrder | src/types.rs:38-45 | the derived order of `Contribution` (date, count, colour, intensity) is a strict total order |
| Types.AscendingByDate | src/types.rs:38-45 | in an ascending list of contributions no date string comes after a later one |
| Types.DescendingByYear | src/types.rs:10-16 | in a descending list of years with distinct year strings, the year strings strictly decrease |
| Text.StrLtTotal | src/types.rs:10-16 | the string order is total |
| Text.StrLtTransitive | src/types.rs:10-16 | the string order is transitive |
| Text.FourDigitOrder | src/types.rs:10-16 | four-digit year strings order like the numbers |
| Text.NatToStringInjective | src/parser.rs:99 | different years have different text |
| Text.ParseNatToString | src/parser.rs:142 | a year's text parses back to the year |
| Pipeline.EmptyTimeline | src/types.rs:21-29 | empty maps give the default timeline, with no years and no contributions |
| Quartiles.Max | src/quartiles.rs:11-14 | there is no maximum exactly for the empty input; otherwise it is an element at least every element |
| Quartiles.MaxSameElements | src/quartiles.rs:11-14 | the maximum depends only on which values occur |
| Quartiles.CutsOf | src/quartiles.rs:23-29 | without a maximum the result is the missing-maximum failure, and with one any failure is the missing quartile. Otherwise it succeeds exactly when all three quartile queries over `0 .. max - 1` answer, and then it is five cut points `0, 1` and the three answers |
| Quartiles.Sketch.constructor | src/quartiles.rs:16 | a new sketch holds nothing |
| Quartiles.Sketch.Insert | src/quartiles.rs:21 | inserting appends the value to what the sketch holds |
| Quartiles.ComputeQuartiles | src/quartiles.rs:10-30 | the method returns the cut points of the input's maximum: the loop inserts exactly `0 .. max - 1`; the snapshot's `parse_quartiles` at src/main.rs:144-161 is identical |
| Quartiles.QuartilesDependOnMaximum | src/quartiles.rs:18-22 | any two inputs with the same maximum, or two empty inputs, get the same result |
| Quartiles.ExactQuery | src/quartiles.rs:26-28 | a reference quantile query, answering the rank `floor(phi * n)`; the values inserted are `0 .. n - 1`, so each value equals its rank |
| Quartiles.ExactCuts | src/quartiles.rs:23-29 | with that query, a maximum `4q` gives `[0, 1, q, 2q, 3q]` |
| Quartiles.QuartilesExample | src/quartiles.rs:36-42 | with that query, `[0, 1, 2, 3, 4, 5, 100]` gives `[0, 1, 25, 50, 75]`; the snapshot's test at src/main.rs:228-234 is identical |
| Quartiles.AllZeroHasNoCuts | src/quartiles.rs:20-28 | with that query, an all-zero input inserts nothing and has no cut points |
| Merge.Merger.constructor | src/merge.rs:14-17 | a new merger's state is empty |
| Merge.Merger.MergeTimeline | src/merge.rs:20-33 | the state receives one year update and one day update per contribution, each with the contribution's count, up to the first unreadable date, which is returned as the error |
| Merge.Merger.Merge | src/merge.rs:38-43 | the state receives the updates of every timeline in turn, up to the first failure, which is returned. Otherwise the result succeeds exactly when every year has cut points, and is then the timeline of the new state; its only other error is the missing quartile |
| Merge.Merger.Current | src/merge.rs:46-48 | without changing the state, returns its timeline, or fails, with the missing quartile as error, exactly when some year has no cut points |
| Merge.MergeStep | src/merge.rs:39-41 | merging one more timeline after a run without failure appends its updates |
| Merge.MergeStops | src/merge.rs:38-42 | once a timeline fails, the later ones are not read |
| Merge.MergeNothing | src/merge.rs:56-60 | merging no timelines reads nothing and gives the default timeline |
| Merge.IgnoresColourAndIntensity | src/merge.rs:22-30 | timelines with the same dates and counts merge alike, whatever their colours, intensities and year summaries |
| Merge.MergeAdds | src/merge.rs:20-42 | after a run without failure, merging more timelines adds their counts to every year total and every day count |
| Merge.MergedRange | src/merge.rs:20-42 | a merged year's range runs from the earliest to the latest date merged in it, zero counts included |
| Merge.MergeWidens | src/merge.rs:20-42 | merging more timelines widens a year's range to the earlier start and the later end |
| Merge.MergeOneExample | src/merge.rs:62-102 | the single test timeline merges into year 2020 with total 1234 and range 2020-01-01 to 2020-01-02 |
| Merge.MergeExample | src/merge.rs:104-181 | the two test timelines merge into year 2020 alone, with total 1234 + 6 = 1240 and range 2020-01-01 to 2020-01-03 |
| Merge.MergeExampleTimeline | src/merge.rs:171-180 | the merged timeline lists that one year |
| Merge.ReadBack | tests/test_merger.rs:19-29 | every contribution of a derived timeline reads back as a valid date of one of its years, with the contribution for that date |
| Merge.RoundTripEntries | tests/test_merger.rs:19-29 | merging a derived timeline reads every contribution once, with that date's count |
| Merge.RoundTripCount | tests/test_merger.rs:19-29 | merging a derived timeline into an empty merger reproduces every day count |
| Merge.RoundTripKeys | tests/test_merger.rs:14-17 | merging a derived timeline records exactly the years of the state it came from |
| Merge.RoundTripYears | tests/test_merger.rs:14-17 | it also reproduces the set of years and every year's text and total |
| Merge.RoundTripTable | tests/test_merger.rs:12-29 | it also reproduces the cut points of every year |
| Merge.MergeRoundTrip | tests/test_merger.rs:5-30 | re-deriving the merged state reproduces every contribution: date, count, intensity and colour |
| Merge.MergeRoundTripYears | tests/test_merger.rs:14-17 | every year of the re-derived timeline has an original year with the same text and total |
| Snapshot.ParseDay | src/main.rs:33-47 | a line without exactly two whitespace-separated fields fails with its field count. Otherwise it succeeds exactly when the first field is a count and the second a date, giving that count and date |
| Snapshot.BlankLineFails | src/main.rs:34-41 | a blank line has no fields and fails |
| Snapshot.ParseDayLine | src/main.rs:33-47 | the line `uniq -c` prints for a day, however indented, parses back to that day |
| Snapshot.ParseDayExample | src/main.rs:199-204 | `"123 2020-11-04"` is 123 commits on 2020-11-04 |
| Snapshot.Collect | src/main.rs:163-165 | on success, one parsed value per line in order. On failure, the error of the first line that fails |
| Snapshot.CollectAll | src/main.rs:163-165 | when every line parses, the result is the list of their values |
| Snapshot.ParseLinesRoundTrip | src/main.rs:163-165 | the text of a list of days, one `uniq -c` line each, parses back to that list |
| Snapshot.InYear | src/main.rs:49-57 | a year's bucket holds only days of that year from the input, and is empty exactly when no day falls in the year |
| Snapshot.MapYears | src/main.rs:49-57 | the keys are exactly the years of the days, and every bucket is that year's days in input order |
| Snapshot.InYearCount | src/main.rs:49-57 | every day appears in its year's bucket as often as in the input and in no other bucket: no day is lost |
| Snapshot.InYearAll | src/main.rs:49-57 | days all of one year form that year's bucket unchanged |
| Snapshot.Summary | src/main.rs:70-90 | a year without days fails with an error naming the year; otherwise a summary is returned |
| Snapshot.SummaryMeaning | src/main.rs:70-90 | the summary has the year's text, the sum of the commits, and as range the earliest and latest dates of the days |
| Snapshot.TotalAppend | src/main.rs:88 | totals add up over concatenation |
| Snapshot.ParseYears | src/main.rs:67-94 | succeeds exactly when no bucket is empty, and otherwise fails naming an empty year. On success it lists one summary per year, and exactly the summaries of the buckets |
| Snapshot.GroupedSummaries | src/main.rs:67-94 | every bucket `map_years` builds has a summary, totalling its commits |
| Snapshot.SummaryOfIncreasing | src/main.rs:70-84 | days in increasing date order have the first and last as range |
| Snapshot.SummaryExample | src/main.rs:206-226 | 2, 1 and 4 commits on three increasing dates of 2020 form one bucket, with total 7 and range from the first to the last date |
| Snapshot.YearsExample | src/main.rs:206-226 | the test's days give year 2020 with total 7 and range 2020-04-15 to 2020-04-17 |
| Snapshot.ParseContributions | src/main.rs:116-136 | one contribution per day, in input order, each the day's contribution under its year's cut points |
| Snapshot.DayContributionFacts | src/main.rs:122-132 | a day's contribution has its date as text, its count, an intensity of at most 4 that is 0 exactly when there are no commits, and the neutral colour exactly then |
| Text.Fields | src/main.rs:34 | the fields are non-empty and free of whitespace, and there are none exactly when the line is blank |
| Text.FieldsOfWord | src/main.rs:34 | leading whitespace and a word give that word as the first field |
| Text.ParseNat | src/main.rs:42 | a count parses exactly when it is all digits, optionally after one `+` |
| Text.NatToStringValue | src/main.rs:42 | the decimal text of a number reads back as that number |

## Left out

- Git and the process plumbing are not part of this model: `git::count_commits`, `get_commits` and `main` in `src/main.rs`, and the client binary. They run subprocesses and write files. The text they hand over is a parameter.
- The command-line front end in `src/bin/analyzer` is not part of this model. Neither is the date-bound filtering it configures: `set_before`/`set_after` have no definition in `src/parser.rs`.
- `src/json.rs` and JSON encoding and decoding are not part of this model.
- The CKMS sketch's algorithm and its error bound are not modelled. A quantile query is a function parameter over the values inserted, so any query, exact or approximate, may be passed. `Quartiles.ExactQuery` is one exact query used for the examples. The fixture-based tests, which depend on the real sketch's answers, are not modelled.
- chrono is replaced by the date model in `calendar.dfy`. Years run from 0 to 9999 and dates are read only in the canonical `YYYY-MM-DD` form after trimming. chrono's other accepted spellings (signed or five-digit years) are not modelled.
- Calendar.ParseDate: accepts only four-digit, zero-padded `YYYY-MM-DD`. It is weaker than chrono's `NaiveDate::from_str`, which accepts more spellings.
- `src/merge.rs` uses `ParseState`, `git::parse_date` and `Timeline::try_from`, but `src/parser.rs`, `src/git.rs` and `src/types.rs` do not define them. They are modelled on `Parser::update_years`, `Parser::update_days`, `Parser::parse_date` and the second half of `Parser::parse`, with the amount added being a parameter: 1 for the parser, the contribution's count for the merger.
- The merger's accumulated `ParseState` is a `const` reference held by `Merger` and `Parser`. Only its two maps change in place.
- Hash-map iteration order is unspecified. The model walks the maps in an order it chooses freely, and `TimelineUnique` shows the parser's output does not depend on it. In `Snapshot.ParseYears` the order of the years is the walk's order, so only membership and length are stated.
- Snapshot.ParseContributions: returns a `Result`, as the source does, but it never fails. Like the source's indexing of the cut-point map, it demands that every day's year has cut points.
- Classify.GetIntensity: requires the first cut point not to exceed the count. The source subtracts 1 from index 0 otherwise, which would underflow; every cut-point list it is given starts with 0.
- `usize` arithmetic is unbounded here. Overflow of totals and counts is not modelled, nor is the `i as u32` cast at `src/quartiles.rs:21`, which would wrap for a maximum above 2^32.
- Rust's `slice::sort` is modelled by an insertion sort. Only its result matters: the sorted permutation, which is unique for distinct elements.
- Pipeline.YearsNewestFirst: states numeric order only for years of four digits. For shorter year strings the derived string order is not numeric order, and the model states only the string order.
