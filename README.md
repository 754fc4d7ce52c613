# Alpine lap-time analyzer — a verified model of its analytical core

The analyzer reads a per-lap telemetry CSV for two drivers, Gasly and Colapinto.
It turns each data row into a `RaceLap` record. Then, in one forward pass, it
derives per-driver statistics:

- the pitstop count;
- the fastest lap;
- the average and the median of the "clean" laps (green flag, no pitstop, time present);
- the tyre-compound sequence, with consecutive repeats collapsed.

It also computes the mean pace delta between the two drivers over the laps where
both ran under green flag, and names the faster driver.

The model has these modules:

- `RaceData` (`race_data.dfy`): the `LapData` and `RaceLap` records, the parse
  errors, and the `double.MaxValue` sentinel as an exact number.
- `Parsing` (`parsing.dfy`): the row parser `ReadRaceData` and its helpers
  `ParseIntOrNull`, `ParseDoubleOrNull` and `ParseBool`. It also holds `Split`
  and the fixed column table: lap number at column 0, Gasly at 1/3/5/7/13,
  Colapinto at 15/17/19/21/27. `ReadRaceData` is a loop proved against the
  reference function `ParseLines`. `ParseLinesMeaning` states what that function
  means: one lap per data line, in file order, and the first bad row aborts the
  whole parse.
- `Sequences` (`sequences.dfy`): reference definitions of the list operations
  the statistics pass performs: filter-and-map (`Keep`), `Count`, `Sum` and
  `Average`, the running minimum, and the collapse of consecutive repeats. Each
  comes with the lemmas that state what it means.
- `Medians` (`median.dfy`): `CalculateMedian` sorts its array in place and picks
  the middle element. It is proved equal to the reference `Median`, which takes
  the middle of a functional insertion sort. Sorted permutations are unique, so
  any in-place sort yields the same median.
- `Statistics` (`statistics.dfy`): `AnalyzeRace`, the forward loop with its
  accumulators, proved equal to `SummaryOf`. Lemmas say what each accumulator
  means. The per-driver block of the loop body, written out twice in the
  source, is the method `DriverStep`.
- `StatusCodes` (`status_codes.dfy`): `GetShortStatus` and its inverse.
- `Pipeline` (`pipeline.dfy`): `Run`, the branch structure of `Main`.

Times are exact `real` numbers. `int.Parse` and the invariant-culture
`double.Parse` are abstract partial functions. They are passed in as a
`NumberFormat` value, where `None` stands for the exception they throw.

Where the design description and the code differ, the model follows the code:

- The fastest lap is not an optional value. When a driver has no recorded time,
  it stays at the `double.MaxValue` sentinel (`MaxTime`). The conversion to 0
  happens only in the printing code.
- The pace-delta sample does not exclude pitstop laps. Only the two green-flag
  statuses and the two times are tested (`Program.cs:172`), even though the
  printed footer says "green flags no pitstops".

## Model

| member | source | states |
|---|---|---|
| `Parsing.IsDataLine` | Program.cs:60-65 | a line is parsed exactly when it is non-empty and its first character is a digit; blank, whitespace-only and header lines are skipped |
| `Parsing.JoinSplit` | Program.cs:68 | splitting on the separator loses nothing: joining the pieces gives the line back |
| `Parsing.SplitPiecesHaveNoSeparator` | Program.cs:68 | no piece produced by the split contains the separator |
| `Parsing.SplitJoin` | Program.cs:68 | splitting the join of separator-free pieces gives the same pieces, so split and join are inverse |
| `Parsing.SplitDataLine` | Program.cs:65-73 | the lap-number field of a data line starts with its leading digit, so it is never empty |
| `Parsing.ParseIntOrNull` | Program.cs:403-408 | null exactly for the empty field; otherwise the integer parser's value, and an error exactly when that parser rejects the text |
| `Parsing.ParseDoubleOrNull` | Program.cs:396-401 | null exactly for the empty field; otherwise the number parser's value, and an error exactly when that parser rejects the text |
| `Parsing.ParseBool` | Program.cs:410-415 | true exactly for the four letters T, R, U, E in any case; the empty field or any other token is false, never an error |
| `Parsing.ParseBoolExamples` | Program.cs:410-415 | "TRUE", "true" and "True" are true; "", "FALSE", "yes" and " TRUE" (untrimmed) are false |
| `Parsing.ParseRow` | Program.cs:67-87 | a row succeeds exactly when it has at least 28 fields and its lap number and every non-empty time, position and status field parse; each field then comes from its fixed column, and the tyre compounds are copied verbatim |
| `Parsing.FailurePersists` | Program.cs:58-90 | a row that throws aborts the whole parse with that row's error, whatever lines follow |
| `Parsing.ParseLinesMeaning` | Program.cs:58-92 | the parse succeeds exactly when every data row parses; it then holds one lap per data line in file order, with no sorting, renumbering or dedup; otherwise its error is that of the first failing data row |
| `Parsing.ReadRaceData` | Program.cs:42-93 | a missing file gives the empty list; otherwise the forward loop over the lines returns exactly the reference parse of the file |
| `Sequences.KeepAppend` | Program.cs:138-141 | filter-and-map distributes over concatenation: kept values stay in input order and none is lost or duplicated |
| `Sequences.KeepMember` | Program.cs:138-141 | a value is kept exactly when the selector picks it from some element |
| `Sequences.RunningMin` | Program.cs:131-135 | the running minimum is at most the start value and at most every element, and it equals the start value or one of the elements |
| `Sequences.AverageBounds` | Program.cs:181-187 | the mean of samples that all lie in [lo, hi] also lies in [lo, hi] |
| `Sequences.CollapseSnoc` | Program.cs:121-129 | appending a compound either extends the collapsed list by it or, when it repeats the last one, leaves the list unchanged |
| `Sequences.CollapseHasNoRepeats` | Program.cs:125 | a collapsed list never has two equal neighbours |
| `Sequences.CollapseElements` | Program.cs:121-129 | a collapsed list holds exactly the values of its input |
| `Sequences.CollapseFixesRepeatFree` | Program.cs:125 | a list without adjacent repeats is its own collapse |
| `Sequences.CollapseIdempotent` | Program.cs:121-129 | collapsing twice is the same as collapsing once |
| `Medians.SortSeqCorrect` | Program.cs:319 | the reference sort returns a sorted permutation of its input |
| `Medians.SortedPermutationUnique` | Program.cs:319 | two sorted sequences holding the same values are equal, so the median does not depend on the sorting algorithm |
| `Medians.SortInPlace` | Program.cs:319 | the in-place sort leaves the array sorted ascending and a permutation of what it held |
| `Medians.CalculateMedian` | Program.cs:316-334 | an empty list gives 0 and is left alone; otherwise the list is sorted in place and the result is the reference median: the middle element for an odd count, the mean of the two middle elements for an even count |
| `Medians.MedianIgnoresOrder` | Program.cs:316-334 | samples with the same values in any order have the same median |
| `Medians.MedianOfSortedPermutation` | Program.cs:319-333 | the median is the middle of any sorted permutation of the sample |
| `Medians.MedianBounds` | Program.cs:316-334 | the median of samples in [lo, hi] lies in [lo, hi] |
| `Medians.MedianExamples` | Program.cs:316-334 | [] gives 0, [10] gives 10, [10, 12] and [12, 10] give 11, [9, 10, 11] and [11, 9, 10] give 10 |
| `Statistics.Winner` | Program.cs:223 | Gasly is named exactly when the mean delta is negative; an exact 0 goes to Colapinto |
| `Statistics.PaceFooter` | Program.cs:220-223 | the footer is present exactly when some delta was collected; it then holds the mean delta, and Gasly is named exactly when the sum of the deltas is negative |
| `Statistics.Total` | Program.cs:181-182 | the summing loop returns the sum of the clean-lap times |
| `Statistics.MedianOf` | Program.cs:190-191 | the median of a driver's clean list, computed in place on a copy, is the reference median |
| `Statistics.DriverStep` | Program.cs:117-169 | one lap of one driver's part of the loop takes the counter, fastest lap, clean list and compound list from their values on the earlier laps to their values including this lap |
| `Statistics.AnalyzeRace` | Program.cs:98-191 | the statistics pass returns exactly `SummaryOf` the laps (per driver: pitstop count, fastest lap, clean average with 0 for none, clean median, collapsed compounds; plus the pace footer), and both compound lists are free of empty names and adjacent repeats |
| `Statistics.PitstopCountMeaning` | Program.cs:118 | the pitstop count is the number of laps on which the driver pitted |
| `Statistics.FastestLapMeaning` | Program.cs:101-102 | the fastest lap is at most every recorded time; it stays at the `MaxValue` sentinel when no time is recorded; and it is one of the recorded times once some time does not exceed the sentinel |
| `Statistics.CleanLapsMembers` | Program.cs:137-141 | the clean list holds exactly the times of laps with status 1, no pitstop and a recorded time |
| `Statistics.CleanLapsInOrder` | Program.cs:137-141 | the clean list follows lap order, so splitting the race splits the list; it has one entry per clean lap |
| `Statistics.DeltasMembers` | Program.cs:171-175 | a delta is Gasly's time minus Colapinto's, collected exactly for laps where both have status 1 and a recorded time |
| `Statistics.DeltasInOrder` | Program.cs:171-175 | the delta list follows lap order |
| `Statistics.CompoundsWellFormed` | Program.cs:120-129 | the compound list has no empty name and no two equal neighbours, and holds exactly the non-empty compounds the driver used |
| `Statistics.PaceFooterConsistent` | Program.cs:220-223 | if Gasly is quicker on every compared lap, the footer names Gasly; if Colapinto is never slower, it names Colapinto |
| `Statistics.FastestBelowCleanPace` | Program.cs:131-191 | neither the clean average nor the clean median is below the fastest lap |
| `Statistics.CompoundsExample` | Program.cs:121-129 | SOFT, SOFT, MEDIUM, MEDIUM, SOFT collapses to SOFT, MEDIUM, SOFT |
| `Statistics.PaceDeltaExample` | Program.cs:171-175 | green laps (90.0 vs 91.0) and (89.0 vs 88.5) give deltas -1.0 and 0.5, mean -0.25, Gasly faster; a lap with Colapinto under yellow flag adds no delta; a mean of exactly 0 goes to Colapinto |
| `StatusCodes.GetShortStatus` | Program.cs:384-394 | the label is empty exactly when the code is missing or not one of 1, 2, 4, 5, 6, 7 |
| `StatusCodes.LabelRoundTrip` | Program.cs:384-394 | every non-empty label maps back to its code |
| `StatusCodes.LabelsDistinct` | Program.cs:384-394 | two codes with the same non-empty label are the same code |
| `Pipeline.Run` | Program.cs:12-39 | a missing file, or a file with no data line, gives "no data"; a row that throws aborts the run with its error; otherwise the run reports the lap count and the summary of the parsed laps |

## Left out

- File I/O: `File.Exists` and `File.ReadAllLines` are not modelled. The file is an input value, with `None` for a missing file.
- Console output is not modelled: the banners, the summary table, `PrintMetricRow`, `PrintTyreList`, the detailed lap table and the `Console.ForegroundColor` changes. This includes turning the `MaxValue` sentinel into 0 for display (line 201).
- IEEE-754 arithmetic is not modelled: times are exact reals, so sums and means carry no rounding, and `F3` formatting is not modelled. Infinite or NaN parse results do not exist in the model.
- Number parsing: `int.Parse` and `double.Parse` with `CultureInfo.InvariantCulture` are abstract parameters. Their accepted syntax and the 32-bit range of `int` are not modelled.
- `char.IsDigit` is modelled for ASCII '0'–'9' only. A line that starts with another Unicode decimal digit is skipped by the model, while the source would try to parse it.
- `StringComparison.OrdinalIgnoreCase` in `ParseBool` is modelled as ASCII case folding.
- Null strings are not modelled: a split or read line is never null, so `IsNullOrEmpty` is a test for the empty string.
- Counters and lap numbers are unbounded integers. The source's 32-bit `int` never wraps at realistic lap counts.
- `List<double>.Sort` is modelled as an insertion sort. Only its result matters: a sorted permutation, and sorted permutations are unique.
- In `AnalyzeRace`, `CalculateMedian` sorts a fresh copy of each clean list, while the source sorts the accumulator list itself. Nothing reads that list afterwards, so the summary is the same.
- Parsing.ParseRow: states when a row fails but not which error it reports. The error is the first failing column in the source's reading order, and that order is only encoded in `ParseLapData`.
