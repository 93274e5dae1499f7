# Energy-measurement action: a Dafny model of its decision logic

The action measures the energy a test run uses, stores the measurement on the
`energy` branch under the pushed commit, and, when the commit belongs to an open
pull request, compares it with the measurement stored for the pull request's
fork point and posts the verdict as a comment. This project models the logic of
`index.js` that decides all of this, with every call to the hosting API and to
the shell replaced by the value it returns:

- `JsNumber.dfy`: `Number(string)` on a sample line (whitespace trimmed, blank is 0,
  signed decimals, anything else not-a-number), `Math.round`, and the decimal text of
  an integer.
- `Aggregation.dfy`: `readEnergyData`: splitting on `'\n'`, the summing loop (a
  method with its invariant), and the report `{total_energy, power_avg, duration}`.
- `ReportStore.dfy`: the branch as a map from `.energy/<sha>.json` to the stored
  report; `commitReport` and `getMeasurementsFromRepo`.
- `PullRequests.dfy`: `getPullRequest`, the first open pull request.
- `ForkPoint.dfy`: `getForkPoint`, including the step past a report commit.
- `Comparison.dfy`: `compareToOld`, the ratio rounded to hundredths.
- `Comment.dfy`: `createComment`'s body, built line by line by a method, the band
  test and the verdict texts.
- `Pipeline.dfy`: `run` as a function of the external outcomes, returning the
  branch after the run, the API calls made in order, and whether the run failed.

Numbers are exact `real`s and `Math.round(x)` is `floor(x + 1/2)`.

Where the code does something other than what the action is evidently meant to
do, the model follows the code:
- The band test of `createComment` is applied to the ratio itself, not to its
  distance from 1. `Comment.PositiveTotalsVerdict` proves what follows for
  positive totals: the green "higher" line never appears, and "no significant
  difference" appears only for ratios of at most 0.5. `Comment.ParityVerdict`
  proves that equal totals read "100% lower than the base branch".
- `compareToOld` has no guard against a zero new total. The model asks for a
  non-zero total, and only in the one case where the code divides.
- A failed measurement ends the run before anything is written or listed:
  `measureCpuUsage` rejects when the test command exits non-zero (index.js:41),
  when `killall` finds no profiler left (index.js:42), when `estimateEnergy`
  rejects (index.js:22, 28, 43), or when the sample file cannot be read
  (index.js:45, without a guard). Each reaches `run`'s catch (index.js:254-257)
  before `commitReport`; the `measured = false` input stands for all of them. The null that `readEnergyData`
  returns when reading throws (index.js:76-79) can only arise when the file
  disappears between the two reads; the `energyFile = None` input stands for
  that case alone. That null report is then written, and the run fails once it
  gets past the fork point.
- A push whose payload has no `head_commit` fails the run before anything is
  written or listed, because the report path is built outside `commitReport`'s
  try (index.js:116).
- Of several open pull requests, the first in the API's order is taken. No
  tie-break by number is applied.

## Model

| member | source | states |
|---|---|---|
| `JsNumber.TrimmedEnds` | index.js:67 | `Number` ignores surrounding whitespace: the trimmed text has none at either end, and every non-whitespace character is kept in place |
| `JsNumber.ParseBlank` | index.js:67 | a blank or all-whitespace piece, including the empty piece after a trailing newline, reads as 0 |
| `JsNumber.ParseRejects` | index.js:67 | a piece with any character that cannot belong to a plain decimal numeral is not a number |
| `JsNumber.ParseSign` | index.js:67 | a numeral written with a leading `-` reads as at most 0, any other as at least 0 |
| `JsNumber.DigitsBound` | index.js:67 | n digits denote less than 10^n |
| `JsNumber.FractionBound` | index.js:67 | the digits after a decimal point are worth at least 0 and less than 1 |
| `JsNumber.ParseDecimal` | index.js:67 | a decimal with a fraction, such as "12.5", reads as its whole part plus its digits after the point over the matching power of ten |
| `JsNumber.TwelveAndAHalf` | index.js:67 | the sample "12.5" reads as 12.5 |
| `JsNumber.NatToString` | index.js:206 | the decimal text of a natural is all digits, denotes that natural, and has no leading zero unless it is "0" |
| `JsNumber.IntToString` | index.js:206-208 | the text of a negative integer is `-` and the digits of its magnitude, which do not start with 0; of any other, its digits, with no leading zero unless it is "0" |
| `JsNumber.ParseIntToString` | index.js:206-208 | round trip: `Number` reads back the decimal text of every integer as that integer |
| `JsNumber.Round` | index.js:229 | `Math.round(x)` is the integer r with x - 1/2 < r <= x + 1/2, so halves round up |
| `JsNumber.RoundUnique` | index.js:229 | those bounds determine the rounded value |
| `Aggregation.Split` | index.js:63 | `split('\n')` yields one more piece than there are newlines, so at least one |
| `Aggregation.JoinSplit` | index.js:63 | splitting loses nothing: joining the pieces with newlines gives the text back |
| `Aggregation.SplitJoin` | index.js:63 | splitting newline-free pieces joined with newlines gives the pieces back |
| `Aggregation.SplitTrailingNewline` | index.js:63 | a trailing newline adds exactly one empty piece at the end |
| `Aggregation.Samples` | index.js:67 | one value per piece |
| `Aggregation.SampleAt` | index.js:67 | each value is what `Number` reads from the piece at the same position |
| `Aggregation.Total` | index.js:65-68 | the running sum is a number exactly when every value is one, so one not-a-number spoils the rest |
| `Aggregation.TotalAppend` | index.js:65-68 | the sum over two consecutive parts is the sum of the parts' sums |
| `Aggregation.Report` | index.js:69-75 | the report keeps the total and the count, and the average times the count is the total |
| `Aggregation.Aggregate` | index.js:63-75 | a report exists exactly when every piece is a number; its duration is the newline count plus one and its total is the in-order sum |
| `Aggregation.NotANumber` | index.js:67-72 | one non-numeric piece leaves no report |
| `Aggregation.ReadEnergyData` | index.js:60-80 | the loop computes exactly the report `Aggregate` specifies |
| `Aggregation.TrailingNewline` | index.js:63-74 | a trailing newline keeps the total, adds one to the duration and lowers the average to total/(duration+1) |
| `Aggregation.ThreeSamples` | index.js:63-75 | any three numeric lines without a trailing newline give their sum over a duration of 3 |
| `Aggregation.TenTwentyThirty` | index.js:63-75 | the file "10\n20\n30" gives a total of 60, an average of 20 and a duration of 3 |
| `ReportStore.ReportPath` | index.js:116 | the path is `.energy/`, then the commit, then `.json` |
| `ReportStore.ReportPathInjective` | index.js:180 | different commits never share a report path |
| `ReportStore.CommitReport` | index.js:113-132 | a successful write sets the commit's path and leaves every other path alone; a failed write changes nothing |
| `ReportStore.FetchReport` | index.js:176-197 | a missing path reads as null, a present one as its stored content |
| `ReportStore.FetchAfterCommit` | index.js:116 | after a write, reading that commit gives what was written and reading any other commit gives what was there before |
| `PullRequests.OpenOnly` | index.js:141 | the filter keeps exactly the open pull requests, and its first element is the first open one in the listing |
| `PullRequests.GetPullRequest` | index.js:134-150 | null exactly when the call failed or no listed pull request is open; otherwise the first open one in listing order |
| `PullRequests.FirstOpenUnique` | index.js:145 | the first open pull request is unique, so the choice is determined |
| `ForkPoint.BaseHead` | index.js:156 | the compare range is the base ref, `...`, then the head ref |
| `ForkPoint.GetForkPoint` | index.js:152-174 | a failed call gives null; a report-commit base tip gives the merge base's first parent, or null when it has none; any other tip gives the merge base |
| `Comparison.RoundToHundredths` | index.js:229 | the result is a whole number of hundredths, within half a hundredth of the argument |
| `Comparison.RoundToHundredthsUnique` | index.js:229 | those two properties determine the rounded value |
| `Comparison.CompareToOld` | index.js:223-230 | null exactly when there is no baseline; otherwise whole hundredths within half a hundredth of old total over new total |
| `Comparison.EqualTotals` | index.js:229 | equal totals give exactly 1 |
| `Comparison.FivePercentLess` | index.js:229 | a baseline of 105 against 100 gives 1.05 |
| `Comparison.WithinRounding` | index.js:229 | a baseline of 100.3 against 100 gives 1.0 |
| `Comparison.PositiveRatio` | index.js:229 | positive totals give a non-negative ratio |
| `Comment.Classify` | index.js:202-209 | no-difference exactly on [-0.5, 0.5], red "lower" exactly above, green "higher" exactly below, so exactly one line; both coloured lines show the rounded ratio times 100 |
| `Comment.Header` | index.js:201 | the body starts with the total, the average power to two decimals (within half a hundredth), and the duration |
| `Comment.CommentBody` | index.js:199-210 | the header, then one verdict line exactly when there is a ratio |
| `Comment.BuildComment` | index.js:199-210 | the `+=` construction gives exactly that body |
| `Comment.IntToStringInjective` | index.js:206-208 | the displayed percentage text determines the percentage |
| `Comment.MiddleDetermined` | index.js:206-208 | fixed text around a number determines the number's text |
| `Comment.VerdictText` | index.js:204-208 | every verdict line starts a new paragraph; the red line (lower) and the green line (higher) show, between their markup, a number that reads back as the verdict's percentage |
| `Comment.ShownPercent` | index.js:206-208 | fixed markup around an integer's text shows that integer |
| `Comment.KindsDiffer` | index.js:204-208 | the three kinds of verdict line differ in their text |
| `Comment.VerdictTextInjective` | index.js:204-208 | different verdicts never render to the same line |
| `Comment.PositiveTotalsVerdict` | index.js:203-208 | with positive totals the green line never appears, and no-difference appears exactly for ratios up to 0.5 |
| `Comment.ParityVerdict` | index.js:203-206 | equal totals read "100% lower than the base branch" |
| `Comment.FivePercentLessVerdict` | index.js:205-206 | a baseline of 105 against 100 reads "105% lower than the base branch" |
| `Pipeline.EnergyData` | index.js:60-80 | an unreadable file gives null; a readable one gives `Aggregate` of its text, a report with a duration of at least 1 and an average that times the duration is the total |
| `Pipeline.Run` | index.js:232-259 | when the measurement fails or the payload has no head commit, the run fails having written and listed nothing; otherwise the report is written and pull requests listed; with no open pull request nothing follows; with no fork point nothing follows the comparison; otherwise the fork point's report is read, then the comment is posted when the run has a report and nothing else is called; without a report the run fails |
| `Pipeline.CommentContents` | index.js:249-251 | the comment goes to the selected pull request and its body is the one `createComment` builds from this run's report and the ratio against the baseline: the header, and a verdict line exactly when a baseline was found |
| `Pipeline.BaselineIsOwnReport` | index.js:239-249 | when the fork point is the head commit and both the write and the read succeed, the baseline is the report just written |
| `Pipeline.BaselineFromEarlierRun` | index.js:239-249 | for any other fork point the baseline is what the branch held before the run, or null when the read fails |

## Left out

- `measureCpuUsage` and `estimateEnergy` (index.js:11-49): the shell commands, the detached profiler, `models.json` and the CPU model lookup are process and file I/O; `setup` and `AI` are not part of this model. The sample file's text is an input, and whether `measureCpuUsage` resolves at all is the `measured` input.
- `retrieveOctokit` (index.js:51-58): the access token and `core.setFailed` on its absence are not modelled.
- `createBranch` (index.js:82-111): whether the `energy` branch exists or is created is not modelled; a write that fails for any reason is the `writeSucceeds` input.
- Every hosting-API call's transport: each call's result is an input, with None (or `false` for the write and the baseline read) for a call that failed; the swallowed error itself is not modelled.
- Base64 and JSON encoding of the stored report (index.js:126, 191-192): the branch holds parsed reports, and None for a stored JSON `null`.
- IEEE-754 arithmetic: the `Number.EPSILON` nudges before rounding (index.js:201, 206, 208, 229), float rounding, Infinity and NaN values.
- Aggregation.Aggregate: a non-numeric piece gives no report instead of a report whose numbers are NaN. A run with such a file therefore fails at the comment step, where the source would post a comment showing NaN.
- Aggregation.NotANumber: inherits the gap above: where the lemma proves no report, the source has a report of NaNs.
- ReportStore.CommitReport: a report of NaNs is stored by the source as `{"total_energy":null,"power_avg":null,"duration":n}`, since `JSON.stringify` writes NaN as `null`. A later run reads that back and divides `null` by its own total, which gives a ratio of 0 and the "No significant difference" line (index.js:126, 191-192, 229, 203-204). The model stores None for such a report, so that later run posts no verdict line.
- JsNumber.ParseNumber: exponents, hexadecimal, octal and binary numerals, and `Infinity` read as not-a-number here; JavaScript accepts them (`Number("1e3")` is 1000).
- JsNumber.ParseRejects: inherits the gap above: it treats `e`, `x`, letters of `Infinity` and the like as characters no numeral holds.
- Comparison.CompareToOld: a zero new total with a baseline present is excluded by its precondition; the source would divide by zero. `Pipeline.Run` excludes the same case, and only that case.
- Pipeline.Run: the causes of a failed measurement (index.js:36-46) are not told apart; they are one `measured` flag, under which the run fails before writing anything.
- Pipeline.Run: inherits the gaps of `Aggregation.Aggregate` and `Comparison.CompareToOld` above: a run over a non-numeric piece fails where the source posts NaN, and a run with a zero total against a baseline is excluded.
- Comment.Header: the first three lines keep their numbers as values; JavaScript's number-to-text conversion for them is not modelled. The verdict line is kept as its `Verdict` value; `Comment.VerdictText` gives its text, and `Comment.VerdictTextInjective` shows that the text determines the value.
- ForkPoint.GetForkPoint: a parent entry without a `sha` field is not modelled; every parent is a commit id.
- Posting the comment (index.js:212-220): its failure is swallowed and changes nothing; the model records the post as a step.
- Logging, `async`/`await`, and the top-level `run()` call are not modelled.
