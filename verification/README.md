# Beat Consistency Analyzer — a verified model of its core

Beat Consistency Analyzer is a browser page for practising steady tapping.
A key press on the start screen begins a session and starts a metronome. Each
later key press records one tap timestamp. Once the configured number of taps
is reached, the session stops and the page shows an analysis of how evenly the
taps were spaced:

- the intervals between consecutive taps;
- their mean and population standard deviation, in milliseconds;
- each interval's percentage deviation from the mean;
- the RMS of those deviations, the "stability" figure;
- a histogram of the deviations over 11 bins, each 2 % wide, from −11 % to 11 %.
  Deviations outside that range go into the end bins.

Enter on the results screen returns to the start screen.

The project models two parts of `BeatConsistencyAnalyzer/script.js` in Dafny:

- `stats.dfy`, module `Stats`: the statistics, as pure functions over reals, with their properties as lemmas.
  - The intervals telescope.
  - The variance is non-negative.
  - Percentage deviations from the mean sum to zero.
  - The squared percentage standard deviation times the squared mean equals 10000 times the variance in ms².
  - The RMS of the deviations is their standard deviation.
  - Steady tapping gives zero spread.
- `binning.dfy`, module `Binning`: the histogram.
  - The closed-form bin of a deviation, and the proof that bins are disjoint and clamped.
  - The bin-search loop and the counting loop over an array, both proved against that specification.
  - No deviation is lost: the counts add up to the number of deviations.
- `analysis.dfy`, module `Analysis`: the analysis run at the end of a session.
  - The interval loop.
  - The method that assembles the outcome, specified by the pure function `Analyze`.
  - Worked examples.
- `session.dfy`, module `Session`: the screens and the key handling.
  - A pure transition function `Next` over snapshots of the state, with its invariant `Consistent`.
  - Lemmas about single key presses and about whole runs of key presses.
  - The class `Game`, whose methods update the page's state variables in place and are proved to follow `Next`.

The standard deviations are square roots. The model states them through their squares:

- `Variance` is stdDevMs²;
- `MeanSquare` of the deviations is stdDevPercent².

The clock (`performance.now()`) is a parameter: every key press carries the time `now` at which it arrives.

## Model

| member | source | states |
|---|---|---|
| Stats.Sum | BeatConsistencyAnalyzer/script.js:169-170 | the `reduce((a, b) => a + b, 0)` sum of lines 169, 170 and 175: 0 for no elements, otherwise the first plus the sum of the rest |
| Stats.Intervals | BeatConsistencyAnalyzer/script.js:161-165 | there are no intervals for fewer than two taps and n − 1 otherwise; interval i is tap i+1 minus tap i |
| Stats.IntervalsSum | BeatConsistencyAnalyzer/script.js:161-165 | the intervals sum to the last timestamp minus the first |
| Stats.IntervalsNonNegative | BeatConsistencyAnalyzer/script.js:161-165 | non-decreasing timestamps give no negative interval |
| Stats.Mean | BeatConsistencyAnalyzer/script.js:169 | the mean interval: the sum divided by the count; MeanTimesCount and MeanIntervalZeroIff state what it satisfies |
| Stats.MeanIntervalZeroIff | BeatConsistencyAnalyzer/script.js:169 | the mean interval is zero exactly when the last tap has the same timestamp as the first |
| Stats.SumOfConstant | BeatConsistencyAnalyzer/script.js:169 | a sequence of n copies of c sums to n·c |
| Stats.MeanTimesCount | BeatConsistencyAnalyzer/script.js:169 | the count times the mean is the sum |
| Stats.Square | BeatConsistencyAnalyzer/script.js:170 | `Math.pow(x, 2)`: x times x |
| Stats.SquaredDeviations | BeatConsistencyAnalyzer/script.js:170 | the map of line 170, one squared deviation (x − m)² per interval; SquaredDeviationAt gives entry i |
| Stats.SquaredDeviationAt | BeatConsistencyAnalyzer/script.js:170 | entry i of the squared deviations is (interval i − m)² |
| Stats.Variance | BeatConsistencyAnalyzer/script.js:170 | stdDevMs²: the sum of squared deviations from the mean over the count (population variance); VarianceNonNegative, ConstantStatistics and MeanSquarePercent state what it satisfies |
| Stats.SquaredDeviationsSumNonNegative | BeatConsistencyAnalyzer/script.js:170 | the sum of squared deviations is never negative |
| Stats.VarianceNonNegative | BeatConsistencyAnalyzer/script.js:170 | the population variance, stdDevMs², is never negative, so its square root exists |
| Stats.SquaredDeviationsOfConstant | BeatConsistencyAnalyzer/script.js:170 | deviations of constant values from that constant square and sum to zero |
| Stats.ConstantStatistics | BeatConsistencyAnalyzer/script.js:169-170 | equal intervals have that interval as their mean and a variance of zero |
| Stats.PercentDeviation | BeatConsistencyAnalyzer/script.js:174 | one interval as a percentage deviation from the mean m: (x − m) / m · 100, defined for non-zero m only |
| Stats.PercentDeviations | BeatConsistencyAnalyzer/script.js:174 | the map of line 174, one percentage deviation per interval; PercentDeviationAt gives entry i |
| Stats.PercentDeviationAt | BeatConsistencyAnalyzer/script.js:174 | deviation i is (interval i − mean) / mean · 100 |
| Stats.SumOfPercentDeviations | BeatConsistencyAnalyzer/script.js:174 | the deviations from m sum to (sum − n·m) / m · 100 |
| Stats.BalancedAt | BeatConsistencyAnalyzer/script.js:174 | deviations from m sum to zero when n·m is the sum |
| Stats.PercentDeviationsSumToZero | BeatConsistencyAnalyzer/script.js:169-174 | percentage deviations from the mean sum to zero |
| Stats.Squares | BeatConsistencyAnalyzer/script.js:175 | the map of line 175, one square per deviation; SquareAt gives entry i |
| Stats.SquareAt | BeatConsistencyAnalyzer/script.js:175 | entry i of the squares is deviation i squared |
| Stats.MeanSquare | BeatConsistencyAnalyzer/script.js:175 | stdDevPercent²: the sum of the squared deviations over their count; MeanSquarePercent and RmsIsStandardDeviation state what it satisfies |
| Stats.SpreadsAgree | BeatConsistencyAnalyzer/script.js:170-175 | the relation between the two spreads: mean square percent · m² = 10000 · variance |
| Stats.SumOfSquaredPercentDeviations | BeatConsistencyAnalyzer/script.js:174-175 | the sum of squared percentage deviations is the sum of squared ms deviations times 10000 / m² |
| Stats.SpreadsAgreeAbout | BeatConsistencyAnalyzer/script.js:170-175 | for any non-zero centre m, the mean squared percentage deviation from m times m² is 10000 times the mean squared deviation from m |
| Stats.MeanSquarePercent | BeatConsistencyAnalyzer/script.js:170-175 | stdDevPercent² · mean² = 10000 · stdDevMs² |
| Stats.SquaredDeviationsFromZero | BeatConsistencyAnalyzer/script.js:175 | deviations from zero are the plain squares |
| Stats.RmsIsStandardDeviation | BeatConsistencyAnalyzer/script.js:174-175 | the percentage deviations have mean zero, so their RMS is their population standard deviation |
| Stats.ConstantPercentDeviations | BeatConsistencyAnalyzer/script.js:174-175 | equal non-zero intervals have a non-zero mean, every deviation is 0 %, and stdDevPercent² is 0 |
| Stats.AllZeros | BeatConsistencyAnalyzer/script.js:174 | a sequence whose every entry is 0 is the sequence of that many zeros |
| Stats.MeanSquareOfZeros | BeatConsistencyAnalyzer/script.js:175 | all-zero deviations have a mean square, and so an RMS, of 0 |
| Binning.EdgesEvenlySpaced | BeatConsistencyAnalyzer/script.js:183 | 12 edges, edge k is 2k − 11 |
| Binning.InBin | BeatConsistencyAnalyzer/script.js:188-205 | where the code puts deviation d: the bin b whose range [edge b, edge b+1) holds d, bin 0 below −11, bin 10 at or above 11 |
| Binning.BinOf | BeatConsistencyAnalyzer/script.js:188-205 | the bin of a deviation is the range [edge b, edge b+1) that holds it; below −11 it is bin 0, at or above 11 it is bin 10 |
| Binning.InBinIff | BeatConsistencyAnalyzer/script.js:188-205 | a deviation belongs to exactly one bin |
| Binning.BinExamples | BeatConsistencyAnalyzer/script.js:188-205 | 0 % goes to bin 5, −11 % to bin 0 and 11 % to bin 10 |
| Binning.Count | BeatConsistencyAnalyzer/script.js:187-210 | the number of deviations whose bin is b, counted one deviation at a time |
| Binning.Histogram | BeatConsistencyAnalyzer/script.js:185-210 | 11 counts; count b is how many deviations fall in bin b; HistogramTotal and BuildHistogram state what it satisfies |
| Binning.HistogramAppend | BeatConsistencyAnalyzer/script.js:207-209 | counting one more deviation adds one to its bin and changes no other count |
| Binning.TotalIncrement | BeatConsistencyAnalyzer/script.js:207-209 | incrementing one count raises the total by one |
| Binning.TotalOfZeros | BeatConsistencyAnalyzer/script.js:185 | the zero-filled histogram has total zero |
| Binning.HistogramTotal | BeatConsistencyAnalyzer/script.js:185-210 | no deviation is dropped: the counts sum to the number of deviations |
| Binning.CountOfZeros | BeatConsistencyAnalyzer/script.js:187-210 | all-zero deviations give bin 5 the full count and every other bin nothing |
| Binning.HistogramOfZeros | BeatConsistencyAnalyzer/script.js:187-210 | the histogram of all-zero deviations is [0,0,0,0,0,n,0,0,0,0,0] |
| Binning.FindBin | BeatConsistencyAnalyzer/script.js:188-205 | the scan and clamp find exactly BinOf(dev) and never leave −1 |
| Binning.BuildHistogram | BeatConsistencyAnalyzer/script.js:185-210 | the array counts equal Histogram(devs); there are 11 of them and they sum to the number of deviations |
| Analysis.Analyzable | BeatConsistencyAnalyzer/script.js:169-174 | what the analysis needs: once there are two taps, the mean interval is not zero, since line 174 divides by it |
| Analysis.Analyze | BeatConsistencyAnalyzer/script.js:153-211 | the outcome of the analysis: not enough data below two taps, otherwise the intervals, their mean and variance, the percentage deviations, their mean square and their histogram; ReportProperties states what it satisfies |
| Analysis.LaterTapAnalyzable | BeatConsistencyAnalyzer/script.js:169-174 | if the last tap is later than the first, the mean interval is non-zero and the analysis can divide by it |
| Analysis.ComputeIntervals | BeatConsistencyAnalyzer/script.js:161-165 | the loop produces Intervals(ts): n − 1 entries, each the difference of consecutive taps |
| Analysis.AnalyzeAndShowResults | BeatConsistencyAnalyzer/script.js:153-211 | the interval loop and the histogram loop together produce Analyze(ts): "not enough data" exactly when there are fewer than two taps, otherwise a report of the intervals, mean, variance, deviations, their mean square and the histogram |
| Analysis.ReportProperties | BeatConsistencyAnalyzer/script.js:161-210 | a report for n ≥ 2 taps has n − 1 intervals, a non-zero mean, a variance ≥ 0, deviations summing to zero, stdDevPercent² · mean² = 10000 · stdDevMs², and 11 counts summing to n − 1 |
| Analysis.SteadyHistogram | BeatConsistencyAnalyzer/script.js:174-210 | equal non-zero intervals put every deviation in bin 5 |
| Analysis.SteadyIntervals | BeatConsistencyAnalyzer/script.js:169-210 | equal non-zero intervals: the mean is the interval, the variance is 0, every deviation is 0 %, stdDevPercent² is 0, and all counts are in bin 5 |
| Analysis.SteadyTaps | BeatConsistencyAnalyzer/script.js:153-211 | evenly spaced taps give the whole report: the n − 1 intervals, the spacing as mean, variance 0, all deviations 0 %, stdDevPercent² 0, and all n − 1 counts in bin 5 |
| Analysis.ExampleSteadyTempo | BeatConsistencyAnalyzer/script.js:153-211 | taps 500 ms apart give exactly Report(four intervals of 500, mean 500, variance 0, four 0 % deviations, stdDevPercent² 0, four counts in [−1, 1)) |
| Analysis.ExampleHistogram | BeatConsistencyAnalyzer/script.js:187-210 | deviations −4, 4, 4, −4 give two counts in bin 3 ([−5, −3)) and two in bin 7 ([3, 5)) |
| Analysis.ExampleUnevenTempo | BeatConsistencyAnalyzer/script.js:153-211 | taps at 0, 480, 1000, 1520, 2000: mean 500, variance 400, deviations ±4 %, stdDevPercent² 16 |
| Session.Hit | BeatConsistencyAnalyzer/script.js:249-259 | a tap appends the timestamp; once the count reaches totalHits it stops the metronome, shows the results screen and the analysis of the taps; TapRecordsOne states what it satisfies |
| Session.CanStep | BeatConsistencyAnalyzer/script.js:262-283 | a key press may run unless it is the tap that ends the session and its timestamps leave the mean interval zero |
| Session.Next | BeatConsistencyAnalyzer/script.js:262-283 | the state after one key press: Enter on results returns to start and other keys there change nothing; excluded keys change nothing elsewhere; any other key starts a session from start or records a tap while playing; IgnoredKeys, ScreenCycle and NextPreservesConsistent state what it satisfies |
| Session.Consistent | BeatConsistencyAnalyzer/script.js:134-151 | the session invariant: the metronome runs exactly while playing, a running session has fewer taps than its target, and the results screen shows the analysis of exactly the target number of taps |
| Session.Target | BeatConsistencyAnalyzer/script.js:255 | a session ends at totalHits taps, or after the first tap when totalHits is below 1 |
| Session.InitialConsistent | BeatConsistencyAnalyzer/script.js:22-25 | the page's initial state (start screen, no taps, no metronome) satisfies the session invariant |
| Session.NextPreservesConsistent | BeatConsistencyAnalyzer/script.js:262-283 | every key press keeps the invariant: the metronome runs exactly while playing, a running session has fewer taps than its target, and the results screen shows the analysis of exactly the target number of taps |
| Session.IgnoredKeys | BeatConsistencyAnalyzer/script.js:264-276 | a key press changes nothing exactly when it is a non-Enter key on the results screen, or an excluded key on the other screens |
| Session.ScreenCycle | BeatConsistencyAnalyzer/script.js:262-283 | a key press either keeps the screen or moves it one step: start to playing, playing to results, results to start |
| Session.TapRecordsOne | BeatConsistencyAnalyzer/script.js:249-259 | a tap while playing appends exactly its timestamp; it ends the session exactly when the count reaches totalHits |
| Session.RunOk | BeatConsistencyAnalyzer/script.js:262-283 | a sequence of key presses, each with its time, can be replayed: each step may run |
| Session.Run | BeatConsistencyAnalyzer/script.js:262-283 | the state after a sequence of key presses, applying Next in order |
| Session.RunPreservesConsistent | BeatConsistencyAnalyzer/script.js:262-283 | any replayable run of key presses keeps the invariant |
| Session.ResultsAbsorb | BeatConsistencyAnalyzer/script.js:264-269 | no sequence of keys without Enter leaves the results screen or changes anything |
| Session.PlayToResults | BeatConsistencyAnalyzer/script.js:249-259 | a running session given its remaining taps ends on the results screen, holding the earlier taps followed by the new ones, with their analysis shown; equal timestamps are allowed as long as the analysis is possible |
| Session.FullSession | BeatConsistencyAnalyzer/script.js:262-283 | from the start screen, one key starts the session, and target-many taps whose analysis is possible end it, holding exactly those timestamps and their analysis |
| Session.SessionEndingLater | BeatConsistencyAnalyzer/script.js:262-283 | a whole session whose last tap is later than its first ends on the results screen with exactly its taps analysed |
| Session.Game.constructor | BeatConsistencyAnalyzer/script.js:22-25 | the game starts on the start screen with no taps, no metronome and no summary |
| Session.Game.SwitchScreen | BeatConsistencyAnalyzer/script.js:93-116 | sets the screen; switching to playing clears the taps and starts the metronome |
| Session.Game.StartGame | BeatConsistencyAnalyzer/script.js:134-144 | the taps are cleared and the metronome is running |
| Session.Game.StopGame | BeatConsistencyAnalyzer/script.js:146-151 | the metronome is stopped, the results screen is shown, and the summary holds the analysis of the taps |
| Session.Game.RecordHit | BeatConsistencyAnalyzer/script.js:249-259 | the new state is Hit of the old one, and the session invariant holds |
| Session.Game.KeyDown | BeatConsistencyAnalyzer/script.js:262-283 | the new state is Next of the old one for this key and time, and the session invariant holds |

## Left out

- The DOM, the debug log and the "copy log" button (lines 31–68) are left out. So are the screen display styles and the text of the tap counter.
- The audio metronome (`playBeep`, the `setInterval` period from the BPM, lines 119–144) is reduced to a flag, `metronomeRunning`. The BPM slider (lines 73–77) only sets that period, so it is left out.
- The hit-count buttons (lines 80–90) are left out. `totalHits` is fixed for the lifetime of a `Game`. In the code, changing it during a session takes effect for that running session.
- The chart drawing with Chart.js (lines 213–246) and the bin labels (line 184) are display only.
- Session.Game.KeyDown requires the analysis to be possible, because the code never guards a zero mean interval. If the key press is the tap that ends the session, its timestamps must have a non-zero mean interval. `Analysis.LaterTapAnalyzable` shows that a last tap later than the first is enough.
- Session.Game.RecordHit carries the same requirement.
- Analysis.AnalyzeAndShowResults requires a non-zero mean interval. The code divides by the mean without checking it. With floating point, that gives NaN or infinite deviations: deviations that are NaN fall in no bin (the `binIndex !== -1` test skips them), and infinite ones are clamped into an end bin. The model does not follow that path.
- Square roots, rounding to two decimals (`toFixed`), and IEEE floating point (NaN, infinities, rounding) are not modelled. Arithmetic is exact over reals, and the standard deviations are stated through their squares.
- The summary text and the histogram are held as the `Outcome` value they are built from, not as strings.

