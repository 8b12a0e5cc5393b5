# Lottery draw analysis: a verified model

This project models the analysis engine of a Mega-Sena statistics app in Dafny.
A draw is six numbers from 1 to 60. The engine has three parts:

- The analysers in `analysisUtils.jsx` read a history of stored draws. They count
  how often each number was drawn and list the hot and cold numbers. They
  tabulate even/odd and low/high splits, consecutive pairs, draw sums and
  decades. They also compute each number's gaps between sightings, with its
  overdue flag.
- Three generators suggest combinations: frequency-weighted Monte Carlo sampling,
  rejection sampling against balance constraints, and overdue-first selection.
- The CSV importer in `DataImport.jsx` turns pasted text into draw records.
  `parseCSVData` does the parsing and `formatDate` normalises dates.

Modules follow the source. `Frequency`, `Distribution`, `Gaps`, `MonteCarlo`,
`Balanced` with `Picking`, `Overdue` and `Summary` cover `analysisUtils.jsx`, one
module per analyser or generator. `Text` and `Csv` cover the importer. `Draws`,
`Counting`, `Seqs`, `Sorting` and `Wrappers` hold the shared record, counting,
slicing and stable-sorting definitions.

## How the source is modelled

- **Loops become methods.** Every loop that updates variables is a Dafny
  `method` with a `while` or `for` loop. This covers the 60 counters of
  `calculateNumberFrequency`, the per-key tallies and the gap walk. It also
  covers the weighted scan, the simulation loop, the attempt loop, the
  padding loop and the line loop of the importer.
- **Each method is proved against a specification function.** For example,
  `CalculateGapAnalysis` yields `GapStats`, `MonteCarloGeneration` yields
  `MonteCarloResults` and `ParseCsvData` yields `Records`. Lemmas then state
  what those functions promise.
- **Randomness is a parameter.** Every `Math.random()` call reads the next value
  of a stream `us: seq<real>` of values in [0, 1). A generator that draws
  several combinations gets one stream per attempt or simulation.
- **A missing or non-array `numbers` field is `None`.** Every analyser skips
  such a record.
- **Exact values replace JavaScript floats.** A JavaScript float average or
  quotient is kept as the exact `Ratio(num, den)` or `real` it approximates.
  The key strings `3E/3O` and `3L/3H` are kept as integer pairs. The `01-10` …
  `51-60` decade keys are indexes 0..5, and a sum bucket `150-179` is its start,
  150.
- **Sorts are stable.** `Array.prototype.sort` is stable, so each sort is a
  stable insertion sort. Its order is proved as a lexicographic order with the
  original position as tie-break.

## Behaviour of the code worth noting

- **Seven-field CSV rows.** The comment at `DataImport.jsx:31` names the
  long format "draw number, date, six numbers". A row of seven or more fields
  takes its numbers from `parts.slice(2, 8)` (`DataImport.jsx:34`). So a row
  of exactly seven fields yields at most five numbers and is always dropped
  (`Csv.LongRow`). It is never tried as a six-number row.
- **Numbers outside 1..60 in a stored draw.** The analysers do not check for
  them. In the gap walk (`analysisUtils.jsx:93-98`), such a number reads
  `gaps[num]` as `undefined`, and the push throws a TypeError.
  `Gaps.CalculateGapAnalysis` and `Summary.GetStatisticsSummary` return `None`
  exactly then.
- **More than five consecutive pairs.** This is possible only for a draw
  holding more than six numbers. `analyzeConsecutivePatterns` then increments
  a key it never set (`analysisUtils.jsx:141`), which stores `NaN`
  (`Distribution.JsCount.NaN`).
- **The sum analysis with no usable draw.** The early return at
  `analysisUtils.jsx:156` has no `sums` field, while the full result at line
  172 has one. The model keeps this difference as `None` in
  `Distribution.SumAnalysis`.
- **Six entries per usable draw.** The frequency counter counts every in-range
  entry (`analysisUtils.jsx:12-20`). The counts add up to six per usable draw
  only when every usable draw holds six numbers in 1..60, and
  `Frequency.FrequencyTotal` proves the total under exactly that condition.

## Model

| member | source | states |
|---|---|---|
| Frequency.CalculateNumberFrequency | src/components/analysis/analysisUtils.jsx:6-23 | the table has exactly the keys 1..60, and each counts that number's occurrences among the entries of the usable draws |
| Frequency.FrequencyTotal | src/components/analysis/analysisUtils.jsx:12-20 | the counts add up to the number of in-range entries, which is 6 per usable draw when every usable draw holds six numbers in 1..60 |
| Frequency.MoreFrequentIsStrictWeakOrder | src/components/analysis/analysisUtils.jsx:31 | the comparator `b.frequency - a.frequency` is a strict weak order, so the stable sort is well defined |
| Frequency.RankingIsStableDescending | src/components/analysis/analysisUtils.jsx:29-31 | the ranking lists every number 1..60 exactly once with its frequency, most frequent first, with ties in ascending number order (stability) |
| Frequency.HotColdSizes | src/components/analysis/analysisUtils.jsx:33-36 | for a positive count, hot and cold each hold min(count, 60) entries; for count 0, `slice(-0)` makes every number cold and none hot |
| Frequency.HotIsHead | src/components/analysis/analysisUtils.jsx:34 | the hot list is the first min(count, 60) entries of the ranking |
| Frequency.HotAreMostFrequent | src/components/analysis/analysisUtils.jsx:34 | hot frequencies never increase, and no number left out is more frequent than a hot one |
| Frequency.ColdIsReversedTail | src/components/analysis/analysisUtils.jsx:35 | the cold list is the last min(count, 60) ranked entries, read backwards |
| Frequency.ColdAreLeastFrequent | src/components/analysis/analysisUtils.jsx:35 | cold frequencies never decrease, and no number left out is less frequent than a cold one |
| Distribution.AnalyzeEvenOddDistribution | src/components/analysis/analysisUtils.jsx:42-55 | the keys are exactly the even/odd splits met, each split adds up to 6, each key counts the usable draws with that split, and the counts add up to the number of usable draws |
| Distribution.AnalyzeLowHighDistribution | src/components/analysis/analysisUtils.jsx:60-73 | the same for the low (<= 30) / high split |
| Distribution.SplitTally | src/components/analysis/analysisUtils.jsx:45-52 | the tally of the keys holds exactly the keys met, each with its count, and the counts add up to the number of usable draws |
| Distribution.CountConsecutivePairs | src/components/analysis/analysisUtils.jsx:134-140 | the inner loop counts the adjacent pairs that differ by exactly 1, fewer than the length of a non-empty draw |
| Distribution.AnalyzeConsecutivePatterns | src/components/analysis/analysisUtils.jsx:128-146 | keys 0..5 are always present and count the draws with that many consecutive pairs after sorting; any larger pair count leaves NaN under its key |
| Distribution.ConsecutiveBucketsTotal | src/components/analysis/analysisUtils.jsx:129-143 | with at most six numbers per draw, every draw lands in a bucket 0..5, and the buckets add up to the number of usable draws |
| Distribution.BinStartIsBin | src/components/analysis/analysisUtils.jsx:167-168 | `Math.floor(sum / size) * size` is the start of the bin whose label `${start}-${start + size - 1}` contains the sum |
| Distribution.SumHistogram | src/components/analysis/analysisUtils.jsx:163-170 | each key is a multiple of the bin size that some sum falls in, each counts the sums in its bin, and the counts add up to the number of sums |
| Distribution.AnalyzeSumDistribution | src/components/analysis/analysisUtils.jsx:151-173 | with no usable draw, zeros and an empty histogram; otherwise min and max are attained sums bounding all sums, avg is their exact mean, and the histogram has bins of 30 that count every sum |
| Distribution.AnalyzeDecadeDistribution | src/components/analysis/analysisUtils.jsx:178-205 | the six buckets count the entries by decade (below 1 counts as 01-10 and above 60 as 51-60, since nothing is range-checked), total counts every entry, and the buckets add up to total |
| Gaps.WalkDraws | src/components/analysis/analysisUtils.jsx:82-100 | the walk throws exactly when a usable draw holds a number outside 1..60; otherwise every number's gaps and last sighting are those of its positions in the walk |
| Gaps.VisitEntry | src/components/analysis/analysisUtils.jsx:93-98 | one entry throws exactly when it is outside 1..60; otherwise it records its gap when its number was seen before and becomes the last sighting |
| Gaps.RecordSighting | src/components/analysis/analysisUtils.jsx:94-97 | after a sighting at index i, the last sighting is i, and a gap of i minus the previous sighting is added exactly when the number had been seen before |
| Gaps.CalculateGapAnalysis | src/components/analysis/analysisUtils.jsx:78-123 | None exactly when a usable draw holds a number outside 1..60; otherwise the table of per-number statistics |
| Gaps.StatTable | src/components/analysis/analysisUtils.jsx:106-120 | the last loop gives every number 1..60 exactly one entry, built from its recorded gaps and last sighting |
| Gaps.GapStatAt | src/components/analysis/analysisUtils.jsx:106-120 | a number's entry is the statistics of its sighting positions, which ascend, lie below the number of draws, and number one per occurrence |
| Gaps.GapsShape | src/components/analysis/analysisUtils.jsx:94-96 | there is one gap per sighting after the first, each the distance to the previous sighting |
| Gaps.GapsTelescope | src/components/analysis/analysisUtils.jsx:109 | the gaps add up to the distance from the first sighting to the last |
| Gaps.CurrentGapBounds | src/components/analysis/analysisUtils.jsx:111 | the current gap is between 0 and the number of draws, equals it exactly when the number was never drawn, and otherwise counts the draws after the last sighting |
| Gaps.NeverRepeated | src/components/analysis/analysisUtils.jsx:108-118 | a number drawn at most once averages and maxes at the number of draws, has a minimum of 0 and is never overdue |
| Gaps.RepeatedStats | src/components/analysis/analysisUtils.jsx:108-117 | a number drawn k >= 2 times averages (last - first) / (k - 1), with 0 <= min <= max <= last - first < number of draws |
| Gaps.StatOfRepeated | src/components/analysis/analysisUtils.jsx:108-117 | for ascending positions, min * (k - 1) <= span <= max * (k - 1), so the minimum gap <= the average <= the maximum gap |
| Gaps.OverdueMeaning | src/components/analysis/analysisUtils.jsx:118 | overdue holds exactly when the number was drawn at least twice and (draws since its last sighting) * (k - 1) exceeds its span from first to last sighting |
| Gaps.GapExample | src/components/analysis/analysisUtils.jsx:78-123 | a number drawn in draws 0 and 2 of 3 has average 2, current gap 0, min = max = 2, and is not overdue |
| Gaps.GapStatsWellFormed | src/components/analysis/analysisUtils.jsx:113-119 | every average is a true quotient, every current gap is non-negative, and the overdue flag is current gap > average |
| MonteCarlo.Weights | src/components/analysis/analysisUtils.jsx:211-216 | the weights of 1..60 are non-negative |
| MonteCarlo.WeightsPositive | src/components/analysis/analysisUtils.jsx:215 | a weight is positive exactly when its number has been drawn |
| MonteCarlo.ScanEntries | src/components/analysis/analysisUtils.jsx:249-256 | the entry scan stops at the first key where the running remainder drops to 0 or below |
| MonteCarlo.PickIsCumulative | src/components/analysis/analysisUtils.jsx:246-256 | the key chosen is the first whose running weight total reaches the random value (sampling by the cumulative distribution) |
| MonteCarlo.PickHasWeight | src/components/analysis/analysisUtils.jsx:247-252 | a positive random value never lands on a key of weight 0 |
| MonteCarlo.SelectOne | src/components/analysis/analysisUtils.jsx:246-256 | one round totals the remaining weights, scales the random value to that total and scans |
| MonteCarlo.SelectLoop | src/components/analysis/analysisUtils.jsx:245-257 | the selection loop takes one scanned key per round and deletes it from the available keys |
| MonteCarlo.WeightedRandomSelection | src/components/analysis/analysisUtils.jsx:241-260 | the selection is the successive scans over keys 1..60 in key order, one random value each |
| MonteCarlo.ChooseFacts | src/components/analysis/analysisUtils.jsx:250-253 | deleting each chosen key yields distinct keys, one per pick |
| MonteCarlo.PicksInDomain | src/components/analysis/analysisUtils.jsx:222 | six weighted picks are six distinct numbers of 1..60 |
| MonteCarlo.KeyFacts | src/components/analysis/analysisUtils.jsx:222-223 | a sorted simulation key is six distinct numbers of 1..60, strictly ascending |
| MonteCarlo.CalculateCombinationScore | src/components/analysis/analysisUtils.jsx:265-274 | the score is Confidence of the combination's frequency sum and the total frequency |
| MonteCarlo.ScoreScale | src/components/analysis/analysisUtils.jsx:266-273 | (score / 6) * 100 with score = S / (T / 60) is 1000 * S / T |
| MonteCarlo.RoundIsQuotient | src/components/analysis/analysisUtils.jsx:273 | `Math.round` of 1000 * S / T is the integer quotient (2000 * S + T) / (2 * T) |
| MonteCarlo.ConfidenceMeaning | src/components/analysis/analysisUtils.jsx:273 | the confidence is between 0 and 100; below 100 it is the nearest integer to 1000 * S / T with halves rounded up, and it is 100 exactly when that value rounds to 100 or more |
| MonteCarlo.ScoreBounds | src/components/analysis/analysisUtils.jsx:273 | a score is a percentage |
| MonteCarlo.BuildWeights | src/components/analysis/analysisUtils.jsx:214-216 | the weight loop builds `frequency[i] / totalFreq` for i in 1..60 |
| MonteCarlo.CollectSnoc | src/components/analysis/analysisUtils.jsx:221-233 | one more simulation appends its key with tag and score exactly when fewer than numCombinations are kept and the key is new |
| MonteCarlo.CollectSaturates | src/components/analysis/analysisUtils.jsx:221 | once numCombinations results exist, later simulations change nothing |
| MonteCarlo.CollectKept | src/components/analysis/analysisUtils.jsx:221-233 | the results come from the simulated keys, are at most one per simulation and at most the limit, and each is tagged 'Monte Carlo' with its score |
| MonteCarlo.CollectDistinct | src/components/analysis/analysisUtils.jsx:225-226 | no key is kept twice |
| MonteCarlo.CollectComplete | src/components/analysis/analysisUtils.jsx:221-233 | when fewer results than requested come back, every simulated key is among them |
| MonteCarlo.RunSimulations | src/components/analysis/analysisUtils.jsx:221-233 | the simulation loop, with its early exit, keeps exactly the collected results |
| MonteCarlo.ResultsAreCollected | src/components/analysis/analysisUtils.jsx:235 | the final `slice(0, numCombinations)` removes nothing |
| MonteCarlo.MonteCarloFacts | src/components/analysis/analysisUtils.jsx:210-236 | the results are pairwise different sorted keys of six distinct numbers in 1..60, each drawn by a simulation, at most numCombinations of them, every one a percentage confidence |
| MonteCarlo.MonteCarloGeneration | src/components/analysis/analysisUtils.jsx:210-236 | the generator returns the results of weighting, simulating and deduplicating, simulation s reading stream s |
| Picking.BuildAvailable | src/components/analysis/analysisUtils.jsx:330-335 | `available` is 1..60 without the excluded numbers, ascending |
| Picking.TakePreferred | src/components/analysis/analysisUtils.jsx:340-345 | the preferred pass is the fold of PreferStep over prefer |
| Picking.AfterPreferPicks | src/components/analysis/analysisUtils.jsx:340-345 | after the preferred pass the combination holds the first six available preferred numbers in prefer order, and combination and `available` split the pool without repeats |
| Picking.FirstOccurrencesMeaning | src/components/analysis/analysisUtils.jsx:341 | the preferred numbers taken are distinct, each both preferred and available |
| Picking.FillCombination | src/components/analysis/analysisUtils.jsx:348-352 | the fill loop moves the number at `Math.floor(random * available.length)` into the combination until it holds six |
| Picking.FillPicks | src/components/analysis/analysisUtils.jsx:348-352 | the fill ends with six distinct numbers from the pool and only appends |
| Picking.GenerateRandomCombination | src/components/analysis/analysisUtils.jsx:329-355 | the method computes RandomCombination |
| Picking.RandomCombinationFacts | src/components/analysis/analysisUtils.jsx:329-355 | six distinct numbers of 1..60, none excluded, starting with the first six available preferred numbers |
| Balanced.SortKeepsCounts | src/components/analysis/analysisUtils.jsx:296-308 | sorting keeps the even count, the low count and the sum checked on the unsorted combination |
| Balanced.BalancedFromCases | src/components/analysis/analysisUtils.jsx:291-323 | over the combinations the attempts draw, from attempt a on, the loop returns the first accepted one, or rejects all of them and falls back on the last |
| Balanced.BalancedOutcome | src/components/analysis/analysisUtils.jsx:291-323 | the result is the first attempt that passes the three checks, sorted and tagged, or, when all 10000 fail, the sorted fallback combination |
| Balanced.BalancedWhenAccepted | src/components/analysis/analysisUtils.jsx:291-315 | tagged 'Balanced Constraints' exactly when some attempt passes; then it is the first such attempt, sorted, meeting the even count, low count and sum range, with the sum recorded |
| Balanced.BalancedWhenRejected | src/components/analysis/analysisUtils.jsx:318-323 | tagged 'Random (constraints too strict)' with null constraints exactly when all 10000 attempts fail; then the numbers are the sorted extra combination |
| Balanced.BalancedNumbers | src/components/analysis/analysisUtils.jsx:279-324 | either way, six distinct numbers of 1..60, strictly ascending, none excluded |
| Balanced.GenerateBalancedCombination | src/components/analysis/analysisUtils.jsx:279-324 | the attempt loop computes BalancedCombination, attempt a reading stream a |
| Overdue.MoreOverdueIsStrictWeakOrder | src/components/analysis/analysisUtils.jsx:363 | the ratio comparator, with Infinity - Infinity = NaN treated as a tie, is a strict weak order |
| Overdue.RankingFacts | src/components/analysis/analysisUtils.jsx:361-367 | the ranking holds every overdue number of 1..60 once with its entry; ratios never increase, and equal ratios keep ascending number order |
| Overdue.SelectionFacts | src/components/analysis/analysisUtils.jsx:369 | the selection is a head of the ranking, with min(count, #overdue) entries for count >= 0, holding distinct overdue numbers of 1..60 |
| Overdue.PadFacts | src/components/analysis/analysisUtils.jsx:372-377 | padding extends the selection to count entries; each added number is in 1..60, not selected before, with ratio 0, and no number repeats |
| Overdue.PadSelection | src/components/analysis/analysisUtils.jsx:372-377 | the padding loop computes Pad |
| Overdue.PaddedFacts | src/components/analysis/analysisUtils.jsx:369-377 | the padded selection has count distinct numbers of 1..60, starts with the selection, and every added entry is a non-overdue number with ratio 0 |
| Overdue.OverdueNumbers | src/components/analysis/analysisUtils.jsx:379-380 | for 0 <= count <= 60, the result has count distinct numbers of 1..60, strictly ascending, which are exactly the numbers of its details |
| Overdue.OverdueDetails | src/components/analysis/analysisUtils.jsx:369-385 | the count details begin with the min(count, #overdue) best ranked entries and their ratios, and then hold non-overdue numbers with ratio 0 |
| Overdue.OverdueAreTop | src/components/analysis/analysisUtils.jsx:361-369 | no overdue number left out has a larger current/average ratio than one taken |
| Overdue.GapStatsAreConsistent | src/components/analysis/analysisUtils.jsx:106-120 | the table the gap analysis builds is one this generator accepts |
| Overdue.GenerateOverdueCombination | src/components/analysis/analysisUtils.jsx:360-387 | the generator computes OverdueCombination |
| Summary.WalkMeetsOutOfRange | src/components/analysis/analysisUtils.jsx:91-100 | the gap walk meets a number outside 1..60 exactly when some usable draw holds one |
| Summary.OutOfRangeIgnoresOrder | src/components/analysis/analysisUtils.jsx:87-100 | sorting the draws by date does not change whether the walk throws |
| Summary.GetStatisticsSummary | src/components/analysis/analysisUtils.jsx:424-445 | throws (None) exactly when a usable draw holds a number outside 1..60; otherwise every field is its analyser's result on the same draws, with the gap table over the date-ordered draws |
| Text.TrimIdempotent | src/components/data/DataImport.jsx:18 | trimming twice is trimming once |
| Text.JoinSplit | src/components/data/DataImport.jsx:18 | joining the pieces of `split('\n')` with line feeds gives the text back |
| Text.FieldsOfJoin | src/components/data/DataImport.jsx:28 | splitting on `/[,;\t]+/` a line of non-empty separator-free fields joined by commas gives back the fields |
| Text.ParseIntDecimal | src/components/data/DataImport.jsx:32 | `parseInt` reads back what `String(n)` writes, after any leading white space |
| Text.NoWordInDigits | src/components/data/DataImport.jsx:23 | a lower-cased line of digits, dashes and commas contains neither 'concurso' nor 'data' |
| Csv.FirstMatch | src/components/data/DataImport.jsx:69 | `match` finds the leftmost position where the pattern matches, or reports that there is none |
| Csv.IsoDateKept | src/components/data/DataImport.jsx:64-77 | a YYYY-MM-DD date is returned as it is |
| Csv.DayFirstRewritten | src/components/data/DataImport.jsx:63-73 | a DD/MM/YYYY or DD-MM-YYYY date becomes YYYY-MM-DD with the same day, month and year |
| Csv.FormatDateSource | src/components/data/DataImport.jsx:60-82 | with no pattern anywhere the date is today; otherwise it is the input itself or a rewritten day-first match |
| Csv.FormatDateIdempotent | src/components/data/DataImport.jsx:60-82 | with an ISO today, the result always holds a YYYY-MM-DD date, and normalising twice is normalising once |
| Csv.LongRow | src/components/data/DataImport.jsx:30-42 | a row of >= 8 fields gives a draw exactly when its first field parses and six of fields 2..7 are in 1..60, with that number, the normalised date and the numbers sorted; a row of exactly 7 fields never gives one |
| Csv.SixFieldRow | src/components/data/DataImport.jsx:43-54 | a row of 6 fields gives a draw exactly when all six are in 1..60; its draw number is the 1-based line position, counting skipped lines, and its date is today |
| Csv.SkippedLine | src/components/data/DataImport.jsx:22-25 | empty lines, header lines and lines of fewer than six fields give no draw |
| Csv.LineDrawShape | src/components/data/DataImport.jsx:34-51 | every draw a line gives holds six numbers in 1..60, ascending, that rearrange the line's in-range entries |
| Csv.ParseCsvData | src/components/data/DataImport.jsx:17-58 | the line loop pushes each line's draw in order |
| Csv.RecordsFromOrigins | src/components/data/DataImport.jsx:21-57 | each imported draw is what its line gives, the lines ascend, and every other line gives nothing |
| Csv.RecordsShape | src/components/data/DataImport.jsx:17-58 | every imported draw holds six numbers in 1..60 in ascending order |
| Csv.LineRoundTrip | src/components/data/DataImport.jsx:22-42 | a draw written as `number,date,n1,...,n6` is read back as itself, whatever its line position |
| Csv.ImportExport | src/components/data/DataImport.jsx:17-58 | importing the text of exported draws gives them back, in order |

## Left out

- User interface and storage: React components, charts, file reading and the batched `bulkCreate` upload are not modelled. Neither is the rest of `DataImport.jsx` beyond `parseCSVData` and `formatDate`.
- `calculateEntropy` and `calculateVariance` are not modelled. They work in floating point (`Math.log2`, `Math.pow`), and the summary and generators do not call them.
- Floating point: averages, gap ratios, weights and scores are exact rationals or reals. Float rounding is not modelled, including a weighted scan that could fail to stop on a float remainder just above 0.
- The `toFixed(2)` string in the overdue details is kept as the exact ratio it prints.
- Clock: `new Date().toISOString().split('T')[0]` is the `today` parameter of the importer.
- Date sorting: the gap analysis sorts the draws by `new Date(draw_date)`. Date parsing is not modelled. `Summary.GetStatisticsSummary` takes the date order as a rearrangement `byDate` of the draws, and `Gaps.CalculateGapAnalysis` models the walk over draws already in that order.
- Randomness: each `Math.random()` call is the next value of a stream of reals in [0, 1) passed as a parameter. The distribution of the results is not modelled, only what each stream yields.
- Gaps.CalculateGapAnalysis: the thrown TypeError for a number outside 1..60 is `None`; no message is modelled.
- MonteCarlo.MonteCarloGeneration: requires a positive total frequency. With no number of 1..60 ever drawn, every weight is `0 / 0 = NaN`, and the selection loop never ends.
- MonteCarlo.MonteCarloGeneration: the deduplication key is the sorted combination itself, not its `join(',')` string. For numbers of 1..60 the two decide the same.
- MonteCarlo.WeightedRandomSelection: requires count <= 60. For a larger count the source loop never ends.
- Balanced.GenerateBalancedCombination: requires at least six available numbers. With fewer, the source pushes `undefined` into the combination.
- Picking.GenerateRandomCombination: requires at least six available numbers. With fewer, `available` runs empty, `Math.floor(Math.random() * 0)` is 0, and the source pushes `available[0]`, which is `undefined`, until the combination holds six entries.
- Picking.RandomCombinationFacts: states its facts under the same requirement of at least six available numbers, for the same reason.
- Overdue.GenerateOverdueCombination: requires the random stream to draw every number of 1..60 (`Covers`). The source loop ends with probability 1 but has no bound, and a finite stream needs this.
- Overdue.GenerateOverdueCombination: requires a gap table with the keys 1..60 and each entry built as the gap analysis builds it (`StatsTable`). `Overdue.GapStatsAreConsistent` shows every gap-analysis result qualifies. Other objects are not modelled.
- Overdue.GenerateOverdueCombination: requires count <= 60. For a larger count the padding loop never ends.
- Overdue.OverdueNumbers: states the result only for 0 <= count <= 60. A negative count is modelled by the function through `slice` but has no lemma.
- Frequency.HotColdSizes: states the sizes only for count >= 0. A negative count is modelled by `Frequency.GetHotColdNumbers` through `slice` but has no lemma. The same holds for `Frequency.ColdIsReversedTail` and `Frequency.ColdAreLeastFrequent`, which need count >= 1.
- Text.ParseIntDecimal: integers are unbounded. `parseInt` loses precision beyond 2^53, which is not modelled.
- Text.NoWordInDigits: `toLowerCase` is modelled on A..Z only. Other characters are kept as they are, with no Unicode case mapping.
- Draw entries are integers. Non-integer or non-numeric entries of a stored `numbers` array are not modelled.
