# Numera core, modelled in Dafny

Numera is a small C++ statistics library. This project models its core and proves properties of the model:

- **Sampling engine.** Simple random, systematic and stratified sampling come in three versions:
  - the template engine `nr::ProbabilitySampling`;
  - its `double`-only copy `nr::Sampling`;
  - the older `nr::Sampling` of the legacy `numera` tree, which takes the stride and a per-stratum count directly.

  Quota, haphazard and convenience sampling come from `nr::NonProbabilitySampling`.
- **Selection statistics** of `BasicStats.h`: min, max (also over a map of vectors), median, the quartiles, mode, modes and `Scope`.
- **Containers** whose methods change their fields in place:
  - `CSVDataStore`, an ordered map from a key to a vector of values;
  - `CSVTable`, a header-and-rows table of string cells;
  - `NumericSample` and `VectorData`, two wrappers of a vector;
  - the modern and the legacy `Numera` classes;
  - the CSV reader of `CsvDataLoader.cpp`, which splits lines and builds one column per header.

**Randomness.** The random generator is not modelled. The verifier must accept every possible outcome of each random step:

- which positions `std::sample` keeps: any selection of the right size, in order;
- how `std::shuffle` permutes: any permutation;
- where a systematic walk starts: any start in the range the source draws from.

**Unordered maps and sorting.** Iterating an `unordered_map` visits the keys in an order the model leaves open. Ties in `std::sort` also fall in any order. Every property below holds for all of these choices.

**Modules.** One module per source file, plus shared vocabulary:

| module | contents |
|---|---|
| `Seqs` | masks, sortedness, the sorted copy, `Take`, `Erase` |
| `Algorithms` | `std::sample`, `std::shuffle`, `std::sort` |
| `Strata` | the grouping by label and the per-group draw that all the stratified samplers share |
| `Apportionment` | the largest-remainder quotas, computed exactly in integers |
| `SizeT` | 2^64 wrap-around of `size_t` and the `max_size()` of a vector of `double`s |

**Representation.**
- `double` values are `real`s.
- A `size_t` is a `nat`. Where a `size_t` sum or product can pass `SIZE_MAX`, the model wraps it modulo 2^64 (`SizeT.Wrap`, `SizeT.AddWrap`): the counter of the legacy systematic walk and the legacy stratified `reserve`.
- `reserve` beyond `max_size()` throws `std::length_error`; the model returns `Failure(LengthError)` there. For a vector of `double`s, `max_size()` is libstdc++'s `PTRDIFF_MAX / 8` (`SizeT.DoubleVectorMax`). For a vector of a template type it depends on the type, so it is a parameter `maxSize`.
- No vector of `double`s is longer than `SizeT.DoubleVectorMax`, and a `size_t` step is at most `SIZE_MAX`: the legacy systematic samplers require both of their arguments.
- An exception is the `Failure` of a `Result`, or a returned error value.

## Model

| member | source | states |
|---|---|---|
| Algorithms.Sample | Numera/stats/ProbabilitySampling.h:187-198 | `std::sample` keeps exactly `min(k, n)` positions, each at most once, in their original order |
| Algorithms.Shuffle | Numera/stats/ProbabilitySampling.h:203 | the shuffled array is a permutation of the old contents |
| Algorithms.SortByKey | Numera/stats/ProbabilitySampling.h:170-172 | the in-place sort leaves the array non-decreasing by the key and a permutation of what it held |
| Algorithms.SortReals | Numera/stats/BasicStats.h:375-399 | sorting a copy of the data leaves exactly its ascending sorted copy |
| Strata.GroupByLabel | Numera/stats/ProbabilitySampling.h:125-129 | the grouping loop gives a key for each label that occurs, bound to the ascending list of positions that carry it |
| Strata.IterationOrder | Numera/stats/ProbabilitySampling.h:136-159 | visiting the groups map lists every label exactly once, with its own positions |
| Strata.Group | numera/sampling/sampling.cpp:97-101 | the grouping of the stratified samplers is an enumeration of the label groups |
| Strata.IndicesOfComplete | Numera/stats/ProbabilitySampling.h:125-129 | every position carrying a label is in that label's group |
| Strata.GroupNonEmpty | Numera/stats/ProbabilitySampling.h:125-129 | every group is non-empty and lists only positions that carry its label |
| Strata.GroupSizesSum | Numera/stats/ProbabilitySampling.h:125-129 | the groups partition the positions: their sizes add up to the data size |
| Strata.DrawFromStrata | Numera/stats/ProbabilitySampling.h:186-200 | each group gives `min(quota, size)` of its own positions; the output is the data at those positions, group after group |
| Strata.ChosenSize | Numera/stats/ProbabilitySampling.h:186-200 | the draw yields the sum of the capped quotas |
| Strata.ChosenLabels | Numera/stats/ProbabilitySampling.h:186-200 | every drawn position is a data position carrying the label of one of the groups |
| Strata.ChosenDistinct | Numera/stats/ProbabilitySampling.h:186-200 | no position is drawn twice |
| Apportionment.Base | Numera/stats/ProbabilitySampling.h:139-148 | a non-empty stratum gets a base quota of at least 1, an empty one gets 0 |
| Apportionment.BaseBounds | Numera/stats/ProbabilitySampling.h:139-148 | the base quota is `floor(s * t / n)`: at most `s * t / n` and less than one unit below it, unless it was raised from 0 to 1 |
| Apportionment.Num | Numera/stats/ProbabilitySampling.h:150-151 | the scaled fractional remainder is below one whole unit, and negative only when the base was raised to 1 |
| Apportionment.StratumTarget | Numera/stats/ProbabilitySampling.h:139-151 | the per-stratum arithmetic computes exactly the base quota and the scaled remainder of the exact-integer model |
| Apportionment.BaseQuotas | Numera/stats/ProbabilitySampling.h:136-159 | the loop stores every stratum's base quota, records its remainder and sums the bases |
| Apportionment.LeftoverBound | Numera/stats/ProbabilitySampling.h:162-179 | the leftover `max(0, t - sum of bases)` is smaller than the number of strata, so `fractional_targets[i]` stays in bounds |
| Apportionment.LargestRemainders | Numera/stats/ProbabilitySampling.h:170-179 | after the descending sort, the strata bumped by one have remainders at least those of every stratum not bumped |
| Apportionment.HandOut | Numera/stats/ProbabilitySampling.h:175-179 | the bump loop adds one to exactly `leftover` distinct strata and leaves the others at their base |
| Apportionment.Apportion | Numera/stats/ProbabilitySampling.h:136-179 | every stratum gets its base plus one when bumped; as many are bumped as the leftover; the bumped ones have the largest remainders |
| Apportionment.QuotaTotal | Numera/stats/ProbabilitySampling.h:136-179 | before the cap, the quotas add up to `max(t, sum of bases)` |
| Apportionment.BaseWhole | Numera/stats/ProbabilitySampling.h:139-148 | asking for the whole population gives each stratum its own size as base |
| Apportionment.QuotaFits | Numera/stats/ProbabilitySampling.h:187-191 | when every stratum's share reaches one element and `t <= n`, no quota exceeds its stratum |
| Apportionment.ExactSize | Numera/stats/ProbabilitySampling.h:136-200 | under the same condition the capped quotas add up to exactly `t` |
| ProbabilitySampling.StridedLength | Numera/stats/ProbabilitySampling.h:105-107 | a walk from `start` with stride `s` visits `ceil((n - start) / s)` positions |
| ProbabilitySampling.StridedAt | Numera/stats/ProbabilitySampling.h:105-107 | element `j` of a walk is the population's element `start + j * s` |
| ProbabilitySampling.StridedSorted | Numera/stats/ProbabilitySampling.h:239-259 | a walk over a sorted population is sorted |
| ProbabilitySampling.SimpleRandom | Numera/stats/ProbabilitySampling.h:55-77 | empty for a zero size or empty data; otherwise a permutation of `min(size, n)` elements drawn at distinct positions |
| ProbabilitySampling.ShuffledDraw | Numera/stats/ProbabilitySampling.h:61-76 | a simple random sample has the drawn size and takes no element more often than the data holds it |
| ProbabilitySampling.SystematicWalk | Numera/stats/ProbabilitySampling.h:87-107 | `step = n / sample`; the start lies in `[0, min(step, n) - 1]` and is 0 unless `step > 1`; `sample > n` divides by zero; otherwise the output is the walk with stride `step + 1` |
| ProbabilitySampling.Systematic | Numera/stats/ProbabilitySampling.h:79-110 | empty for empty data or `sample == 0`, else the walk above over the data as given |
| ProbabilitySampling.SystematicFifteenByFour | Tests/stats/ProbabilitySamplingTests.cpp:34-42 | 15 elements with `sample = 4` give 4 elements, whatever the start |
| ProbabilitySampling.SortedWalk | Numera/stats/ProbabilitySampling.h:239-259 | a systematic walk over a sorted population returns a non-decreasing sequence |
| ProbabilitySampling.SystematicSorted | Numera/stats/ProbabilitySampling.h:232-262 | the `NumericSample` overload walks a sorted copy, so its output is non-decreasing |
| ProbabilitySampling.SimpleRandomSample | Numera/stats/ProbabilitySampling.h:207-230 | the `NumericSample` overload makes the same draw over its elements |
| ProbabilitySampling.Stratified | Numera/stats/ProbabilitySampling.h:112-205 | empty on empty data, a label/data length mismatch or a zero size; otherwise `length_error` exactly when the size exceeds `max_size()` of a vector of `double`s, and else group by label, apportion, draw each group's capped quota from its own positions, shuffle |
| ProbabilitySampling.StratifiedSample | Numera/stats/ProbabilitySampling.h:264-357 | the `NumericSample` overload runs the same algorithm over its elements, with the same `length_error` |
| ProbabilitySampling.StratifiedSize | Numera/stats/ProbabilitySampling.h:186-203 | a stratified sample holds the sum of `min(quota, group size)` elements, takes no position twice, and yields only values of the data |
| ProbabilitySampling.StratifiedExact | Numera/stats/ProbabilitySampling.h:136-203 | the sample has exactly the requested size when it is at most the population and every group's share reaches one element |
| ProbabilitySampling.TestGroupsLarge | Tests/stats/ProbabilitySamplingTests.cpp:50-55 | every group of the test labels holds at least three positions |
| ProbabilitySampling.StratifiedEightOfEighteen | Tests/stats/ProbabilitySamplingTests.cpp:50-58 | 8 drawn over groups of sizes 4, 5, 3 and 6 gives exactly 8 elements, for every group order and tie order |
| Sampling.SimpleRandom | Numera/stats/Sampling.cpp:4-22 | empty for a zero size or empty data; otherwise a permutation of `min(size, n)` elements drawn at distinct positions |
| Sampling.Systematic | Numera/stats/Sampling.cpp:24-49 | the walk with stride `n / sample + 1` from a start in the drawn range; `sample > n` divides by zero |
| Sampling.SystematicSorted | Numera/stats/Sampling.cpp:51-76 | the same walk over a sorted copy, so the output is non-decreasing |
| Sampling.Stratified | Numera/stats/Sampling.cpp:77-158 | the same guard, `length_error` beyond `max_size()`, apportionment, capped draw per group and shuffle as the template engine |
| LegacySampling.SimpleRandom | numera/sampling/sampling.cpp:5-36 | empty for a zero size or empty data; otherwise a permutation of `min(size, n)` elements drawn at distinct positions |
| LegacySampling.WrapStridedClimbs | numera/sampling/sampling.cpp:57 | while `step + n <= 2^64` the `size_t` counter never wraps, and the walk is every `step`-th element upwards |
| LegacySampling.WrapStridedDescends | numera/sampling/sampling.cpp:57 | once `step + n > 2^64`, each `i += step` wraps back by `2^64 - step` or leaves the range, so the walk descends by `2^64 - step` |
| LegacySampling.DescendingLength | numera/sampling/sampling.cpp:57 | a descending walk from position `i` yields `i / d + 1` values |
| LegacySampling.DescendingAt | numera/sampling/sampling.cpp:57 | element `j` of a descending walk is the element `j * d` below its start |
| LegacySampling.DescendingSorted | numera/sampling/sampling.cpp:83 | a descending walk over a sorted population never increases |
| LegacySampling.Walk | numera/sampling/sampling.cpp:47-59 | the start lies in `[0, min(step, n) - 1]` (0 when `step == 1`), and the output is the walk of the `size_t` counter from there |
| LegacySampling.Systematic | numera/sampling/sampling.cpp:38-62 | empty for empty data or `step == 0`; else the `size_t` walk with stride `step` over the data |
| LegacySampling.SystematicSorted | numera/sampling/sampling.cpp:64-88 | the same walk over a sorted copy: non-decreasing while `step + n <= 2^64`, non-increasing when the counter wraps |
| LegacySampling.ReserveFits | numera/sampling/sampling.cpp:55 | the `reserve((n + step - 1) / step)` of the walks, computed in `size_t`, asks for at most `n` places, so it never throws |
| LegacySampling.WalkSize | numera/sampling/sampling.cpp:55-59 | while no counter wraps, a walk yields `ceil((n - start) / step)` values: at least one, and at most the `(n + step - 1) / step` reserved; when it wraps, `start / (2^64 - step) + 1` values |
| LegacySampling.WalkAt | numera/sampling/sampling.cpp:57-59 | while no counter wraps, element `j` of a walk is the population's element `start + j * step` |
| LegacySampling.WalkAtWrapped | numera/sampling/sampling.cpp:57-59 | when the counter wraps, element `j` of a walk is the population's element `j * (2^64 - step)` below `start` |
| LegacySampling.WrapExample | numera/sampling/sampling.cpp:83 | the walk over `1, 2, 3` with step `SIZE_MAX` from start 2 yields `3, 2, 1` |
| LegacySampling.Stratified | numera/sampling/sampling.cpp:90-137 | empty on empty data, a label mismatch or a zero count; otherwise `length_error` exactly when `groups * count`, wrapped modulo 2^64, exceeds `max_size()`; else each group gives `min(count, group size)` of its own positions, then a shuffle |
| LegacySampling.UniformTotal | numera/sampling/sampling.cpp:122-132 | with one quota for every group, the groups yield at most `count` each, and exactly `count` each when every group is large enough |
| LegacySampling.StratifiedSize | numera/sampling/sampling.cpp:122-135 | a legacy stratified sample takes no position twice, holds at most `count` per group (exactly that when groups are large enough), and only values of the data |
| LegacySampling.SimpleRandomOf | numera/sampling/sampling.cpp:141-144 | the `Numera` overload returns an empty vector |
| LegacySampling.SystematicOf | numera/sampling/sampling.cpp:146-149 | the `Numera` overload returns an empty vector |
| LegacySampling.StratifiedOf | numera/sampling/sampling.cpp:151-154 | the `Numera` overload returns an empty vector |
| NonProbabilitySampling.GroupValues | Numera/stats/NonProbabilitySampling.h:66-69 | the grouping loop binds each label that occurs to its values, in data order |
| NonProbabilitySampling.ValuesCount | Numera/stats/NonProbabilitySampling.h:66-69 | a group holds one value per position with its label |
| NonProbabilitySampling.ValuesFromData | Numera/stats/NonProbabilitySampling.h:66-69 | every grouped value is the data value at a position carrying that label |
| NonProbabilitySampling.QuotaSample | Numera/stats/NonProbabilitySampling.h:57-83 | empty on empty data, a label mismatch or no quotas; otherwise, for every group in map order, its first `min(quota, size)` values; unquoted labels give nothing |
| NonProbabilitySampling.PushFirst | Numera/stats/NonProbabilitySampling.h:76-79 | the inner loop appends the first `k` values of the group |
| NonProbabilitySampling.BlocksSize | Numera/stats/NonProbabilitySampling.h:71-80 | the blocks together hold the sum of `min(quota, group size)` values |
| NonProbabilitySampling.BlocksFromData | Numera/stats/NonProbabilitySampling.h:71-80 | every value of a quota sample is a data value whose label has a quota |
| NonProbabilitySampling.TakenTotalReordered | Numera/stats/NonProbabilitySampling.h:71-80 | the order in which the groups are visited does not change how many values are taken |
| NonProbabilitySampling.QuotaSize | Numera/stats/NonProbabilitySampling.h:57-83 | a quota sample's size is the sum of `min(quota, group size)`, whatever the group order |
| NonProbabilitySampling.QuotaEightOfEighteen | Tests/stats/NonProbabilitySamplingTests.cpp:152-169 | quotas 2, 2, 1 and 3 over the 18 test labels give 8 values, in every group order |
| NonProbabilitySampling.HaphazardSample | Numera/stats/NonProbabilitySampling.h:85-109 | empty for empty data or a zero size; otherwise a shuffled copy, cut to its first `size` values when smaller than `n` |
| NonProbabilitySampling.HaphazardSize | Numera/stats/NonProbabilitySampling.h:89-108 | a haphazard sample has `min(size, n)` values, none more often than in the data, and is a permutation of the whole data when `size >= n` |
| NonProbabilitySampling.ConvenienceSample | Numera/stats/NonProbabilitySampling.h:111-128 | `length_error` exactly when the data is non-empty and the size exceeds `max_size()`; otherwise the first `min(size, n)` values in order (empty for empty data or a zero size) |
| NonProbabilitySampling.ConvenienceExample | Tests/stats/NonProbabilitySamplingTests.cpp:217-243 | 5 of 10 gives the first 5; 20 of 10 gives all 10 in order |
| NonProbabilitySampling.QuotaSampleOf | Numera/stats/NonProbabilitySampling.h:130-158 | the `NumericSample` overload returns the same values in a new sample |
| NonProbabilitySampling.HaphazardSampleOf | Numera/stats/NonProbabilitySampling.h:160-184 | the `NumericSample` overload returns the same draw in a new sample |
| NonProbabilitySampling.ConvenienceSampleOf | Numera/stats/NonProbabilitySampling.h:186-203 | the `NumericSample` overload fails the same way, and otherwise returns the same prefix in a new sample |
| BasicStats.Least | Numera/stats/BasicStats.h:18-24 | `min_element` finds a value of the data at or below every value |
| BasicStats.Greatest | Numera/stats/BasicStats.h:63-69 | `max_element` finds a value of the data at or above every value |
| BasicStats.Min | Numera/stats/BasicStats.h:17-38 | `invalid_argument` exactly on empty data; otherwise a value of the data at or below all of them |
| BasicStats.Max | Numera/stats/BasicStats.h:62-82 | `invalid_argument` exactly on empty data; otherwise a value of the data at or above all of them |
| BasicStats.MinIsFirstSorted | Numera/stats/BasicStats.h:17-38 | the minimum is the first element of the sorted copy |
| BasicStats.MaxIsLastSorted | Numera/stats/BasicStats.h:62-82 | the maximum is the last element of the sorted copy |
| BasicStats.MinOfGroups | Numera/stats/BasicStats.h:40-60 | the map form throws on an empty map, skips empty vectors, and returns a value of some group at or below every value of every group |
| BasicStats.MaxOfGroups | Numera/stats/BasicStats.h:84-106 | the map form throws on an empty map, skips empty vectors, and returns a value of some group at or above every value of every group |
| BasicStats.MedianSplits | Numera/stats/BasicStats.h:162-182 | the median of a sorted sequence is at or above its lower half and at or below its upper half |
| BasicStats.MedianBetweenExtremes | Numera/stats/BasicStats.h:162-182 | the median lies between the least and the greatest value |
| BasicStats.Median | Numera/stats/BasicStats.h:162-182 | the container form gives 0 on empty data; otherwise the middle of the sorted copy, or the mean of its two middle elements |
| BasicStats.MedianOfRange | Numera/stats/BasicStats.h:140-160 | the iterator form throws `invalid_argument` exactly on empty data, else the same median |
| BasicStats.LowerQuartile | Numera/stats/BasicStats.h:374-425 | `invalid_argument` on empty data, `logic_error` on one value, else the median of the `n / 2` smallest values |
| BasicStats.UpperQuartile | Numera/stats/BasicStats.h:427-490 | the same errors, else the median of the sorted values from `n / 2` (even `n`) or `n / 2 + 1` (odd `n`) on |
| BasicStats.QuartilesBracketMedian | Numera/stats/BasicStats.h:374-490 | lower quartile <= median <= upper quartile |
| BasicStats.QuartilesOfSorted | Numera/stats/BasicStats.h:374-490 | both quartiles are read off the sorted copy as medians of its halves |
| BasicStats.QuartileExample | Tests/stats/BasicStatsTests.cpp:103-131 | `{54, 63, 48, 29, 27, 32, 41}` has lower quartile 29 and upper quartile 54 |
| BasicStats.Frequencies | Numera/stats/BasicStats.h:545-548 | the counting loop maps every value of the data, and only those, to its number of occurrences |
| BasicStats.Mode | Numera/stats/BasicStats.h:527-572 | a value exactly when one value occurs more often than every other and more than once, and then that value; otherwise `nullopt` |
| BasicStats.ModeVerdict | Numera/stats/BasicStats.h:550-569 | what the visit of the frequency map leaves in `max_count`, `result` and `unique` decides the mode both ways |
| BasicStats.Modes | Numera/stats/BasicStats.h:574-610 | each value that occurs most often and more than once, each listed once, and nothing else |
| BasicStats.HighestCount | Numera/stats/BasicStats.h:595-597 | the first visit finds the highest count, which some key has |
| BasicStats.KeysWithCount | Numera/stats/BasicStats.h:602-607 | the second visit lists each key with that count once, and no other key |
| BasicStats.ModalVerdict | Numera/stats/BasicStats.h:595-609 | a value is listed exactly when its count is the highest and above 1 |
| BasicStats.UniqueModeIsSoleModal | Numera/stats/BasicStats.h:527-610 | `mode` has a value exactly when `modes` lists that one value alone |
| BasicStats.ModeOfSingleRepeat | Tests/stats/BasicStatsTests.cpp:517-527 | `{1, 2, 2, 3, 4}`: mode 2, modes `[2]` |
| BasicStats.ModeOfNoRepeat | Tests/stats/BasicStatsTests.cpp:529-537 | `{1, 2, 3, 4, 5}`: no mode and no modes |
| BasicStats.ModeOfTie | Tests/stats/BasicStatsTests.cpp:538-550 | `{1, 1, 2, 2, 3}`: no mode; the modes are 1 and 2 in either order |
| BasicStats.Scope | Numera/stats/BasicStats.h:612-617 | fails exactly on empty data, like `min` and `max` |
| BasicStats.ScopeIsLargestGap | Numera/stats/BasicStats.h:612-617 | the range is the largest difference between two values, so never negative |
| CsvData.KeyLessIrreflexive | Numera/Core/CsvData.h:204-208 | the key order of the map is irreflexive |
| CsvData.KeyLessTotal | Numera/Core/CsvData.h:204-208 | of two different keys exactly one is the lesser |
| CsvData.FromPairsKeys | Numera/Core/CsvData.h:70-84 | the keys built from an initializer list are exactly its keys |
| CsvData.FromPairsLastWins | Numera/Core/CsvData.h:70-84 | a key is bound to the vector of the last pair that carries it |
| CsvData.CSVDataStore.constructor | Numera/Core/CsvData.h:26 | the default store has no keys |
| CsvData.CSVDataStore.FromMap | Numera/Core/CsvData.h:86-90 | the map constructor copies the map |
| CsvData.CSVDataStore.FromList | Numera/Core/CsvData.h:70-75 | the initializer-list constructor inserts every pair in turn |
| CsvData.CSVDataStore.Assign | Numera/Core/CsvData.h:77-84 | the initializer-list assignment clears, then inserts every pair in turn |
| CsvData.CSVDataStore.InsertPairs | Numera/Core/CsvData.h:79-83 | the insertion loop leaves the map the pairs build |
| CsvData.CSVDataStore.Index | Numera/Core/CsvData.h:92-96 | non-const `operator[]` returns the key's vector, inserting an empty one when the key is missing |
| CsvData.CSVDataStore.IndexAssign | Numera/Core/CsvData.h:92-96 | a vector assigned through the reference `operator[]` returns becomes the key's vector; every other key keeps its vector |
| CsvData.CSVDataStore.At | Numera/Core/CsvData.h:98-114 | `at` and const `operator[]` return the key's vector, or `out_of_range` exactly when the key is missing; nothing is inserted |
| CsvData.CSVDataStore.Add | Numera/Core/CsvData.h:104-108 | appends the value to the key's vector, creating the key if absent; every other key keeps its vector |
| CsvData.CSVDataStore.Size | Numera/Core/CsvData.h:116-120 | counts keys, not values |
| CsvData.CSVDataStore.Clear | Numera/Core/CsvData.h:122-126 | no keys remain |
| CsvData.CSVDataStore.Empty | Numera/Core/CsvData.h:128-132 | true exactly when there are no keys |
| CsvData.CSVDataStore.RemoveKey | Numera/Core/CsvData.h:134-138 | erases exactly that key, if present, and leaves all others |
| CsvData.CSVDataStore.RemoveAtCursor | Numera/Core/CsvData.h:199-203 | erasing at an iterator removes exactly the key it points at |
| CsvData.CSVDataStore.RemoveRange | Numera/Core/CsvData.h:204-208 | erases exactly the keys in the half-open key-ordered range `[first, last)`; the other keys keep their vectors |
| CsvData.CSVDataStore.Min | Numera/Core/CsvData.h:140-144 | the least value of any vector; `invalid_argument` with no keys |
| CsvData.CSVDataStore.Max | Numera/Core/CsvData.h:146-150 | the greatest value of any vector; `invalid_argument` with no keys |
| CsvData.CSVDataStore.Mean | Numera/Core/CsvData.h:152-156 | always 1 |
| CsvData.CSVDataStore.Median | Numera/Core/CsvData.h:158-162 | always 1 |
| CsvData.AddExample | Tests/Core/CsvDataTests.cpp:34-41 | two values under "x" and one under "y" make two keys, with the values in order |
| CsvData.RemoveRangeExample | Tests/Core/CsvDataTests.cpp:133-150 | erasing from "A" up to "C" leaves only "C" |
| CsvData.ExtremesExample | Tests/Core/CsvDataTests.cpp:170-176 | `{"hello": {1, 2, 3}, "hi": {0, 4, 5}}` has minimum 0 and maximum 5 |
| CsvTable.FirstIndex | Numera/Core/CSVTable.cpp:71-77 | `std::find` gives the first position holding the name, and none exactly when it is absent |
| CsvTable.TransposedColumn | Numera/Core/CSVTable.cpp:28-40 | after the transposition, column `j` of the rows is header `j`'s loaded column |
| CsvTable.StringToBool | Numera/Core/CSVTable.h:123-126 | "0"/"false" read as false, "1"/"true" as true, and anything else fails |
| CsvTable.Validate | Numera/Core/CSVTable.cpp:11-26 | succeeds exactly when every header has a loaded column as long as the first header's, and then gives that length; otherwise `invalid_argument` |
| CsvTable.BuildRow | Numera/Core/CSVTable.cpp:32-38 | the inner loop builds row `i`: the `i`-th cell of every header's column, in header order |
| CsvTable.Load | Numera/Core/CSVTable.cpp:3-41 | the loader constructor throws exactly when validation fails; otherwise headers in order and row `i` holding cell `i` of each column |
| CsvTable.CSVTable.constructor | Numera/Core/CSVTable.h:48 | no headers, no rows |
| CsvTable.CSVTable.FromColumns | Numera/Core/CSVTable.cpp:28-40 | the nested loops store the transposed columns, one row per cell index |
| CsvTable.CSVTable.FromHeadersAsWritten | Numera/Core/CSVTable.cpp:43 | the headers constructor as written keeps the headers but sets the column count to 0 |
| CsvTable.CSVTable.FromHeaders | Numera/Core/CSVTable.cpp:43 | the headers constructor as intended: as many columns as headers, no rows |
| CsvTable.CSVTable.RowCount | Numera/Core/CSVTable.cpp:46-49 | the number of stored rows, which the row counter agrees with |
| CsvTable.CSVTable.ColumnCount | Numera/Core/CSVTable.cpp:51-54 | the number of headers |
| CsvTable.CSVTable.Empty | Numera/Core/CSVTable.cpp:56-59 | true exactly when there are no rows, whatever the headers |
| CsvTable.CSVTable.Row | Numera/Core/CSVTable.cpp:61-64 | the stored row, or `out_of_range` exactly when the index is past the last row |
| CsvTable.CSVTable.HasColumn | Numera/Core/CSVTable.cpp:66-69 | true exactly when some header is the name |
| CsvTable.CSVTable.ColumnIndex | Numera/Core/CSVTable.cpp:71-77 | the first header position holding the name; `out_of_range` exactly when `has_column` is false |
| CsvTable.CSVTable.Column | Numera/Core/CSVTable.cpp:79-92 | `out_of_range` exactly when `index >= cols_count`; else cell `index` of every row, in row order |
| CsvTable.CSVTable.ColumnNamed | Numera/Core/CSVTable.cpp:94-98 | the column at the name's first index; `out_of_range` for an unknown name |
| CsvTable.CSVTable.Extract | Numera/Core/CSVTable.h:102-115 | one converted value per cell of the named column, in row order; `out_of_range` for an unknown name; `invalid_argument` exactly when some cell fails to convert |
| CsvTable.ConvertAll | Numera/Core/CSVTable.h:107-114 | the conversion loop fails exactly when some cell fails to convert |
| CsvTable.CSVTable.AddRow | Numera/Core/CSVTable.cpp:100-112 | `invalid_argument` exactly when there are no headers or the row length is not `cols_count`, leaving the table unchanged; otherwise the row is appended and counted |
| CsvTable.CSVTable.Clear | Numera/Core/CSVTable.cpp:114-120 | rows and headers both go, and both counts become 0 |
| CsvTable.CSVTable.ClearKeepingHeaders | Numera/Core/CSVTable.h:89 | `clear` as declared: the rows go, the headers and the column count stay |
| CsvTable.TableExample | Tests/Core/CSVTableTests.cpp:22-27 | the three-person table has 3 rows and 3 columns, is not empty, has Age and not Weight, and Height is column 2 |
| CsvTable.AgeColumn | Tests/Core/CSVTableTests.cpp:28-32 | the Age column reads "25", "30", "22" |
| CsvTable.RaggedColumnsRefused | Numera/Core/CSVTable.cpp:19-25 | loaded columns of different lengths are refused with `invalid_argument` |
| CsvTable.HeadersAsWrittenRefuseFullRow | Numera/Core/CSVTable.cpp:43 | with the constructor as written, headers `a, b` refuse the row `1, 2` |
| CsvTable.HeadersAcceptFullRow | Numera/Core/CSVTable.cpp:43 | with the constructor as intended, the same row is added and column 1 reads back `2` |
| CsvTable.ClearAsWrittenRefusesRow | Numera/Core/CSVTable.cpp:114-120 | after `clear` as written, a table that took the row `1, 2` refuses `3, 4` |
| CsvTable.ClearKeepingHeadersAcceptsRow | Numera/Core/CSVTable.h:89 | after `clear` as declared, the same table adds `3, 4` and holds one row |
| CsvTable.ExtractBoolExample | Numera/Core/CSVTable.h:117-131 | a flag column "true", "0" extracts to `true, false`; adding "yes" makes it `invalid_argument` |
| CsvLoader.FindDelim | Numera/io/CsvDataLoader.cpp:62-64 | the first delimiter position, or the line length when there is none |
| CsvLoader.PiecesHaveNoDelim | Numera/io/CsvDataLoader.cpp:57-66 | no piece of `split` holds the delimiter |
| CsvLoader.JoinPieces | Numera/io/CsvDataLoader.cpp:57-66 | joining the pieces with the delimiter gives the line back, except for a final delimiter |
| CsvLoader.PiecesOfJoin | Numera/io/CsvDataLoader.cpp:57-66 | splitting joined delimiter-free pieces gives them back when the last one is not empty |
| CsvLoader.SplitExamples | Numera/io/CsvDataLoader.cpp:62-64 | adjacent delimiters make an empty piece, a final delimiter makes none, and an empty line has no pieces |
| CsvLoader.DataRows | Numera/io/CsvDataLoader.cpp:23-24 | one split row per data line after the header line |
| CsvLoader.DistinctRowCells | Numera/io/CsvDataLoader.cpp:25-31 | with distinct headers, a row adds exactly one cell to each header's column: its own cell, or `""` |
| CsvLoader.AbsentRowCells | Numera/io/CsvDataLoader.cpp:25-31 | a key that is not a header gets nothing from a row |
| CsvLoader.DistinctColumns | Numera/io/CsvDataLoader.cpp:23-32 | with distinct headers, every column gets one cell per data line, padded with `""` when the line is short |
| CsvLoader.CSVDataStore.constructor | Numera/io/CsvDataLoader.cpp:3-36 | no columns, and the given delimiter |
| CsvLoader.CSVDataStore.Split | Numera/io/CsvDataLoader.cpp:57-66 | the `getline` loop gives exactly the pieces of the line |
| CsvLoader.CSVDataStore.Get | Numera/io/CsvDataLoader.cpp:38-43 | the key's column, or an empty one when the key is missing |
| CsvLoader.CSVDataStore.Read | Numera/io/CsvDataLoader.cpp:3-36 | false exactly with no header line, changing nothing; otherwise each header's column is reset and gets its cells from every data line, and other keys keep their columns |
| CsvLoader.CSVDataStore.ResetColumns | Numera/io/CsvDataLoader.cpp:18-20 | every header gets an empty column; other keys keep theirs |
| CsvLoader.CSVDataStore.AppendRow | Numera/io/CsvDataLoader.cpp:25-31 | each header's column gets the row's cells at that header's positions, `""` where the row is short |
| CsvLoader.PiecesStep | Numera/io/CsvDataLoader.cpp:62-64 | one pass of `getline` takes the text up to the next delimiter and resumes after it |
| CsvLoader.ReadExample | Numera/io/CsvDataLoader.cpp:23-32 | a header line and three data lines give one cell per line in each column; the short line is padded with `""` and the extra cell dropped |
| NumericSampleCore.NumericSample.constructor | Numera/Core/NumericSample.h:42 | an empty sample |
| NumericSampleCore.NumericSample.FromVector | Numera/Core/NumericSample.h:45 | holds the given vector |
| NumericSampleCore.NumericSample.Copy | Numera/Core/NumericSample.h:99 | holds the same elements as the original |
| NumericSampleCore.NumericSample.FromRange | Numera/Core/NumericSample.h:110-114 | copies `[begin, end)` in order |
| NumericSampleCore.NumericSample.Get | Numera/Core/NumericSample.h:143-148 | unchecked `operator[]` reads element `index` of an in-range index |
| NumericSampleCore.NumericSample.Set | Numera/Core/NumericSample.h:143-148 | a write through `operator[]` changes exactly that element |
| NumericSampleCore.NumericSample.PushBack | Numera/Core/NumericSample.h:155-158 | appends one element; earlier ones unchanged |
| NumericSampleCore.NumericSample.Add | Numera/Core/NumericSample.h:161-164 | appends one element; earlier ones unchanged |
| NumericSampleCore.NumericSample.AddAll | Numera/Core/NumericSample.h:167-170 | appends all the elements, in order |
| NumericSampleCore.NumericSample.RemoveAt | Numera/Core/NumericSample.h:173-176 | removes exactly element `index` and shifts the later ones down |
| NumericSampleCore.RemoveMiddle | Tests/Core/NumericSampleTests.cpp:40-41 | `{1, 2, 3}` without index 1 is `{1, 3}` |
| NumericSampleCore.NumericSample.At | Numera/Core/NumericSample.h:179-182 | bounds-checked: the element, or `out_of_range` past the end |
| NumericSampleCore.NumericSample.Size | Numera/Core/NumericSample.h:185-188 | the number of elements |
| NumericSampleCore.NumericSample.Clear | Numera/Core/NumericSample.h:191-194 | no elements remain |
| NumericSampleCore.NumericSample.Empty | Numera/Core/NumericSample.h:197-200 | true exactly when there are no elements |
| NumericSampleCore.NumericSample.Front | Numera/Core/NumericSample.h:203-206 | the first element of a non-empty sample |
| NumericSampleCore.NumericSample.Back | Numera/Core/NumericSample.h:209-212 | the last element of a non-empty sample |
| VectorDataCore.VectorData.constructor | Numera/Core/VectorData.h:17 | an empty data set |
| VectorDataCore.VectorData.FromVector | Numera/Core/VectorData.h:21 | holds the given vector |
| VectorDataCore.VectorData.Get | Numera/Core/VectorData.h:69-79 | unchecked `operator[]` reads element `index` of an in-range index |
| VectorDataCore.VectorData.Set | Numera/Core/VectorData.h:69-79 | a write through `operator[]` changes exactly that element |
| VectorDataCore.VectorData.Add | Numera/Core/VectorData.h:81-84 | appends one element; earlier ones unchanged |
| VectorDataCore.VectorData.AddAll | Numera/Core/VectorData.h:87-90 | appends all the elements, in order |
| VectorDataCore.VectorData.RemoveAt | Numera/Core/VectorData.h:93-96 | removes exactly element `index` and shifts the later ones down |
| VectorDataCore.VectorData.At | Numera/Core/VectorData.h:99-102 | bounds-checked: the element, or `out_of_range` past the end |
| VectorDataCore.VectorData.Size | Numera/Core/VectorData.h:105-108 | the number of elements |
| VectorDataCore.VectorData.Clear | Numera/Core/VectorData.h:111-114 | no elements remain |
| VectorDataCore.VectorData.Empty | Numera/Core/VectorData.h:117-120 | true exactly when there are no elements |
| ModernNumera.Numera.constructor | Numera/Numera.cpp:28-30 | no numbers, no file name |
| ModernNumera.Numera.FromVector | Numera/Numera.cpp:10 | the given numbers, no file name |
| ModernNumera.Numera.Copy | Numera/Numera.cpp:12-16 | the copy has the same numbers and file name |
| ModernNumera.Numera.Assign | Numera/Numera.cpp:18-26 | after assignment both fields equal the other's, also for self-assignment |
| ModernNumera.Numera.Add | Numera/Numera.cpp:36-39 | appends one number; the file name stays |
| ModernNumera.Numera.AddAll | Numera/Numera.cpp:41-44 | appends all the numbers, in order |
| ModernNumera.Numera.Size | Numera/Numera.cpp:46-49 | the number of stored numbers |
| ModernNumera.Numera.Min | Numera/Numera.cpp:51-55 | 0 when empty, else the least stored number |
| ModernNumera.Numera.Max | Numera/Numera.cpp:57-61 | 0 when empty, else the greatest stored number |
| ModernNumera.Numera.Median | Numera/Numera.cpp:70-85 | 0 when empty, else the middle of a sorted copy (or the mean of the two middle values), between `min` and `max`; the stored order is unchanged |
| ModernNumera.Numera.At | Numera/Numera.cpp:146-149 | always 0 |
| ModernNumera.Numera.Front | Numera/Numera.cpp:151-154 | always 0 |
| ModernNumera.Numera.Back | Numera/Numera.cpp:156-159 | always 0 |
| ModernNumera.Numera.Clear | Numera/Numera.cpp:161-164 | no numbers remain; the file name stays |
| ModernNumera.Numera.Empty | Numera/Numera.cpp:166-169 | always false, even with no numbers |
| ModernNumera.Numera.PopBack | Numera/Numera.cpp:171-173 | changes nothing |
| ModernNumera.Numera.RemoveAt | Numera/Numera.cpp:175-177 | changes nothing |
| ModernNumera.ExtremesExample | Numera/Numera.cpp:51-61 | `{5, 10, 2, 8}` has minimum 2 and maximum 10 |
| ModernNumera.CopyIsIndependent | Numera/Numera.cpp:12-16 | adding to a copy leaves the original as it was |
| LegacyNumera.Numera.constructor | numera/Numera.cpp:12-14 | no numbers, no file name |
| LegacyNumera.Numera.Add | numera/Numera.cpp:20-23 | appends one number |
| LegacyNumera.Numera.AddAll | numera/Numera.cpp:25-28 | appends all the numbers, in order |
| LegacyNumera.Numera.Count | numera/Numera.cpp:30-33 | the number of stored numbers |
| LegacyNumera.Numera.Min | numera/Numera.cpp:35-39 | 0 when empty, else the least stored number |
| LegacyNumera.Numera.Max | numera/Numera.cpp:41-45 | 0 when empty, else the greatest stored number |
| LegacyNumera.Numera.Median | numera/Numera.cpp:54-69 | 0 when empty, else the middle of a sorted copy (or the mean of the two middle values), between `min` and `max` |
| LegacyNumera.CountAfterThreeAdds | tests/NumeraTests.cpp:13-22 | three numbers added give a count of 3 |
| LegacyNumera.ExtremesExample | tests/NumeraTests.cpp:24-32 | `{5, 10, 2, 8}` has minimum 2 and maximum 10 |
| LegacyNumera.MedianExamples | tests/NumeraTests.cpp:43-60 | `{3, 1, 5}` has median 3 and `{4, 2, 8, 6}` has median 5 |

## Left out

- **Random generators.** Not modelled: `RandomValueGenerator`, the thread-local seeding of the legacy sampler, and `std::random_device`. Each random step may take any outcome. Uniformity and other statistical properties are not stated.
- **`double` arithmetic.** Values are exact reals. The `double` fraction of the apportionment is its exact integer numerator. Rounding of very large products is not modelled.
- **The mean family.** `arithmetic_mean`, `weighted_mean`, `geometric_mean`, `harmonic_mean`, `percentile`, `mean_absolute_deviation`, `interquartile_range`, and `mean`/`stddev` of both `Numera` classes are floating-point numerics.
- **File and stream I/O.** Not modelled:
  - opening and reading files in `CsvDataLoader.cpp`, and its `print`;
  - `FileDataLoader`;
  - `open_file` and the loader-taking constructors of both `Numera` classes;
  - `load`/`save` of the modern `Numera`;
  - the `loader.load` call of the `CSVTable` loader constructor, which is modelled from the loaded columns and the header order.

  A file that cannot be opened makes `read` return false; that path is not modelled.
- CsvLoader.CSVDataStore: `CsvDataLoader.cpp` defines `read`, `get` and `split` on a class `CSVDataStore` with a delimiter member. The header `CsvDataLoader.h` declares a different class, `CSVDataLoader`, without them. The model follows the `.cpp`.
- CsvTable.CSVTable.Extract: the conversion `string_to<T>` is a parameter. Only its `bool` branch, `CsvTable.StringToBool`, is modelled. The stream conversion of other types is not.
- **Grouped `CSVData` overloads.** The tests call them, but no source file defines them.
- **`NumericSample::capacity`.** It calls itself without end.
- **Unmodelled `NumericSample`/`VectorData` members.** The statistics methods that only delegate to `BasicStats`, and the move mechanics beyond plain value copies.
- **Modern `Numera` `operator[]`, `begin` and `end`.** `operator[]` is declared but never defined. The iterators are plain vector iterators.
- CsvData.CSVDataStore.Index: returns the key's vector as a value. Writes through the returned reference are modelled only as a whole-vector assignment (`IndexAssign`) and a `push_back` (`Add`); other in-place edits of the vector through it are not.
- **`CSVDataStore` iterators.** An iterator is modelled only as the key it points at, or the end. Iterating the map is not modelled.
- BasicStats.MinOfGroups: requires some non-empty vector when the map has keys. With only empty vectors the source dereferences the end of an empty vector, which is undefined behaviour. The same holds for BasicStats.MaxOfGroups, CsvData.CSVDataStore.Min and CsvData.CSVDataStore.Max.
- BasicStats.Median: values are reals. An integer instantiation of the source truncates the mean of the two middle values; that is not modelled.
- **Iteration and sort order.** The order of `unordered_map` iteration and the order of ties in `std::sort` are left open, not fixed.

## Findings

| source | as written | input that shows it | evidently intended | confidence | as-written member | corrected member |
|---|---|---|---|---|---|---|
| Numera/Core/CSVTable.cpp:43 | `cols_count(headers.size())` reads the constructor parameter after it was moved into the `headers` member, so the column count is that of an emptied vector, 0 | headers `a, b`, then `add_row({"1", "2"})` throws `invalid_argument` | the column count is the number of headers, and a row with one cell per header is added | not executed | CsvTable.HeadersAsWrittenRefuseFullRow | CsvTable.HeadersAcceptFullRow |
| Numera/Core/CSVTable.cpp:114-120 | `clear` empties `headers` and sets `cols_count` to 0, while its declaration (`CSVTable.h:89`) says it keeps the header | headers `a, b` and the row `1, 2`, then `clear()`, then `add_row({"3", "4"})` throws `invalid_argument` | the rows go, the headers stay, and a row with one cell per header is added afterwards | not executed | CsvTable.ClearAsWrittenRefusesRow | CsvTable.ClearKeepingHeadersAcceptsRow |

The rest of the model uses `CsvTable.CSVTable.FromHeaders`, the corrected constructor. `CsvTable.CSVTable.Clear` models `clear` as written and `CsvTable.CSVTable.ClearKeepingHeaders` as declared; no other member calls either.

Two source behaviours are modelled as written and are not listed as findings, because nothing shows the authors meant otherwise:

- The `Numera` stubs `empty`, `at`, `front`, `back`, `pop_back` and `remove_at` do nothing useful.
- `CSVDataStore::mean` and `median` return 1.
