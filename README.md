# Property analyser: the suburb-ranking engine

This project models `AnalysisService.AnalyzeProperties` of the C# property
analyser, together with its two helpers `CalculateMedian` and `CalculateStdDev`.
The engine receives a list of commercial property listings and works in stages:

1. It computes two metrics per listing: the rental yield and the price per
   square metre. Each is 0 when its divisor is not positive.
2. It keeps only the listings whose yield is strictly above 7%.
3. It groups the survivors by suburb.
4. For each suburb it reports the property count, the mean yield, the mean
   and median price per square metre, and the sample standard deviation of
   the yield. Each statistic is rounded to two decimals.
5. It ranks the suburbs by their rounded mean yield, highest first, and
   keeps the first five.

The model is pure: datatypes, functions and lemmas, in the same form as the
LINQ pipeline it follows.

- `models.dfy` (module `Models`) holds the two records, `PropertyListing` and
  `SuburbReport`.
- `analysis_service.dfy` (module `AnalysisService`) holds the engine, stage by
  stage.
- `numeric.dfy`, `sorting.dfy` and `collections.dfy` hold exact counterparts of
  the library calls the engine makes:
  - `Sum`, `Average` and `Math.Round(x, 2)`;
  - `OrderBy` and `OrderByDescending`, both written as stable insertion sorts;
  - distinctness of sequences.
- `analysis_properties.dfy` (module `AnalysisProperties`) states what the
  output means. Two of its definitions are stated from the input listings
  alone:
  - `SurvivingSuburbs`: the set of suburbs that have a listing above the
    threshold;
  - `SurvivorCount`: the number of surviving input listings of a suburb.

  Two more name what the engine computes for one suburb:
  - `SurvivorsOf`: the engine's group of that suburb, that is, its grouping
    applied to its filter's output;
  - `SuburbReportFor`: the engine's `GroupReport` applied to that group.

  `SurvivorsOfSnoc` pins each group to the listings: it is the suburb's
  surviving listings, scored, in input order, the order the model fixes.
  `GroupReportOrderIndependent` proves that a group's report does not depend
  on that order, so the model's reports are those of any order the parallel
  grouping may produce. The group statistics are stated
  by the lemmas about `GroupReport`'s parts (mean, median, deviation,
  rounding). The lemmas about the output prove that ranking and truncation
  keep each group report intact, and relate names, counts and length to
  `SurvivingSuburbs` and `SurvivorCount`.
- `analysis_examples.dfy` (module `AnalysisExamples`) proves the scenarios of
  the repository's unit tests.

Money and the derived metrics are exact `real`s. `Math.Sqrt` is a parameter
`sqrt` of every function that needs it. Where a lemma needs a property of it,
such as `sqrt(0) == 0` or non-negativity, that property is a precondition.

## Model

| member | source | states |
|---|---|---|
| Models.PropertyListing | csharp/PropertyAnalyzer/Models/PropertyListing.cs:4-12 | The input record, field for field. Price and income are exact reals; the area is an integer. A datatype, with no contract. |
| Models.SuburbReport | csharp/PropertyAnalyzer/Models/SuburbReport.cs:4-14 | The output record, field for field. A datatype, with no contract. |
| AnalysisService.YieldThreshold | csharp/PropertyAnalyzer/Services/AnalysisService.cs:10 | The constant 7.0. `Survives` and `GroupYieldAboveThreshold` use it. |
| AnalysisService.ReportSize | csharp/PropertyAnalyzer/Services/AnalysisService.cs:41 | The constant 5. `Take` and `ReportLength` state the length it gives. |
| AnalysisService.RentalYield | csharp/PropertyAnalyzer/Services/AnalysisService.cs:19 | The yield is 0 when the price is not positive. Otherwise yield times price equals 100 times the net annual income. |
| AnalysisService.PricePerSqM | csharp/PropertyAnalyzer/Services/AnalysisService.cs:20 | The metric is 0 when the lettable area is not positive. Otherwise metric times area equals the price. |
| AnalysisService.Survives | csharp/PropertyAnalyzer/Services/AnalysisService.cs:22 | No contract. The body is the filter: the yield is strictly above `YieldThreshold`. `HighYield` and `HighYieldSnoc` state what the filter keeps. |
| AnalysisService.Score | csharp/PropertyAnalyzer/Services/AnalysisService.cs:15-21 | No contract. The body pairs a listing with its `RentalYield` and `PricePerSqM` in a `Scored` record. Those two functions state the metrics. |
| AnalysisService.Yields | csharp/PropertyAnalyzer/Services/AnalysisService.cs:33-38 | No contract. The body projects a group to its members' yields: the i-th element is the i-th member's yield. These are the values that `group.Average(p => p.RentalYield)` at line 33 and `CalculateStdDev(group.Select(p => p.RentalYield))` at line 38 receive. `AnalysisExamples.GoodwoodValues` gives an instance. |
| AnalysisService.Prices | csharp/PropertyAnalyzer/Services/AnalysisService.cs:34-37 | No contract. The body projects a group to its members' prices per square metre: the i-th element is the i-th member's price per square metre. These are the values that `group.Average(p => p.PricePerSqM)` at line 34 and `CalculateMedian(group.Select(p => p.PricePerSqM))` at line 37 receive. `AnalysisExamples.GoodwoodValues` gives an instance. |
| AnalysisService.HighYield | csharp/PropertyAnalyzer/Services/AnalysisService.cs:14-23 | Every kept element is a scored input listing whose yield is strictly above 7. Every such input listing is kept. |
| AnalysisService.Members | csharp/PropertyAnalyzer/Services/AnalysisService.cs:27 | A group holds exactly the scored listings of its suburb. It is non-empty exactly when the suburb occurs. |
| AnalysisService.GroupKeys | csharp/PropertyAnalyzer/Services/AnalysisService.cs:27 | The group keys are pairwise distinct. They are exactly the suburbs that occur among the survivors. |
| AnalysisService.CalculateMedian | csharp/PropertyAnalyzer/Services/AnalysisService.cs:48-64 | The median of no values is 0. Otherwise it lies between the least and the greatest value. |
| AnalysisService.Middle | csharp/PropertyAnalyzer/Services/AnalysisService.cs:53-63 | No contract. The body gives the middle element of a sorted sequence, or the mean of the two middle elements for an even count. `MedianOfAscending` states the value this gives. |
| AnalysisService.SortedWithinRange | csharp/PropertyAnalyzer/Services/AnalysisService.cs:52 | Every element of a rearrangement lies between the minimum and maximum of the original values. |
| AnalysisService.SumOfSquares | csharp/PropertyAnalyzer/Services/AnalysisService.cs:71 | No contract. The body sums the squared deviations from a given mean. `SumOfSquaresNonNegative` and `SumOfSquaresOfConstant` state its properties. |
| AnalysisService.SampleVariance | csharp/PropertyAnalyzer/Services/AnalysisService.cs:70-74 | No contract. The body divides the sum of squares by n - 1. `SampleVarianceNonNegative` and `SampleVarianceOfIdenticalValues` state its properties. |
| AnalysisService.CalculateStdDev | csharp/PropertyAnalyzer/Services/AnalysisService.cs:66-75 | The deviation is 0 for at most one value. |
| AnalysisService.GroupReport | csharp/PropertyAnalyzer/Services/AnalysisService.cs:28-39 | No contract. The body builds one suburb's report: the count, and the rounded mean yield, mean price per square metre, median price per square metre and yield deviation. `GroupYieldAboveThreshold`, `ZeroAreaGroupPrices` and the median and deviation lemmas state its statistics. |
| AnalysisService.GroupReports | csharp/PropertyAnalyzer/Services/AnalysisService.cs:25-39 | No contract. The body gives one `GroupReport` per group key, in key order. `GroupReportAt` states that each one is a surviving suburb's report. |
| AnalysisService.AverageYieldOf | csharp/PropertyAnalyzer/Services/AnalysisService.cs:40 | No contract. The ranking key, a report's rounded average yield. |
| AnalysisService.Ranked | csharp/PropertyAnalyzer/Services/AnalysisService.cs:40 | No contract. The body sorts the group reports by `AverageYieldOf`, highest first. `RankedAreGroups`, `RankedNamesDistinct` and `RankedLength` state its contents. |
| AnalysisService.Take | csharp/PropertyAnalyzer/Services/AnalysisService.cs:41 | The result is the prefix of length min(5, n). |
| AnalysisService.AnalyzeProperties | csharp/PropertyAnalyzer/Services/AnalysisService.cs:12-45 | At most five reports are returned, in non-increasing order of average yield. |
| Numeric.Sum | csharp/PropertyAnalyzer/Services/AnalysisService.cs:33-34 | No contract. The body is a left fold of addition, like the LINQ `Sum` behind `Average` and the sum of squares at line 71. `SumBounds` and `SumAbove` state its bounds. |
| Numeric.Average | csharp/PropertyAnalyzer/Services/AnalysisService.cs:33-34 | No contract. The body is the sum divided by the count. It requires a non-empty sequence, as LINQ `Average` throws on an empty one. `AverageBetween`, `AverageWithinRange`, `AverageAbove` and `AverageOfConstant` state its meaning. |
| Numeric.Min | csharp/PropertyAnalyzer/Services/AnalysisService.cs:33 | The minimum is an element and is no greater than any element. |
| Numeric.Max | csharp/PropertyAnalyzer/Services/AnalysisService.cs:33 | The maximum is an element and is no less than any element. |
| Numeric.Round2 | csharp/PropertyAnalyzer/Services/AnalysisService.cs:33-38 | The result is a whole number of hundredths, within 0.005 of its argument. |
| Numeric.Round2Monotone | csharp/PropertyAnalyzer/Services/AnalysisService.cs:33-40 | Rounding to two decimals never reverses the order of two values. |
| Numeric.Round2OfHundredths | csharp/PropertyAnalyzer/Services/AnalysisService.cs:33-38 | A value with at most two decimals is left unchanged by rounding. |
| Numeric.Round2Midpoint | csharp/PropertyAnalyzer/Services/AnalysisService.cs:33-38 | A value exactly halfway between two hundredths rounds to the even one, which is `Math.Round`'s default midpoint rule. Together with `Round2`'s contract this fixes the result for every argument. |
| Numeric.SumBounds | csharp/PropertyAnalyzer/Services/AnalysisService.cs:33-34 | A sum lies between n times a lower bound and n times an upper bound of its terms. |
| Numeric.SumAbove | csharp/PropertyAnalyzer/Services/AnalysisService.cs:33 | A non-empty sum of terms above c exceeds n times c. |
| Numeric.DivideBounds | csharp/PropertyAnalyzer/Services/AnalysisService.cs:33-34 | Proof helper, for the lemmas about the cited lines. Dividing by a positive count keeps lower, upper and strict lower bounds. |
| Numeric.AverageBetween | csharp/PropertyAnalyzer/Services/AnalysisService.cs:33-34 | An average lies between any lower and any upper bound of its terms. |
| Numeric.AverageWithinRange | csharp/PropertyAnalyzer/Services/AnalysisService.cs:33-34 | An average lies between the least and the greatest term. |
| Numeric.AverageAbove | csharp/PropertyAnalyzer/Services/AnalysisService.cs:33 | If every term is above c, the average is above c. |
| Numeric.AverageOfConstant | csharp/PropertyAnalyzer/Services/AnalysisService.cs:33-34 | The average of terms that all equal c is c. |
| Numeric.SumAppend | csharp/PropertyAnalyzer/Services/AnalysisService.cs:33-34 | Proof helper, for the lemmas about the cited lines. The sum of a concatenation is the sum of the two sums. |
| Numeric.SumSnoc | csharp/PropertyAnalyzer/Services/AnalysisService.cs:33-34 | Proof helper, for the lemmas about the cited lines. Appending one term adds it to the sum. |
| Numeric.SumSplit | csharp/PropertyAnalyzer/Services/AnalysisService.cs:33-34 | Proof helper, for the lemmas about the cited lines. A term in the middle of a sequence contributes itself to the sum. |
| Numeric.SumPermutation | csharp/PropertyAnalyzer/Services/AnalysisService.cs:26-34 | The sum depends only on the multiset of terms, not on their order. |
| Numeric.AverageOrderIndependent | csharp/PropertyAnalyzer/Services/AnalysisService.cs:26-34 | The average depends only on the multiset of terms, not on their order. |
| Sorting.Insert | csharp/PropertyAnalyzer/Services/AnalysisService.cs:52 | Inserting into an ascending sequence gives an ascending sequence with the element added. |
| Sorting.PrependAscending | csharp/PropertyAnalyzer/Services/AnalysisService.cs:52 | A value no larger than the head of an ascending sequence can be put in front of it and the sequence stays ascending. |
| Sorting.OrderBy | csharp/PropertyAnalyzer/Services/AnalysisService.cs:52 | The result is ascending and a permutation of the input. |
| Sorting.AscendingSameHead | csharp/PropertyAnalyzer/Services/AnalysisService.cs:52 | Two non-empty ascending arrangements of the same values start with the same value. |
| Sorting.AscendingTail | csharp/PropertyAnalyzer/Services/AnalysisService.cs:52 | The tail of an ascending sequence is ascending and holds the rest of its values. |
| Sorting.AscendingUnique | csharp/PropertyAnalyzer/Services/AnalysisService.cs:52 | Two ascending arrangements of the same values are equal. |
| Sorting.OrderByOfAscending | csharp/PropertyAnalyzer/Services/AnalysisService.cs:52 | Sorting an ascending sequence returns it unchanged. |
| Sorting.OrderByPermutation | csharp/PropertyAnalyzer/Services/AnalysisService.cs:52 | Sorting gives the same result for any rearrangement of the input. |
| Sorting.HeadBelowInserted | csharp/PropertyAnalyzer/Services/AnalysisService.cs:52 | The head of an ascending sequence stays below everything after a larger element is inserted into its tail. |
| Sorting.InsertDescending | csharp/PropertyAnalyzer/Services/AnalysisService.cs:40 | Inserting into a key-descending sequence keeps it key-descending, with the element added. |
| Sorting.PrependDescending | csharp/PropertyAnalyzer/Services/AnalysisService.cs:40 | An element whose key is at least the head's key can be put in front of a key-descending sequence and it stays key-descending. |
| Sorting.HeadAboveInserted | csharp/PropertyAnalyzer/Services/AnalysisService.cs:40 | The head of a key-descending sequence keeps the largest key after a lower-keyed element is inserted into its tail. |
| Sorting.OrderByDescending | csharp/PropertyAnalyzer/Services/AnalysisService.cs:40 | The result is in non-increasing key order and is a permutation of the input. |
| Sorting.PrefixDominates | csharp/PropertyAnalyzer/Services/AnalysisService.cs:40-41 | In a key-descending sequence, every element before position n has a key at least that of any element from n on. |
| Sorting.OutsidePrefixDominated | csharp/PropertyAnalyzer/Services/AnalysisService.cs:40-41 | In a key-descending sequence, an element outside the first n has a key no higher than any of the first n. |
| Sorting.SortedMember | csharp/PropertyAnalyzer/Services/AnalysisService.cs:40 | Every element of the key-sorted sequence is an element of the input. |
| Collections.DistinctPermutation | csharp/PropertyAnalyzer/Services/AnalysisService.cs:40 | A rearrangement of a sequence without repeats has no repeats. |
| Collections.DistinctCardinality | csharp/PropertyAnalyzer/Services/AnalysisService.cs:27 | A sequence without repeats has as many elements as distinct values. |
| Collections.MultisetRemove | csharp/PropertyAnalyzer/Services/AnalysisService.cs:26-27 | Proof helper, for the lemmas about the cited lines. Removing the element at a position removes one occurrence of it from the multiset. |
| Collections.ProjectionRemove | csharp/PropertyAnalyzer/Services/AnalysisService.cs:26-27 | Proof helper, for the lemmas about the cited lines. Removing a position from a sequence and from its projection leaves the projection of what remains, and takes the removed value off the multiset. |
| Collections.ProjectionPermutation | csharp/PropertyAnalyzer/Services/AnalysisService.cs:33-38 | Projecting two rearrangements of the same elements gives two rearrangements of the same values. |
| Collections.OneOfTwo | csharp/PropertyAnalyzer/Services/AnalysisService.cs:27 | Proof helper, for the lemmas about the cited lines. In a set of exactly two distinct elements a and b, every element is a or b. |
| Collections.SubsetCardinality | csharp/PropertyAnalyzer/Services/AnalysisService.cs:27 | Proof helper, for the lemmas about the cited lines. A subset has no more elements than its superset. |
| AnalysisProperties.SuburbsOfHighYield | csharp/PropertyAnalyzer/Services/AnalysisService.cs:14-27 | The suburbs of the kept listings are exactly the suburbs that have a listing above the threshold. |
| AnalysisProperties.GroupReportAt | csharp/PropertyAnalyzer/Services/AnalysisService.cs:25-39 | The group report at any position names a surviving suburb and is that suburb's report. |
| AnalysisProperties.RankedReportIsGroup | csharp/PropertyAnalyzer/Services/AnalysisService.cs:25-40 | A ranked report names a surviving suburb and is that suburb's report. |
| AnalysisProperties.RankedAreGroups | csharp/PropertyAnalyzer/Services/AnalysisService.cs:25-40 | Every ranked report is the report of a surviving suburb, under that suburb's name. |
| AnalysisProperties.NamesDistinctPermutation | csharp/PropertyAnalyzer/Services/AnalysisService.cs:40 | Ranking does not introduce a repeated name. |
| AnalysisProperties.RankedNamesDistinct | csharp/PropertyAnalyzer/Services/AnalysisService.cs:27-40 | No suburb appears twice among the ranked reports. |
| AnalysisProperties.RankedLength | csharp/PropertyAnalyzer/Services/AnalysisService.cs:25-40 | There is one ranked report per surviving suburb. |
| AnalysisProperties.HighYieldSnoc | csharp/PropertyAnalyzer/Services/AnalysisService.cs:14-23 | Filtering a list with one listing appended keeps the filtered prefix and adds the listing exactly when it survives. The filter therefore keeps input order. |
| AnalysisProperties.MembersSnoc | csharp/PropertyAnalyzer/Services/AnalysisService.cs:27 | Appending an element to the scored listings appends it to its own suburb's group and leaves the other groups unchanged. So the model keeps input order within a group; the source leaves that order unspecified, and `GroupReportOrderIndependent` shows that the reports do not depend on it. |
| AnalysisProperties.SurvivorPositionsSnoc | csharp/PropertyAnalyzer/Services/AnalysisService.cs:22 | Appending a listing adds its new position to the survivor positions of its suburb exactly when it survives. |
| AnalysisProperties.SurvivorsOfSnoc | csharp/PropertyAnalyzer/Services/AnalysisService.cs:22-31 | Appending a listing appends it, scored, to its suburb's group exactly when it survives, and leaves every other group unchanged. So each group is its suburb's surviving listings, in the input order the model fixes. |
| AnalysisProperties.SurvivorCountSnoc | csharp/PropertyAnalyzer/Services/AnalysisService.cs:22 | Appending a listing raises its suburb's survivor count by one exactly when the listing survives, and leaves other counts unchanged. |
| AnalysisProperties.SurvivorsOfCount | csharp/PropertyAnalyzer/Services/AnalysisService.cs:22-31 | A suburb's group has one member per surviving input listing of that suburb. |
| AnalysisProperties.SurvivorIsRanked | csharp/PropertyAnalyzer/Services/AnalysisService.cs:25-40 | The report of every surviving suburb is among the ranked reports. |
| AnalysisProperties.ReportsDescribeSurvivingSuburbs | csharp/PropertyAnalyzer/Services/AnalysisService.cs:25-42 | Every output report names a surviving suburb and carries that suburb's statistics. Its property count is the number of surviving input listings of that suburb. |
| AnalysisProperties.ReportNamesDistinct | csharp/PropertyAnalyzer/Services/AnalysisService.cs:27-42 | No suburb is reported twice. |
| AnalysisProperties.ReportLength | csharp/PropertyAnalyzer/Services/AnalysisService.cs:40-42 | The output length is min(5, number of surviving suburbs). |
| AnalysisProperties.EmptyReportIffNoSurvivor | csharp/PropertyAnalyzer/Services/AnalysisService.cs:14-42 | The output is empty exactly when no listing has a yield above 7. |
| AnalysisProperties.TopFiveOptimal | csharp/PropertyAnalyzer/Services/AnalysisService.cs:40-41 | A surviving suburb left out of the output has an average yield no higher than that of any reported suburb. |
| AnalysisProperties.SuburbReportName | csharp/PropertyAnalyzer/Services/AnalysisService.cs:30 | The report of a surviving suburb carries that suburb's name. |
| AnalysisProperties.GroupYieldAboveThreshold | csharp/PropertyAnalyzer/Services/AnalysisService.cs:22-33 | A reported group's mean yield is above 7 and between its members' least and greatest yield. The rounded value is at least 7. |
| AnalysisProperties.ZeroAreaGroupPrices | csharp/PropertyAnalyzer/Services/AnalysisService.cs:20-37 | If every surviving listing of a suburb has no positive area, both its mean and its median price per square metre are 0. |
| AnalysisProperties.MedianOfConstant | csharp/PropertyAnalyzer/Services/AnalysisService.cs:48-64 | The median of values that all equal c is c. |
| AnalysisProperties.MedianOrderIndependent | csharp/PropertyAnalyzer/Services/AnalysisService.cs:48-64 | The median depends only on the multiset of values, not on their order. |
| AnalysisProperties.MedianOfAscending | csharp/PropertyAnalyzer/Services/AnalysisService.cs:53-63 | On ascending values, the median of an odd count is the middle value. For an even count it is the mean of the two middle values. |
| AnalysisProperties.MedianExamples | csharp/PropertyAnalyzer/Services/AnalysisService.cs:56-63 | The median of [10000, 10000] is 10000. The median of [1, 2, 3, 4] is 2.5. |
| AnalysisProperties.SumOfSquaresNonNegative | csharp/PropertyAnalyzer/Services/AnalysisService.cs:71 | A sum of squared deviations is never negative. |
| AnalysisProperties.SumOfSquaresOfConstant | csharp/PropertyAnalyzer/Services/AnalysisService.cs:71 | Values that all equal the mean have a zero sum of squares. |
| AnalysisProperties.SampleVarianceNonNegative | csharp/PropertyAnalyzer/Services/AnalysisService.cs:70-74 | The sample variance, with divisor n - 1, is never negative. |
| AnalysisProperties.SampleVarianceOfIdenticalValues | csharp/PropertyAnalyzer/Services/AnalysisService.cs:70-74 | Identical values have a sample variance of 0. |
| AnalysisProperties.StdDevOfIdenticalValues | csharp/PropertyAnalyzer/Services/AnalysisService.cs:66-75 | Identical values have a standard deviation of 0, for a square root with sqrt(0) = 0. |
| AnalysisProperties.StdDevNonNegative | csharp/PropertyAnalyzer/Services/AnalysisService.cs:66-75 | The standard deviation is never negative, for a square root that is non-negative on non-negative arguments. |
| AnalysisProperties.SumOfSquaresIsSum | csharp/PropertyAnalyzer/Services/AnalysisService.cs:71 | The sum of squares equals the sum of the sequence of squared deviations. |
| AnalysisProperties.SumOfSquaresOrderIndependent | csharp/PropertyAnalyzer/Services/AnalysisService.cs:71 | The sum of squared deviations depends only on the multiset of values. |
| AnalysisProperties.SampleVarianceOrderIndependent | csharp/PropertyAnalyzer/Services/AnalysisService.cs:70-74 | The sample variance depends only on the multiset of values. |
| AnalysisProperties.GroupReportOrderIndependent | csharp/PropertyAnalyzer/Services/AnalysisService.cs:26-39 | Two rearrangements of the same group give the same report: count, mean yield, mean and median price per square metre, and deviation. |
| AnalysisProperties.SuburbReportAnyOrder | csharp/PropertyAnalyzer/Services/AnalysisService.cs:26-39 | Any rearrangement of a surviving suburb's listings, as a parallel grouping may produce, is non-empty and gives exactly that suburb's report. |
| AnalysisExamples.EmptyInputGivesEmptyReport | csharp/PropertyAnalyser.Tests/AnalysisServiceTests.cs:58-72 | An empty input gives an empty report. |
| AnalysisExamples.ZeroPriceGivesEmptyReport | csharp/PropertyAnalyser.Tests/AnalysisServiceTests.cs:74-93 | A single listing priced at 0 has yield 0, is filtered out, and the report is empty. |
| AnalysisExamples.ZeroAreaReportsZeroPricePerSqM | csharp/PropertyAnalyser.Tests/AnalysisServiceTests.cs:95-116 | A single listing with area 0 gives one report, for Goodwood, with mean and median price per square metre 0. |
| AnalysisExamples.RankingYields | csharp/PropertyAnalyser.Tests/AnalysisServiceTests.cs:15-28 | The test listings have yields 10, 5 and 8. Only the Clifton listing fails the threshold. |
| AnalysisExamples.GoodwoodPairSurvives | csharp/PropertyAnalyser.Tests/AnalysisServiceTests.cs:19-20 | Both Goodwood listings pass the filter. |
| AnalysisExamples.FirstThreeSurvivors | csharp/PropertyAnalyser.Tests/AnalysisServiceTests.cs:19-23 | Of the first three test listings, both Goodwood listings survive and Clifton is filtered out. |
| AnalysisExamples.RankingHighYield | csharp/PropertyAnalyser.Tests/AnalysisServiceTests.cs:15-28 | The filter keeps Goodwood, Goodwood and Observatory, in that order. |
| AnalysisExamples.SuburbsOfTriple | csharp/PropertyAnalyzer/Services/AnalysisService.cs:27 | Proof helper, for the lemmas about the cited lines. Three scored listings whose first two share a suburb cover just two suburbs. |
| AnalysisExamples.RankingSurvivors | csharp/PropertyAnalyser.Tests/AnalysisServiceTests.cs:15-39 | The surviving suburbs are exactly Goodwood and Observatory, two in all. |
| AnalysisExamples.GoodwoodPairGroup | csharp/PropertyAnalyser.Tests/AnalysisServiceTests.cs:19-20 | The two Goodwood listings form the Goodwood group. |
| AnalysisExamples.GoodwoodOfSurvivors | csharp/PropertyAnalyser.Tests/AnalysisServiceTests.cs:15-28 | Among the three survivors, Goodwood's group is its two listings. |
| AnalysisExamples.GoodwoodGroup | csharp/PropertyAnalyser.Tests/AnalysisServiceTests.cs:15-28 | Goodwood's group holds its two listings. |
| AnalysisExamples.NoObservatoryAmongGoodwood | csharp/PropertyAnalyser.Tests/AnalysisServiceTests.cs:19-20 | The Goodwood listings contribute nothing to the Observatory group. |
| AnalysisExamples.ObservatoryOfSurvivors | csharp/PropertyAnalyser.Tests/AnalysisServiceTests.cs:25-27 | Among the three survivors, Observatory's group is its one listing. |
| AnalysisExamples.ObservatoryGroup | csharp/PropertyAnalyser.Tests/AnalysisServiceTests.cs:25-27 | Observatory's group holds its one listing. |
| AnalysisExamples.GoodwoodValues | csharp/PropertyAnalyser.Tests/AnalysisServiceTests.cs:49-54 | Goodwood's yields are [10, 10] and its prices per square metre are [10000, 10000]. |
| AnalysisExamples.GoodwoodMeanYield | csharp/PropertyAnalyser.Tests/AnalysisServiceTests.cs:44-45 | The mean of [10, 10] is 10. |
| AnalysisExamples.GoodwoodStdDev | csharp/PropertyAnalyser.Tests/AnalysisServiceTests.cs:53-55 | The standard deviation of [10, 10] is 0. |
| AnalysisExamples.GoodwoodGroupReport | csharp/PropertyAnalyser.Tests/AnalysisServiceTests.cs:44-55 | Goodwood's group report has average yield 10, median price per square metre 10000 and standard deviation 0. |
| AnalysisExamples.GoodwoodReport | csharp/PropertyAnalyser.Tests/AnalysisServiceTests.cs:41-55 | Goodwood survives, and its report has average yield 10, median price per square metre 10000 and standard deviation 0. |
| AnalysisExamples.ObservatoryGroupReport | csharp/PropertyAnalyser.Tests/AnalysisServiceTests.cs:25-27 | The report of Observatory's one-listing group has average yield 8. |
| AnalysisExamples.ObservatoryReport | csharp/PropertyAnalyser.Tests/AnalysisServiceTests.cs:25-27 | Observatory survives with average yield 8. |
| AnalysisExamples.ReportsOfTwo | csharp/PropertyAnalyzer/Services/AnalysisService.cs:25-42 | With exactly two surviving suburbs, each report is the report of one of them. |
| AnalysisExamples.ReportsOfTwoCount | csharp/PropertyAnalyzer/Services/AnalysisService.cs:40-42 | Two surviving suburbs give two reports. |
| AnalysisExamples.LeadingPair | csharp/PropertyAnalyzer/Services/AnalysisService.cs:40-42 | The first two reports name different suburbs. The first has the higher or equal average yield. |
| AnalysisExamples.PairOrder | csharp/PropertyAnalyzer/Services/AnalysisService.cs:40 | Two differently named reports taken from {hi, lo}, in non-increasing order, are [hi, lo] when hi's yield is strictly higher. |
| AnalysisExamples.TwoSuburbRanking | csharp/PropertyAnalyzer/Services/AnalysisService.cs:25-42 | With exactly two surviving suburbs, the output is exactly the higher-yield suburb's report followed by the other's. |
| AnalysisExamples.RankedSuburbsOutcome | csharp/PropertyAnalyser.Tests/AnalysisServiceTests.cs:39-55 | For any listings whose two surviving suburbs are Goodwood and Observatory, with the test's statistics, the output has two reports, no Clifton, and Goodwood first with yield 10, median 10000 and deviation 0. |
| AnalysisExamples.PairOutcome | csharp/PropertyAnalyser.Tests/AnalysisServiceTests.cs:39-42 | Proof helper, for the lemmas about the cited lines. An output of Goodwood's report followed by Observatory's has two reports, no Clifton, and Goodwood first. |
| AnalysisExamples.RankedSuburbsExample | csharp/PropertyAnalyser.Tests/AnalysisServiceTests.cs:11-56 | The output has two reports and no Clifton. Goodwood is first, with average yield 10, median price per square metre 10000 and standard deviation 0. |

## Left out

- Reading the CSV file, writing the report, timing, and the command line live in `Program.cs` and `CsvLoader.cs`. They are not part of this model.
- The Python implementation and the data generator are not part of this model.
- `AsParallel()` (`AnalysisService.cs:26`) runs the grouping in parallel, without `AsOrdered()`. Three orders are therefore unspecified: the order of the groups, the order of the listings within each group, and the order among suburbs with equal rounded average yield.
  - The model fixes one order: listings in input order within a group, groups in order of first appearance, and a stable sort.
  - The order within a group does not change any report: `AnalysisProperties.GroupReportOrderIndependent` and `AnalysisProperties.SuburbReportAnyOrder` prove that a group's report depends only on which listings it holds.
  - Every property in `AnalysisProperties` holds whatever order the ties take. Two things in the model depend on this choice: the exact order of tied reports and, when suburbs tie at fifth place, which of them are reported.
- Numbers are exact `real`s.
  - The model does not reproduce `decimal` division, the cast to `double`, or binary floating-point rounding (including in `Math.Round` and the sums).
  - This can change the filter's decision at the threshold. With income 70,000 on price 1,000,000, the source computes `(double)0.07m * 100`. That double product lies slightly above 7.0, so the source keeps the listing at line 22. The model's exact yield is 7, which is not above the threshold, so the model drops it. Any listing whose exact yield is 7 is such a case.
  - `p.NetAnnualIncome / p.Price` (`AnalysisService.cs:19`) is a `decimal` division. It throws `OverflowException` when the quotient exceeds the range of `decimal`, for example with a very small positive price. `AnalysisService.RentalYield` returns the exact quotient there instead, and the model has no error path for it.
  - `Numeric.Round2` is round-half-to-even on exact values.
- `Math.Sqrt` is not modelled. It is the parameter `sqrt`, and lemmas assume of it only what they state in their preconditions.
- `PropertyListing.grossLettableArea` stays an `int`, as in the record. The price and the net annual income are `real`.
- AnalysisService.CalculateStdDev: its contract states only the case of at most one value. The value for more values is `sqrt` applied to `SampleVariance`, and the variance lemmas in `AnalysisProperties` state that variance's properties.
- AnalysisProperties.SampleVarianceOfIdenticalValues: proves only that identical values have variance 0. The converse, that variance 0 means identical values, is not stated.
- AnalysisService.HighYield: its contract states membership in both directions. The preservation of input order is stated in `AnalysisProperties.HighYieldSnoc`.
