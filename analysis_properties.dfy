/** What the engine promises. `SurvivingSuburbs` and `SurvivorCount` are
    stated directly from the input listings; `SurvivorsOf` and
    `SuburbReportFor` name the engine's own group of a suburb and its report,
    and the lemmas pin that group to the listings. */
module AnalysisProperties {
  import opened Models
  import opened Numeric
  import opened Sorting
  import opened Collections
  import opened AnalysisService

  /** The suburbs that have at least one listing passing the yield filter. */
  ghost function SurvivingSuburbs(listings: seq<PropertyListing>): set<string> {
    set p | p in listings && Survives(p) :: p.suburb
  }

  /** How many input listings of `suburb` pass the yield filter. */
  ghost function SurvivorCount(listings: seq<PropertyListing>, suburb: string): nat {
    |SurvivorPositions(listings, suburb)|
  }

  /** The surviving listings of one suburb, scored, in input order. */
  function SurvivorsOf(listings: seq<PropertyListing>, suburb: string): seq<Scored> {
    Members(HighYield(listings), suburb)
  }

  /** The report the engine computes for a surviving suburb. */
  ghost function SuburbReportFor(listings: seq<PropertyListing>, suburb: string, sqrt: real -> real): SuburbReport
    requires suburb in SurvivingSuburbs(listings)
  {
    SuburbsOfHighYield(listings);
    GroupReport(suburb, SurvivorsOf(listings, suburb), sqrt)
  }

  /** The groups the engine forms are exactly the surviving suburbs. */
  lemma SuburbsOfHighYield(listings: seq<PropertyListing>)
    ensures Suburbs(HighYield(listings)) == SurvivingSuburbs(listings)
  {
    var h := HighYield(listings);
    forall k | k in SurvivingSuburbs(listings) ensures k in Suburbs(h) {
      var p :| p in listings && Survives(p) && p.suburb == k;
      assert Score(p) in h;
      var i :| 0 <= i < |h| && h[i] == Score(p);
      assert h[i].listing.suburb == k;
    }
    forall k | k in Suburbs(h) ensures k in SurvivingSuburbs(listings) {
      var i :| 0 <= i < |h| && h[i].listing.suburb == k;
      assert h[i].listing in listings && Survives(h[i].listing);
    }
  }

  /** The group report at position `j` is the report of a surviving suburb,
      under that suburb's name. */
  lemma GroupReportAt(listings: seq<PropertyListing>, sqrt: real -> real, j: nat)
    requires j < |GroupReports(HighYield(listings), sqrt)|
    ensures GroupReports(HighYield(listings), sqrt)[j].name in SurvivingSuburbs(listings)
    ensures GroupReports(HighYield(listings), sqrt)[j] ==
      SuburbReportFor(listings, GroupReports(HighYield(listings), sqrt)[j].name, sqrt)
  {
    var keys := GroupKeys(HighYield(listings));
    SuburbsOfHighYield(listings);
    assert keys[j] in keys;
  }

  /** A ranked report is the report of a surviving suburb, under that suburb's name. */
  lemma RankedReportIsGroup(listings: seq<PropertyListing>, sqrt: real -> real, r: SuburbReport)
    requires r in Ranked(listings, sqrt)
    ensures r.name in SurvivingSuburbs(listings) && r == SuburbReportFor(listings, r.name, sqrt)
  {
    var reports := GroupReports(HighYield(listings), sqrt);
    SortedMember(reports, AverageYieldOf, r);
    var j :| 0 <= j < |reports| && reports[j] == r;
    GroupReportAt(listings, sqrt, j);
  }

  /** Every ranked report is the report of a surviving suburb, under that suburb's name. */
  lemma RankedAreGroups(listings: seq<PropertyListing>, sqrt: real -> real)
    ensures forall r :: r in Ranked(listings, sqrt) ==>
      r.name in SurvivingSuburbs(listings) && r == SuburbReportFor(listings, r.name, sqrt)
  {
    forall r | r in Ranked(listings, sqrt)
      ensures r.name in SurvivingSuburbs(listings) && r == SuburbReportFor(listings, r.name, sqrt)
    {
      RankedReportIsGroup(listings, sqrt, r);
    }
  }

  /** The reports of a sequence have pairwise different names. */
  ghost predicate NamesDistinct(reports: seq<SuburbReport>) {
    forall i, j :: 0 <= i < j < |reports| ==> reports[i].name != reports[j].name
  }

  /** Rearranging reports with different names keeps the names different. */
  lemma NamesDistinctPermutation(a: seq<SuburbReport>, b: seq<SuburbReport>)
    requires NamesDistinct(a)
    requires multiset(a) == multiset(b)
    ensures NamesDistinct(b)
  {
    assert Distinct(a);
    DistinctPermutation(a, b);
    forall i, j | 0 <= i < j < |b| ensures b[i].name != b[j].name {
      assert b[i] in multiset(a) && b[j] in multiset(a);
      var x :| 0 <= x < |a| && a[x] == b[i];
      var y :| 0 <= y < |a| && a[y] == b[j];
      assert x != y;
    }
  }

  /** The ranked reports have pairwise different names. */
  lemma RankedNamesDistinct(listings: seq<PropertyListing>, sqrt: real -> real)
    ensures NamesDistinct(Ranked(listings, sqrt))
  {
    var h := HighYield(listings);
    var reports := GroupReports(h, sqrt);
    assert NamesDistinct(reports);
    NamesDistinctPermutation(reports, Ranked(listings, sqrt));
  }

  /** How many suburbs are ranked: one per surviving suburb. */
  lemma RankedLength(listings: seq<PropertyListing>, sqrt: real -> real)
    ensures |Ranked(listings, sqrt)| == |SurvivingSuburbs(listings)|
  {
    var h := HighYield(listings);
    var keys := GroupKeys(h);
    DistinctCardinality(keys);
    assert (set x | x in keys) == Suburbs(h);
    SuburbsOfHighYield(listings);
    var reports := GroupReports(h, sqrt);
    assert |multiset(Ranked(listings, sqrt))| == |multiset(reports)|;
  }

  /** Filtering a listing appended at the end. */
  lemma HighYieldSnoc(init: seq<PropertyListing>, p: PropertyListing)
    ensures HighYield(init + [p]) == HighYield(init) + (if Survives(p) then [Score(p)] else [])
  {
    assert (init + [p])[..|init|] == init;
  }

  /** Grouping a scored listing appended at the end. */
  lemma MembersSnoc(s: seq<Scored>, x: Scored, suburb: string)
    ensures Members(s + [x], suburb) == Members(s, suburb) + (if x.listing.suburb == suburb then [x] else [])
  {
    assert (s + [x])[..|s|] == s;
  }

  /** The positions of the input listings of `suburb` that pass the yield filter. */
  ghost function SurvivorPositions(listings: seq<PropertyListing>, suburb: string): set<nat> {
    set i: nat | i < |listings| && listings[i].suburb == suburb && Survives(listings[i])
  }

  /** Appending a listing adds its position when it is a survivor of `suburb`,
      and that position is new. */
  lemma SurvivorPositionsSnoc(init: seq<PropertyListing>, p: PropertyListing, suburb: string)
    ensures SurvivorPositions(init + [p], suburb) ==
      SurvivorPositions(init, suburb) + (if p.suburb == suburb && Survives(p) then {|init|} else {})
    ensures |init| !in SurvivorPositions(init, suburb)
  {
    var ls := init + [p];
    assert forall i :: 0 <= i < |init| ==> ls[i] == init[i];
  }

  /** Appending a listing appends it, scored, to its suburb's group exactly
      when it survives, and leaves every other group as it was. Together with
      `SurvivorsOf([], suburb) == []` this fixes each group from the listings. */
  lemma SurvivorsOfSnoc(init: seq<PropertyListing>, p: PropertyListing, suburb: string)
    ensures SurvivorsOf(init + [p], suburb) ==
      SurvivorsOf(init, suburb) + (if p.suburb == suburb && Survives(p) then [Score(p)] else [])
    ensures |SurvivorsOf(init + [p], suburb)| ==
      |SurvivorsOf(init, suburb)| + (if p.suburb == suburb && Survives(p) then 1 else 0)
  {
    HighYieldSnoc(init, p);
    if Survives(p) {
      MembersSnoc(HighYield(init), Score(p), suburb);
    }
  }

  /** Appending a listing raises its suburb's survivor count by one exactly when it survives. */
  lemma SurvivorCountSnoc(init: seq<PropertyListing>, p: PropertyListing, suburb: string)
    ensures SurvivorCount(init + [p], suburb) ==
      SurvivorCount(init, suburb) + (if p.suburb == suburb && Survives(p) then 1 else 0)
  {
    SurvivorPositionsSnoc(init, p, suburb);
  }

  /** A group has one member per surviving input listing of its suburb. */
  lemma {:induction false} SurvivorsOfCount(listings: seq<PropertyListing>, suburb: string)
    ensures |SurvivorsOf(listings, suburb)| == SurvivorCount(listings, suburb)
  {
    if |listings| > 0 {
      var init := listings[..|listings| - 1];
      var p := listings[|listings| - 1];
      assert listings == init + [p];
      SurvivorsOfCount(init, suburb);
      SurvivorsOfSnoc(init, p, suburb);
      SurvivorCountSnoc(init, p, suburb);
    } else {
      assert SurvivorPositions(listings, suburb) == {};
    }
  }

  /** The engine's report for a surviving suburb is among the ranked reports. */
  lemma SurvivorIsRanked(listings: seq<PropertyListing>, sqrt: real -> real, suburb: string)
    requires suburb in SurvivingSuburbs(listings)
    ensures SuburbReportFor(listings, suburb, sqrt) in Ranked(listings, sqrt)
  {
    var h := HighYield(listings);
    var keys := GroupKeys(h);
    var reports := GroupReports(h, sqrt);
    SuburbsOfHighYield(listings);
    var j :| 0 <= j < |keys| && keys[j] == suburb;
    assert reports[j] == SuburbReportFor(listings, suburb, sqrt);
    assert reports[j] in multiset(Ranked(listings, sqrt));
  }

  /** Every report describes a surviving suburb: it carries that suburb's
      statistics and counts exactly the suburb's surviving input listings. */
  lemma ReportsDescribeSurvivingSuburbs(listings: seq<PropertyListing>, sqrt: real -> real)
    ensures forall r :: r in AnalyzeProperties(listings, sqrt) ==>
      && r.name in SurvivingSuburbs(listings)
      && r == SuburbReportFor(listings, r.name, sqrt)
      && r.propertyCount == SurvivorCount(listings, r.name)
  {
    RankedAreGroups(listings, sqrt);
    forall r | r in AnalyzeProperties(listings, sqrt)
      ensures r.name in SurvivingSuburbs(listings)
      ensures r == SuburbReportFor(listings, r.name, sqrt)
      ensures r.propertyCount == SurvivorCount(listings, r.name)
    {
      assert r in Ranked(listings, sqrt);
      SurvivorsOfCount(listings, r.name);
    }
  }

  /** No suburb is reported twice. */
  lemma ReportNamesDistinct(listings: seq<PropertyListing>, sqrt: real -> real)
    ensures NamesDistinct(AnalyzeProperties(listings, sqrt))
  {
    RankedNamesDistinct(listings, sqrt);
  }

  /** The report has one entry per surviving suburb, up to five. */
  lemma ReportLength(listings: seq<PropertyListing>, sqrt: real -> real)
    ensures |AnalyzeProperties(listings, sqrt)| ==
      if |SurvivingSuburbs(listings)| < ReportSize then |SurvivingSuburbs(listings)| else ReportSize
  {
    RankedLength(listings, sqrt);
  }

  /** The report is empty exactly when no listing passes the yield filter. */
  lemma EmptyReportIffNoSurvivor(listings: seq<PropertyListing>, sqrt: real -> real)
    ensures AnalyzeProperties(listings, sqrt) == [] <==> forall p :: p in listings ==> !Survives(p)
  {
    ReportLength(listings, sqrt);
    if exists p :: p in listings && Survives(p) {
      var p :| p in listings && Survives(p);
      assert p.suburb in SurvivingSuburbs(listings);
    } else {
      assert SurvivingSuburbs(listings) == {};
    }
  }

  /** A surviving suburb left out of the report has an average yield no
      higher than that of any reported suburb. */
  lemma TopFiveOptimal(listings: seq<PropertyListing>, sqrt: real -> real, suburb: string)
    requires suburb in SurvivingSuburbs(listings)
    requires forall r :: r in AnalyzeProperties(listings, sqrt) ==> r.name != suburb
    ensures forall r :: r in AnalyzeProperties(listings, sqrt) ==>
      r.averageYield >= SuburbReportFor(listings, suburb, sqrt).averageYield
  {
    var ranked := Ranked(listings, sqrt);
    var out := AnalyzeProperties(listings, sqrt);
    var left := SuburbReportFor(listings, suburb, sqrt);
    SurvivorIsRanked(listings, sqrt, suburb);
    SuburbReportName(listings, suburb, sqrt);
    assert out == ranked[..|out|];
    OutsidePrefixDominated(ranked, AverageYieldOf, |out|, left);
  }

  /** A suburb's report carries the suburb's name. */
  lemma SuburbReportName(listings: seq<PropertyListing>, suburb: string, sqrt: real -> real)
    requires suburb in SurvivingSuburbs(listings)
    ensures SuburbReportFor(listings, suburb, sqrt).name == suburb
  {
  }

  /** The unrounded average yield of a reported group is above the threshold
      and between its members' least and greatest yield; rounding keeps the
      reported average at or above the threshold. */
  lemma GroupYieldAboveThreshold(listings: seq<PropertyListing>, suburb: string, sqrt: real -> real)
    requires suburb in SurvivingSuburbs(listings)
    ensures |Yields(SurvivorsOf(listings, suburb))| > 0
    ensures Average(Yields(SurvivorsOf(listings, suburb))) > YieldThreshold
    ensures Min(Yields(SurvivorsOf(listings, suburb))) <= Average(Yields(SurvivorsOf(listings, suburb)))
    ensures Average(Yields(SurvivorsOf(listings, suburb))) <= Max(Yields(SurvivorsOf(listings, suburb)))
    ensures SuburbReportFor(listings, suburb, sqrt).averageYield >= YieldThreshold
  {
    SuburbsOfHighYield(listings);
    var group := SurvivorsOf(listings, suburb);
    var ys := Yields(group);
    forall i | 0 <= i < |ys| ensures ys[i] > YieldThreshold {
      assert group[i] in HighYield(listings);
    }
    AverageAbove(ys, YieldThreshold);
    AverageWithinRange(ys);
    Round2Monotone(YieldThreshold, Average(ys));
    Round2OfHundredths(700);
  }

  /** In a group whose surviving listings all have no positive area, the mean
      and the median price per square metre are both 0. */
  lemma ZeroAreaGroupPrices(listings: seq<PropertyListing>, suburb: string, sqrt: real -> real)
    requires suburb in SurvivingSuburbs(listings)
    requires forall p :: p in listings && p.suburb == suburb && Survives(p) ==> p.grossLettableArea <= 0
    ensures SuburbReportFor(listings, suburb, sqrt).averagePricePerSqM == 0.0
    ensures SuburbReportFor(listings, suburb, sqrt).medianPricePerSqM == 0.0
  {
    SuburbsOfHighYield(listings);
    var group := SurvivorsOf(listings, suburb);
    var ps := Prices(group);
    forall i | 0 <= i < |ps| ensures ps[i] == 0.0 {
      assert group[i] in HighYield(listings);
    }
    AverageOfConstant(ps, 0.0);
    MedianOfConstant(ps, 0.0);
    Round2OfHundredths(0);
  }

  /** The median of values that are all `c` is `c`. */
  lemma MedianOfConstant(values: seq<real>, c: real)
    requires |values| > 0
    requires forall i :: 0 <= i < |values| ==> values[i] == c
    ensures CalculateMedian(values) == c
  {
    var lo, hi := Min(values), Max(values);
    assert lo == c && hi == c;
  }

  /** The median depends only on which values there are, not on their order. */
  lemma MedianOrderIndependent(a: seq<real>, b: seq<real>)
    requires multiset(a) == multiset(b)
    ensures CalculateMedian(a) == CalculateMedian(b)
  {
    assert |a| == |b| by { assert |multiset(a)| == |multiset(b)|; }
    OrderByPermutation(a, b);
    assert OrderBy(a) == OrderBy(b);
  }

  /** On values already in ascending order the median is the middle value,
      or the mean of the two middle values when the count is even. */
  lemma MedianOfAscending(values: seq<real>)
    requires |values| > 0 && Ascending(values)
    ensures CalculateMedian(values) ==
      if |values| % 2 == 0 then (values[|values| / 2 - 1] + values[|values| / 2]) / 2.0
      else values[|values| / 2]
  {
    OrderByOfAscending(values);
    var sorted := OrderBy(values);
    assert sorted == values;
  }

  /** The median of [10000, 10000] is 10000 and the median of [1, 2, 3, 4] is 2.5. */
  lemma MedianExamples()
    ensures CalculateMedian([10000.0, 10000.0]) == 10000.0
    ensures CalculateMedian([1.0, 2.0, 3.0, 4.0]) == 2.5
  {
    MedianOfAscending([10000.0, 10000.0]);
    MedianOfAscending([1.0, 2.0, 3.0, 4.0]);
  }

  /** A sum of squares is never negative. */
  lemma {:induction false} SumOfSquaresNonNegative(values: seq<real>, avg: real)
    ensures SumOfSquares(values, avg) >= 0.0
  {
    if |values| > 0 {
      var d := values[|values| - 1] - avg;
      SumOfSquaresNonNegative(values[..|values| - 1], avg);
      assert d * d >= 0.0;
    }
  }

  /** The squared deviations from `avg` of values that all equal `avg` sum to 0. */
  lemma {:induction false} SumOfSquaresOfConstant(values: seq<real>, avg: real)
    requires forall i :: 0 <= i < |values| ==> values[i] == avg
    ensures SumOfSquares(values, avg) == 0.0
  {
    if |values| > 0 {
      var init := values[..|values| - 1];
      assert forall i :: 0 <= i < |init| ==> init[i] == values[i];
      SumOfSquaresOfConstant(init, avg);
    }
  }

  /** The sample variance is never negative. */
  lemma SampleVarianceNonNegative(values: seq<real>)
    requires |values| > 1
    ensures SampleVariance(values) >= 0.0
  {
    SumOfSquaresNonNegative(values, Average(values));
    DivideBounds(SumOfSquares(values, Average(values)), (|values| - 1) as real, 0.0, 0.0);
  }

  /** The sample variance of identical values is 0. */
  lemma SampleVarianceOfIdenticalValues(values: seq<real>)
    requires |values| > 1
    requires forall i, j :: 0 <= i < j < |values| ==> values[i] == values[j]
    ensures SampleVariance(values) == 0.0
  {
    forall i | 0 <= i < |values| ensures values[i] == values[0] {
      if i > 0 {
        assert values[0] == values[i];
      }
    }
    AverageOfConstant(values, values[0]);
    SumOfSquaresOfConstant(values, values[0]);
  }

  /** Identical values, or at most one value, give a standard deviation of 0. */
  lemma StdDevOfIdenticalValues(values: seq<real>, sqrt: real -> real)
    requires sqrt(0.0) == 0.0
    requires forall i, j :: 0 <= i < j < |values| ==> values[i] == values[j]
    ensures CalculateStdDev(values, sqrt) == 0.0
  {
    if |values| > 1 {
      SampleVarianceOfIdenticalValues(values);
    }
  }

  /** The sum of squares is the sum of the squared deviations. */
  lemma {:induction false} SumOfSquaresIsSum(values: seq<real>, avg: real, squares: seq<real>)
    requires |squares| == |values|
    requires forall i :: 0 <= i < |values| ==> squares[i] == (values[i] - avg) * (values[i] - avg)
    ensures SumOfSquares(values, avg) == Sum(squares)
  {
    if |values| > 0 {
      var n := |values| - 1;
      SumOfSquaresIsSum(values[..n], avg, squares[..n]);
    }
  }

  /** The sum of squares depends only on which values there are, not on their order. */
  lemma SumOfSquaresOrderIndependent(a: seq<real>, b: seq<real>, avg: real)
    requires multiset(a) == multiset(b)
    ensures SumOfSquares(a, avg) == SumOfSquares(b, avg)
  {
    var f := (v: real) => (v - avg) * (v - avg);
    var sa := seq(|a|, i requires 0 <= i < |a| => f(a[i]));
    var sb := seq(|b|, i requires 0 <= i < |b| => f(b[i]));
    ProjectionPermutation(a, b, sa, sb, f);
    SumOfSquaresIsSum(a, avg, sa);
    SumOfSquaresIsSum(b, avg, sb);
    SumPermutation(sa, sb);
  }

  /** The sample variance depends only on which values there are, not on their order. */
  lemma SampleVarianceOrderIndependent(a: seq<real>, b: seq<real>)
    requires |a| > 1
    requires multiset(a) == multiset(b)
    ensures |b| == |a|
    ensures SampleVariance(a) == SampleVariance(b)
  {
    AverageOrderIndependent(a, b);
    SumOfSquaresOrderIndependent(a, b, Average(a));
  }

  /** A group's report depends only on which listings the group holds, not on
      their order: every statistic the engine computes is order-independent. */
  lemma GroupReportOrderIndependent(suburb: string, g: seq<Scored>, h: seq<Scored>, sqrt: real -> real)
    requires |g| > 0
    requires multiset(g) == multiset(h)
    ensures |h| == |g|
    ensures GroupReport(suburb, g, sqrt) == GroupReport(suburb, h, sqrt)
  {
    assert |multiset(g)| == |multiset(h)|;
    ProjectionPermutation(g, h, Yields(g), Yields(h), (x: Scored) => x.rentalYield);
    ProjectionPermutation(g, h, Prices(g), Prices(h), (x: Scored) => x.pricePerSqM);
    AverageOrderIndependent(Yields(g), Yields(h));
    AverageOrderIndependent(Prices(g), Prices(h));
    MedianOrderIndependent(Prices(g), Prices(h));
    if |g| > 1 {
      SampleVarianceOrderIndependent(Yields(g), Yields(h));
    }
  }

  /** Whatever order a parallel grouping gives a surviving suburb's listings,
      the report computed from them is that suburb's report. */
  lemma SuburbReportAnyOrder(listings: seq<PropertyListing>, suburb: string, sqrt: real -> real, g: seq<Scored>)
    requires suburb in SurvivingSuburbs(listings)
    requires multiset(g) == multiset(SurvivorsOf(listings, suburb))
    ensures |g| > 0
    ensures GroupReport(suburb, g, sqrt) == SuburbReportFor(listings, suburb, sqrt)
  {
    SuburbsOfHighYield(listings);
    GroupReportOrderIndependent(suburb, SurvivorsOf(listings, suburb), g, sqrt);
  }

  /** With a square root that is non-negative on non-negative arguments, the
      standard deviation is never negative. */
  lemma StdDevNonNegative(values: seq<real>, sqrt: real -> real)
    requires forall x :: x >= 0.0 ==> sqrt(x) >= 0.0
    ensures CalculateStdDev(values, sqrt) >= 0.0
  {
    if |values| > 1 {
      SampleVarianceNonNegative(values);
    }
  }
}
