/** The unit-test scenarios of the analysis engine, proved for every
    square-root function that maps 0 to 0. */
module AnalysisExamples {
  import opened Models
  import opened Numeric
  import opened Sorting
  import opened AnalysisService
  import opened AnalysisProperties
  import opened Collections

  /** A listing as the tests build it: identifier 0 and an empty address. */
  function Listing(suburb: string, price: real, income: real, area: int): PropertyListing {
    PropertyListing(0, "", suburb, price, area, income)
  }

  /** An empty input gives an empty report. */
  lemma EmptyInputGivesEmptyReport(sqrt: real -> real)
    ensures AnalyzeProperties([], sqrt) == []
  {
    EmptyReportIffNoSurvivor([], sqrt);
  }

  /** A listing with price 0 has yield 0, is filtered out, and leaves the report empty. */
  lemma ZeroPriceGivesEmptyReport(sqrt: real -> real)
    ensures AnalyzeProperties([Listing("Goodwood", 0.0, 100000.0, 100)], sqrt) == []
  {
    var listings := [Listing("Goodwood", 0.0, 100000.0, 100)];
    assert RentalYield(listings[0]) == 0.0;
    EmptyReportIffNoSurvivor(listings, sqrt);
  }

  /** A surviving listing with area 0 reports a mean and a median price per
      square metre of 0. */
  lemma ZeroAreaReportsZeroPricePerSqM(sqrt: real -> real)
    ensures |AnalyzeProperties([Listing("Goodwood", 1000000.0, 100000.0, 0)], sqrt)| == 1
    ensures AnalyzeProperties([Listing("Goodwood", 1000000.0, 100000.0, 0)], sqrt)[0].name == "Goodwood"
    ensures AnalyzeProperties([Listing("Goodwood", 1000000.0, 100000.0, 0)], sqrt)[0].medianPricePerSqM == 0.0
    ensures AnalyzeProperties([Listing("Goodwood", 1000000.0, 100000.0, 0)], sqrt)[0].averagePricePerSqM == 0.0
  {
    var p := Listing("Goodwood", 1000000.0, 100000.0, 0);
    var listings := [p];
    assert RentalYield(p) == 10.0;
    assert SurvivingSuburbs(listings) == {"Goodwood"};
    ReportLength(listings, sqrt);
    var out := AnalyzeProperties(listings, sqrt);
    ReportsDescribeSurvivingSuburbs(listings, sqrt);
    assert out[0] in out;
    assert out[0].name == "Goodwood";
    ZeroAreaGroupPrices(listings, "Goodwood", sqrt);
  }

  /** The listings of the ranking test. */
  const GoodwoodListing := Listing("Goodwood", 1000000.0, 100000.0, 100)
  const CliftonListing := Listing("Clifton", 10000000.0, 500000.0, 300)
  const ObservatoryListing := Listing("Observatory", 1000000.0, 80000.0, 100)

  /** Two Goodwood listings at a 10% yield, one Clifton listing at 5% and one
      Observatory listing at 8%. */
  function RankingListings(): seq<PropertyListing> {
    [GoodwoodListing, GoodwoodListing, CliftonListing, ObservatoryListing]
  }

  /** The yields of the ranking test's listings; only Clifton's misses the threshold. */
  lemma RankingYields()
    ensures RentalYield(GoodwoodListing) == 10.0 && PricePerSqM(GoodwoodListing) == 10000.0
    ensures RentalYield(CliftonListing) == 5.0
    ensures RentalYield(ObservatoryListing) == 8.0
    ensures Survives(GoodwoodListing) && !Survives(CliftonListing) && Survives(ObservatoryListing)
  {
  }

  /** The two Goodwood listings both survive. */
  lemma GoodwoodPairSurvives()
    ensures HighYield([GoodwoodListing, GoodwoodListing]) == [Score(GoodwoodListing), Score(GoodwoodListing)]
  {
    RankingYields();
    HighYieldSnoc([], GoodwoodListing);
    HighYieldSnoc([GoodwoodListing], GoodwoodListing);
    assert [GoodwoodListing] == [] + [GoodwoodListing];
    assert [GoodwoodListing, GoodwoodListing] == [GoodwoodListing] + [GoodwoodListing];
  }

  /** Of the first three test listings, both Goodwood listings survive and Clifton is filtered out. */
  lemma FirstThreeSurvivors()
    ensures HighYield([GoodwoodListing, GoodwoodListing, CliftonListing]) ==
      [Score(GoodwoodListing), Score(GoodwoodListing)]
  {
    var g, c := GoodwoodListing, CliftonListing;
    RankingYields();
    GoodwoodPairSurvives();
    HighYieldSnoc([g, g], c);
    assert [g, g, c] == [g, g] + [c];
  }

  /** Clifton's listing is filtered out; the others survive, in input order. */
  lemma RankingHighYield()
    ensures HighYield(RankingListings()) ==
      [Score(GoodwoodListing), Score(GoodwoodListing), Score(ObservatoryListing)]
  {
    var g, c, o := GoodwoodListing, CliftonListing, ObservatoryListing;
    RankingYields();
    FirstThreeSurvivors();
    HighYieldSnoc([g, g, c], o);
    assert RankingListings() == [g, g, c] + [o];
  }

  /** The suburbs of a sequence of scored listings whose first two share a suburb. */
  lemma SuburbsOfTriple(h: seq<Scored>, a: Scored, b: Scored)
    requires h == [a, a, b]
    ensures Suburbs(h) == {a.listing.suburb, b.listing.suburb}
  {
    assert h[0] == a && h[2] == b;
  }

  /** The surviving suburbs are Goodwood and Observatory. */
  lemma RankingSurvivors()
    ensures SurvivingSuburbs(RankingListings()) == {"Goodwood", "Observatory"}
    ensures |SurvivingSuburbs(RankingListings())| == 2
  {
    RankingHighYield();
    SuburbsOfHighYield(RankingListings());
    SuburbsOfTriple(HighYield(RankingListings()), Score(GoodwoodListing), Score(ObservatoryListing));
  }

  /** Both scored Goodwood listings belong to the Goodwood group. */
  lemma GoodwoodPairGroup()
    ensures Members([Score(GoodwoodListing), Score(GoodwoodListing)], "Goodwood") ==
      [Score(GoodwoodListing), Score(GoodwoodListing)]
  {
    var g := Score(GoodwoodListing);
    MembersSnoc([], g, "Goodwood");
    MembersSnoc([g], g, "Goodwood");
    assert [g] == [] + [g] && [g, g] == [g] + [g];
  }

  /** Goodwood's group among the three survivors. */
  lemma GoodwoodOfSurvivors()
    ensures Members([Score(GoodwoodListing), Score(GoodwoodListing), Score(ObservatoryListing)], "Goodwood") ==
      [Score(GoodwoodListing), Score(GoodwoodListing)]
  {
    var g, o := Score(GoodwoodListing), Score(ObservatoryListing);
    GoodwoodPairGroup();
    MembersSnoc([g, g], o, "Goodwood");
    assert [g, g, o] == [g, g] + [o];
  }

  /** The Goodwood group holds both Goodwood listings. */
  lemma GoodwoodGroup()
    ensures SurvivorsOf(RankingListings(), "Goodwood") == [Score(GoodwoodListing), Score(GoodwoodListing)]
  {
    RankingHighYield();
    GoodwoodOfSurvivors();
  }

  /** No Goodwood listing belongs to the Observatory group. */
  lemma NoObservatoryAmongGoodwood()
    ensures Members([Score(GoodwoodListing), Score(GoodwoodListing)], "Observatory") == []
  {
    var g := Score(GoodwoodListing);
    MembersSnoc([], g, "Observatory");
    MembersSnoc([g], g, "Observatory");
    assert [g] == [] + [g] && [g, g] == [g] + [g];
  }

  /** Observatory's group among the three survivors. */
  lemma ObservatoryOfSurvivors()
    ensures Members([Score(GoodwoodListing), Score(GoodwoodListing), Score(ObservatoryListing)], "Observatory") ==
      [Score(ObservatoryListing)]
  {
    var g, o := Score(GoodwoodListing), Score(ObservatoryListing);
    NoObservatoryAmongGoodwood();
    MembersSnoc([g, g], o, "Observatory");
    assert [g, g, o] == [g, g] + [o];
  }

  /** The Observatory group holds its one listing. */
  lemma ObservatoryGroup()
    ensures SurvivorsOf(RankingListings(), "Observatory") == [Score(ObservatoryListing)]
  {
    RankingHighYield();
    ObservatoryOfSurvivors();
  }

  /** The yields and prices per square metre of Goodwood's group. */
  lemma GoodwoodValues()
    ensures Yields([Score(GoodwoodListing), Score(GoodwoodListing)]) == [10.0, 10.0]
    ensures Prices([Score(GoodwoodListing), Score(GoodwoodListing)]) == [10000.0, 10000.0]
  {
    RankingYields();
  }

  /** The mean of Goodwood's yields. */
  lemma GoodwoodMeanYield()
    ensures Average([10.0, 10.0]) == 10.0
  {
    AverageOfConstant([10.0, 10.0], 10.0);
  }

  /** The standard deviation of Goodwood's equal yields. */
  lemma GoodwoodStdDev(sqrt: real -> real)
    requires sqrt(0.0) == 0.0
    ensures CalculateStdDev([10.0, 10.0], sqrt) == 0.0
  {
    StdDevOfIdenticalValues([10.0, 10.0], sqrt);
  }

  /** The report of Goodwood's group. */
  lemma GoodwoodGroupReport(sqrt: real -> real)
    requires sqrt(0.0) == 0.0
    ensures GroupReport("Goodwood", [Score(GoodwoodListing), Score(GoodwoodListing)], sqrt).averageYield == 10.0
    ensures GroupReport("Goodwood", [Score(GoodwoodListing), Score(GoodwoodListing)], sqrt).medianPricePerSqM == 10000.0
    ensures GroupReport("Goodwood", [Score(GoodwoodListing), Score(GoodwoodListing)], sqrt).stdDevYield == 0.0
  {
    GoodwoodValues();
    GoodwoodMeanYield();
    MedianExamples();
    GoodwoodStdDev(sqrt);
    Round2OfHundredths(1000);
    Round2OfHundredths(1000000);
    Round2OfHundredths(0);
  }

  /** Goodwood's group: average yield 10, median price per square metre 10000,
      standard deviation 0. */
  lemma GoodwoodReport(sqrt: real -> real)
    requires sqrt(0.0) == 0.0
    ensures "Goodwood" in SurvivingSuburbs(RankingListings())
    ensures SuburbReportFor(RankingListings(), "Goodwood", sqrt).averageYield == 10.0
    ensures SuburbReportFor(RankingListings(), "Goodwood", sqrt).medianPricePerSqM == 10000.0
    ensures SuburbReportFor(RankingListings(), "Goodwood", sqrt).stdDevYield == 0.0
  {
    RankingSurvivors();
    GoodwoodGroup();
    GoodwoodGroupReport(sqrt);
  }

  /** The report of Observatory's group. */
  lemma ObservatoryGroupReport(sqrt: real -> real)
    ensures GroupReport("Observatory", [Score(ObservatoryListing)], sqrt).averageYield == 8.0
  {
    RankingYields();
    assert Yields([Score(ObservatoryListing)]) == [8.0];
    AverageOfConstant([8.0], 8.0);
    Round2OfHundredths(800);
  }

  /** Observatory's group: average yield 8. */
  lemma ObservatoryReport(sqrt: real -> real)
    ensures "Observatory" in SurvivingSuburbs(RankingListings())
    ensures SuburbReportFor(RankingListings(), "Observatory", sqrt).averageYield == 8.0
  {
    RankingSurvivors();
    ObservatoryGroup();
    ObservatoryGroupReport(sqrt);
  }

  /** With exactly two surviving suburbs, every report is the report of one of them. */
  lemma ReportsOfTwo(listings: seq<PropertyListing>, sqrt: real -> real, first: string, second: string)
    requires |SurvivingSuburbs(listings)| == 2 && first != second
    requires first in SurvivingSuburbs(listings) && second in SurvivingSuburbs(listings)
    ensures forall r :: r in AnalyzeProperties(listings, sqrt) ==>
      r == SuburbReportFor(listings, first, sqrt) || r == SuburbReportFor(listings, second, sqrt)
  {
    ReportsDescribeSurvivingSuburbs(listings, sqrt);
    forall r | r in AnalyzeProperties(listings, sqrt)
      ensures r == SuburbReportFor(listings, first, sqrt) || r == SuburbReportFor(listings, second, sqrt)
    {
      OneOfTwo(SurvivingSuburbs(listings), first, second, r.name);
    }
  }

  /** Two surviving suburbs give two reports. */
  lemma ReportsOfTwoCount(listings: seq<PropertyListing>, sqrt: real -> real)
    requires |SurvivingSuburbs(listings)| == 2
    ensures |AnalyzeProperties(listings, sqrt)| == 2
  {
    ReportLength(listings, sqrt);
  }

  /** The first two reports name different suburbs, the first with the
      higher or equal average yield. */
  lemma LeadingPair(listings: seq<PropertyListing>, sqrt: real -> real)
    requires |AnalyzeProperties(listings, sqrt)| >= 2
    ensures AnalyzeProperties(listings, sqrt)[0].name != AnalyzeProperties(listings, sqrt)[1].name
    ensures AnalyzeProperties(listings, sqrt)[0].averageYield >= AnalyzeProperties(listings, sqrt)[1].averageYield
  {
    ReportNamesDistinct(listings, sqrt);
  }

  /** Two reports with different names, each one of `hi` and `lo`, in
      non-increasing order of average yield, are `hi` then `lo` when `hi`'s
      average yield is the higher. */
  lemma PairOrder(out: seq<SuburbReport>, hi: SuburbReport, lo: SuburbReport)
    requires |out| == 2 && out[0].name != out[1].name && out[0].averageYield >= out[1].averageYield
    requires forall r :: r in out ==> r == hi || r == lo
    requires hi.averageYield > lo.averageYield
    ensures out == [hi, lo]
  {
    assert out[0] in out && out[1] in out;
  }

  /** With exactly two surviving suburbs, the one with the higher average
      yield is reported first and the other second. */
  lemma TwoSuburbRanking(listings: seq<PropertyListing>, sqrt: real -> real, first: string, second: string)
    requires |SurvivingSuburbs(listings)| == 2 && first != second
    requires first in SurvivingSuburbs(listings) && second in SurvivingSuburbs(listings)
    requires SuburbReportFor(listings, first, sqrt).averageYield > SuburbReportFor(listings, second, sqrt).averageYield
    ensures AnalyzeProperties(listings, sqrt) ==
      [SuburbReportFor(listings, first, sqrt), SuburbReportFor(listings, second, sqrt)]
  {
    ReportsOfTwoCount(listings, sqrt);
    LeadingPair(listings, sqrt);
    ReportsOfTwo(listings, sqrt, first, second);
    PairOrder(AnalyzeProperties(listings, sqrt), SuburbReportFor(listings, first, sqrt), SuburbReportFor(listings, second, sqrt));
  }

  /** The outcome of the ranking test, for any listings whose two surviving
      suburbs have the reports the test's listings have. */
  lemma RankedSuburbsOutcome(listings: seq<PropertyListing>, sqrt: real -> real)
    requires |SurvivingSuburbs(listings)| == 2
    requires "Goodwood" in SurvivingSuburbs(listings) && "Observatory" in SurvivingSuburbs(listings)
    requires SuburbReportFor(listings, "Goodwood", sqrt).averageYield == 10.0
    requires SuburbReportFor(listings, "Goodwood", sqrt).medianPricePerSqM == 10000.0
    requires SuburbReportFor(listings, "Goodwood", sqrt).stdDevYield == 0.0
    requires SuburbReportFor(listings, "Observatory", sqrt).averageYield == 8.0
    ensures |AnalyzeProperties(listings, sqrt)| == 2
    ensures forall r :: r in AnalyzeProperties(listings, sqrt) ==> r.name != "Clifton"
    ensures AnalyzeProperties(listings, sqrt)[0].name == "Goodwood"
    ensures AnalyzeProperties(listings, sqrt)[0].averageYield == 10.0
    ensures AnalyzeProperties(listings, sqrt)[0].medianPricePerSqM == 10000.0
    ensures AnalyzeProperties(listings, sqrt)[0].stdDevYield == 0.0
  {
    TwoSuburbRanking(listings, sqrt, "Goodwood", "Observatory");
    SuburbReportName(listings, "Goodwood", sqrt);
    SuburbReportName(listings, "Observatory", sqrt);
    PairOutcome(AnalyzeProperties(listings, sqrt),
      SuburbReportFor(listings, "Goodwood", sqrt), SuburbReportFor(listings, "Observatory", sqrt));
  }

  /** The facts the ranking test checks, for an output that is Goodwood's
      report followed by Observatory's. */
  lemma PairOutcome(out: seq<SuburbReport>, goodwood: SuburbReport, observatory: SuburbReport)
    requires out == [goodwood, observatory]
    requires goodwood.name == "Goodwood" && observatory.name == "Observatory"
    ensures |out| == 2
    ensures forall r :: r in out ==> r.name != "Clifton"
    ensures out[0] == goodwood
  {
  }

  /** The ranking test: exactly two suburbs are reported, Clifton is absent,
      and Goodwood ranks first with average yield 10, median price per square
      metre 10000 and standard deviation 0. */
  lemma RankedSuburbsExample(sqrt: real -> real)
    requires sqrt(0.0) == 0.0
    ensures |AnalyzeProperties(RankingListings(), sqrt)| == 2
    ensures forall r :: r in AnalyzeProperties(RankingListings(), sqrt) ==> r.name != "Clifton"
    ensures AnalyzeProperties(RankingListings(), sqrt)[0].name == "Goodwood"
    ensures AnalyzeProperties(RankingListings(), sqrt)[0].averageYield == 10.0
    ensures AnalyzeProperties(RankingListings(), sqrt)[0].medianPricePerSqM == 10000.0
    ensures AnalyzeProperties(RankingListings(), sqrt)[0].stdDevYield == 0.0
  {
    RankingSurvivors();
    GoodwoodReport(sqrt);
    ObservatoryReport(sqrt);
    RankedSuburbsOutcome(RankingListings(), sqrt);
  }
}
