/** The listing-to-report aggregation engine: derive two metrics per listing,
    keep the high-yield listings, group them by suburb, aggregate each group,
    rank the groups by average yield and keep the first five. */
module AnalysisService {
  import opened Models
  import opened Numeric
  import opened Sorting
  import opened Collections

  /** A listing survives when its rental yield, in percent, is strictly above this. */
  const YieldThreshold: real := 7.0

  /** The report keeps at most this many suburbs. */
  const ReportSize: nat := 5

  /** Net annual income as a percentage of the price; 0 when the price is not positive. */
  function RentalYield(p: PropertyListing): (y: real)
    ensures p.price <= 0.0 ==> y == 0.0
    ensures p.price > 0.0 ==> y * p.price == 100.0 * p.netAnnualIncome
  {
    if p.price > 0.0 then (p.netAnnualIncome / p.price) * 100.0 else 0.0
  }

  /** Price per square metre of lettable area; 0 when the area is not positive. */
  function PricePerSqM(p: PropertyListing): (r: real)
    ensures p.grossLettableArea <= 0 ==> r == 0.0
    ensures p.grossLettableArea > 0 ==> r * (p.grossLettableArea as real) == p.price
  {
    if p.grossLettableArea > 0 then p.price / (p.grossLettableArea as real) else 0.0
  }

  /** The filter the engine applies to every listing. */
  predicate Survives(p: PropertyListing) {
    RentalYield(p) > YieldThreshold
  }

  /** A listing together with its two derived metrics. */
  datatype Scored = Scored(listing: PropertyListing, rentalYield: real, pricePerSqM: real)

  function Score(p: PropertyListing): Scored {
    Scored(p, RentalYield(p), PricePerSqM(p))
  }

  /** The scored listings whose yield passes the threshold, in input order. */
  function HighYield(listings: seq<PropertyListing>): (r: seq<Scored>)
    ensures forall i :: 0 <= i < |r| ==>
      r[i] == Score(r[i].listing) && r[i].listing in listings && Survives(r[i].listing)
    ensures forall p :: p in listings && Survives(p) ==> Score(p) in r
  {
    if |listings| == 0 then []
    else
      var init := listings[..|listings| - 1];
      var p := listings[|listings| - 1];
      assert listings == init + [p];
      if RentalYield(p) > YieldThreshold then HighYield(init) + [Score(p)] else HighYield(init)
  }

  /** The suburbs that occur in a sequence of scored listings. */
  ghost function Suburbs(s: seq<Scored>): set<string> {
    set i | 0 <= i < |s| :: s[i].listing.suburb
  }

  /** The members of the group with key `suburb`, in input order. */
  function Members(s: seq<Scored>, suburb: string): (g: seq<Scored>)
    ensures forall i :: 0 <= i < |g| ==> g[i] in s && g[i].listing.suburb == suburb
    ensures forall i :: 0 <= i < |s| && s[i].listing.suburb == suburb ==> s[i] in g
    ensures |g| > 0 <==> suburb in Suburbs(s)
  {
    if |s| == 0 then []
    else
      var init := s[..|s| - 1];
      var x := s[|s| - 1];
      assert s == init + [x];
      assert Suburbs(s) == Suburbs(init) + {x.listing.suburb};
      if x.listing.suburb == suburb then Members(init, suburb) + [x] else Members(init, suburb)
  }

  /** The group keys, each once, in order of first appearance. */
  function GroupKeys(s: seq<Scored>): (keys: seq<string>)
    ensures Distinct(keys)
    ensures forall k :: k in keys <==> k in Suburbs(s)
  {
    if |s| == 0 then []
    else
      var init := s[..|s| - 1];
      var k := s[|s| - 1].listing.suburb;
      assert s == init + [s[|s| - 1]];
      assert Suburbs(s) == Suburbs(init) + {k};
      var keys := GroupKeys(init);
      if k in keys then keys else keys + [k]
  }

  /** The yields of a group's members. */
  function Yields(group: seq<Scored>): (ys: seq<real>) {
    seq(|group|, i requires 0 <= i < |group| => group[i].rentalYield)
  }

  /** The prices per square metre of a group's members. */
  function Prices(group: seq<Scored>): (ps: seq<real>) {
    seq(|group|, i requires 0 <= i < |group| => group[i].pricePerSqM)
  }

  /** The median: 0 for no values, otherwise the middle of the ascending order. */
  function CalculateMedian(values: seq<real>): (m: real)
    ensures |values| == 0 ==> m == 0.0
    ensures |values| > 0 ==> Min(values) <= m <= Max(values)
  {
    if |values| == 0 then 0.0
    else
      var sorted := OrderBy(values);
      SortedWithinRange(values, sorted);
      Middle(sorted)
  }

  /** The middle element of a sorted sequence, or the mean of the two middle
      elements when the count is even. */
  function Middle(sorted: seq<real>): real
    requires |sorted| > 0
  {
    var mid := |sorted| / 2;
    if |sorted| % 2 == 0 then (sorted[mid - 1] + sorted[mid]) / 2.0 else sorted[mid]
  }

  /** Every element of a rearrangement of `values` lies between its minimum and maximum. */
  lemma SortedWithinRange(values: seq<real>, sorted: seq<real>)
    requires |values| > 0
    requires multiset(sorted) == multiset(values)
    ensures |sorted| == |values|
    ensures forall i :: 0 <= i < |sorted| ==> Min(values) <= sorted[i] <= Max(values)
  {
    assert |multiset(sorted)| == |multiset(values)|;
    forall i | 0 <= i < |sorted| ensures Min(values) <= sorted[i] <= Max(values) {
      assert sorted[i] in multiset(values);
      var k :| 0 <= k < |values| && values[k] == sorted[i];
    }
  }

  /** The sum of squared deviations of `values` from `avg`. */
  function SumOfSquares(values: seq<real>, avg: real): real
  {
    if |values| == 0 then 0.0
    else
      var d := values[|values| - 1] - avg;
      SumOfSquares(values[..|values| - 1], avg) + d * d
  }

  /** The sample variance, with divisor n - 1. */
  function SampleVariance(values: seq<real>): real
    requires |values| > 1
  {
    SumOfSquares(values, Average(values)) / ((|values| - 1) as real)
  }

  /** The sample standard deviation: 0 for at most one value, otherwise the
      square root of the sample variance. The square root is a parameter. */
  function CalculateStdDev(values: seq<real>, sqrt: real -> real): (d: real)
    ensures |values| <= 1 ==> d == 0.0
  {
    if |values| <= 1 then 0.0 else sqrt(SampleVariance(values))
  }

  /** The report of one non-empty group; every statistic is rounded to two decimals. */
  function GroupReport(suburb: string, group: seq<Scored>, sqrt: real -> real): SuburbReport
    requires |group| > 0
  {
    SuburbReport(
      name := suburb,
      propertyCount := |group|,
      averageYield := Round2(Average(Yields(group))),
      averagePricePerSqM := Round2(Average(Prices(group))),
      medianPricePerSqM := Round2(CalculateMedian(Prices(group))),
      stdDevYield := Round2(CalculateStdDev(Yields(group), sqrt)))
  }

  /** One report per group, in group order. */
  function GroupReports(s: seq<Scored>, sqrt: real -> real): seq<SuburbReport> {
    var keys := GroupKeys(s);
    seq(|keys|, i requires 0 <= i < |keys| => GroupReport(keys[i], Members(s, keys[i]), sqrt))
  }

  /** The ranking key. */
  function AverageYieldOf(r: SuburbReport): real {
    r.averageYield
  }

  /** At most the first `ReportSize` elements of `s`. */
  function Take<T>(s: seq<T>): (t: seq<T>)
    ensures |t| == if |s| < ReportSize then |s| else ReportSize
    ensures t == s[..|t|]
  {
    if |s| < ReportSize then s else s[..ReportSize]
  }

  /** The whole analysis: metrics, filter, grouping, per-group statistics,
      ranking by average yield (highest first) and truncation to five. */
  function AnalyzeProperties(listings: seq<PropertyListing>, sqrt: real -> real): (reports: seq<SuburbReport>)
    ensures |reports| <= ReportSize
    ensures DescendingBy(reports, AverageYieldOf)
  {
    Take(Ranked(listings, sqrt))
  }

  /** All group reports, ranked. */
  function Ranked(listings: seq<PropertyListing>, sqrt: real -> real): seq<SuburbReport> {
    OrderByDescending(GroupReports(HighYield(listings), sqrt), AverageYieldOf)
  }
}
