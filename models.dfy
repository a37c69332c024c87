/** The record shapes the analysis engine reads and produces. */
module Models {

  /** One input row: a property listing. Money amounts are exact reals
      (the source uses `decimal`); the lettable area is an integer. */
  datatype PropertyListing = PropertyListing(
    listingId: int,
    address: string,
    suburb: string,
    price: real,
    grossLettableArea: int,
    netAnnualIncome: real)

  /** One output row: the statistics of one suburb. */
  datatype SuburbReport = SuburbReport(
    name: string,
    averageYield: real,
    medianPricePerSqM: real,
    stdDevYield: real,
    averagePricePerSqM: real,
    propertyCount: nat)
}
