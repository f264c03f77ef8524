/**
 * One hike record as the client receives it from the hikes listing.
 * Every field the filters, the sort, the cards and the chart read is here;
 * the rest of the record is opaque to the model. `distance_from_denver`
 * is the one field that may be null (a hike without a trailhead).
 */
module Hikes {
  import opened Options

  datatype Hike = Hike(
    id: int,
    number: int,
    name: string,
    description: string,
    difficultyRating: real,
    roundTripMiles: real,
    totalElevationGain: real,
    hikingTimeMin: real,
    hikingTimeMax: real,
    startElevation: real,
    highestPeakElevation: real,
    distanceFromDenver: Option<real>,
    classNumeric: real,
    crowdLevelNumeric: int,
    isOvernight: bool,
    isInSeason: bool)
}
