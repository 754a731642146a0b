/** The Reading document (`SensorData`): one timestamped footfall count from one sensor. */
module Readings {
  import opened Wrappers

  /** The only GeoJSON type the schemas admit. */
  const POINT: string := "Point"

  /** A GeoJSON location: its `type` and its `coordinates`. */
  datatype Location = Location(kind: string, coordinates: seq<int>)

  /** The location the ingest path writes, since sensors do not report one. */
  function DefaultLocation(): Location
  {
    Location(POINT, [0, 0])
  }

  datatype Reading = Reading(sensorId: string, timestamp: int, count: int, location: Location)

  /** The count field, as the `$sum: '$count'` accumulator reads it. */
  function CountOf(r: Reading): int
  {
    r.count
  }

  /** A Reading the schema admits: a sensor id, a non-negative count, a Point location. */
  predicate ValidReading(r: Reading)
  {
    r.sensorId != "" && r.count >= 0 && r.location.kind == POINT
  }

  /** The schema path that failed validation, in the order the schema declares them. */
  datatype SchemaError = SensorIdRequired | CountRequired | CountBelowMinimum | LocationTypeNotInEnum

  /**
   * Building a Reading document and validating it on save: a missing
   * timestamp takes the creation instant `now`; the other fields are checked
   * against the schema.
   */
  function Create(sensorId: Option<string>, timestamp: Option<int>, count: Option<int>, location: Location, now: int)
    : (r: Result<Reading, SchemaError>)
    ensures r.Ok? <==> && sensorId.Some? && sensorId.value != ""
                       && count.Some? && count.value >= 0
                       && location.kind == POINT
    ensures r.Ok? ==> && ValidReading(r.value)
                      && r.value.sensorId == sensorId.value
                      && r.value.count == count.value
                      && r.value.location == location
                      && r.value.timestamp == (if timestamp.Some? then timestamp.value else now)
    ensures r == Err(CountBelowMinimum) <==> && sensorId.Some? && sensorId.value != ""
                                              && count.Some? && count.value < 0
  {
    if sensorId.None? || sensorId.value == "" then Err(SensorIdRequired)
    else if count.None? then Err(CountRequired)
    else if count.value < 0 then Err(CountBelowMinimum)
    else if location.kind != POINT then Err(LocationTypeNotInEnum)
    else Ok(Reading(sensorId.value, if timestamp.Some? then timestamp.value else now, count.value, location))
  }

  /** Every valid Reading is what validation builds from its own fields. */
  lemma CreateAdmitsValid(r: Reading, now: int)
    requires ValidReading(r)
    ensures Create(Some(r.sensorId), Some(r.timestamp), Some(r.count), r.location, now) == Ok(r)
  {
  }
}
