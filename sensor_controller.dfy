/**
 * The sensor-data handlers: ingest of one reading, and the reading queries.
 * The state they act on (readings, devices, events) is held by the Backend
 * class; here are the pure parts each handler computes.
 */
module SensorController {
  import opened Wrappers
  import opened Seqs
  import opened Readings
  import opened Devices
  import opened Queries
  import opened Registry

  /** The `count` field of a request body: absent, JSON `null`, or a number. */
  datatype CountField = Undefined | Null | Number(value: int)

  /** Why an ingest was refused, with the HTTP status the handler answers. */
  datatype IngestError =
    | MissingFields                       // 400: sensor_id falsy or count undefined
    | NegativeCount                       // 400: count < 0
    | SaveFailed(reason: SchemaError)     // 500: the schema refused the document on save

  function IngestStatusCode(e: IngestError): int
  {
    if e.SaveFailed? then 500 else 400
  }

  /** JavaScript truthiness of an optional string: present and not empty. */
  predicate Truthy(s: Option<string>)
  {
    s.Some? && s.value != ""
  }

  /**
   * The validation and document construction of an ingest: the two
   * controller checks, then the schema's checks on save. A missing or
   * falsy timestamp (the number 0 is falsy) becomes `now`; the location is
   * always the Point at [0, 0].
   */
  function PrepareReading(sensorId: Option<string>, timestamp: Option<int>, count: CountField, now: int)
    : (r: Result<Reading, IngestError>)
    ensures r == Err(MissingFields) <==> !Truthy(sensorId) || count.Undefined?
    ensures r == Err(NegativeCount) <==> Truthy(sensorId) && count.Number? && count.value < 0
    ensures Truthy(sensorId) && count.Null? ==> r == Err(SaveFailed(CountRequired))
    ensures r.Ok? <==> Truthy(sensorId) && count.Number? && count.value >= 0
    ensures r.Ok? ==> && ValidReading(r.value)
                      && r.value.sensorId == sensorId.value
                      && r.value.count == count.value
                      && r.value.timestamp == (if timestamp.Some? && timestamp.value != 0 then timestamp.value else now)
                      && r.value.location == Location(POINT, [0, 0])
  {
    if !Truthy(sensorId) || count.Undefined? then Err(MissingFields)
    else if count.Number? && count.value < 0 then Err(NegativeCount)
    else
      var stamp := if timestamp.Some? && timestamp.value != 0 then timestamp.value else now;
      var value := if count.Number? then Some(count.value) else None;
      match Create(sensorId, Some(stamp), value, DefaultLocation(), now)
      case Ok(reading) => Ok(reading)
      case Err(e) => Err(SaveFailed(e))
  }

  /** The device write of an ingest: last seen now, status active, whatever the status was. */
  function IngestUpdate(now: int): DeviceUpdate
  {
    DeviceUpdate(None, None, None, Active, now)
  }

  /** A `sensorDataUpdate` message broadcast to every connected observer. */
  datatype Event = Event(sensorId: string, timestamp: int, count: int, kind: string)

  /** The message announcing a stored reading: its sensor, timestamp and count, of type `new_data`. */
  function NewDataEvent(r: Reading): (e: Event)
    ensures e.sensorId == r.sensorId && e.timestamp == r.timestamp && e.count == r.count
    ensures e.kind == "new_data"
  {
    Event(r.sensorId, r.timestamp, r.count, "new_data")
  }

  const DEFAULT_READINGS_LIMIT: int := 100

  /** A query parameter `limit`, defaulting when absent. */
  function LimitOr(limit: Option<int>, default: int): int
  {
    if limit.Some? then limit.value else default
  }

  /** The filter of `GET /sensor-data`: a truthy sensor id, and inclusive date bounds when given. */
  function ReadingsQuery(sensorId: Option<string>, start: Option<int>, end: Option<int>): (f: ReadingFilter)
    ensures forall r :: Matches(f, r) <==>
      && (Truthy(sensorId) ==> r.sensorId == sensorId.value)
      && (start.Some? ==> r.timestamp >= start.value)
      && (end.Some? ==> r.timestamp <= end.value)
  {
    ReadingFilter(if Truthy(sensorId) then sensorId else None, start, end, None)
  }

  /**
   * `GET /sensor-data`: the matching readings, newest first, at most `limit`
   * of them (100 by default), none more often than it is stored. The ones
   * left out are never newer than the ones returned.
   */
  function GetSensorData(readings: seq<Reading>, sensorId: Option<string>, start: Option<int>, end: Option<int>, limit: Option<int>)
    : (r: seq<Reading>)
    ensures var f := ReadingsQuery(sensorId, start, end);
      && (forall x :: x in r ==> x in readings && Matches(f, x))
      && multiset(r) <= multiset(Select(readings, f))
      && (forall i, j :: 0 <= i < j < |r| ==> r[i].timestamp >= r[j].timestamp)
      && |r| == (var n, m := Abs(LimitOr(limit, DEFAULT_READINGS_LIMIT)), |Select(readings, f)|;
                 if n == 0 || m < n then m else n)
      && (forall x, y :: x in readings && Matches(f, x) && x !in r && y in r ==> y.timestamp >= x.timestamp)
  {
    var f := ReadingsQuery(sensorId, start, end);
    var sorted := SortBy(Select(readings, f), NewestFirst);
    var r := Limit(sorted, LimitOr(limit, DEFAULT_READINGS_LIMIT));
    SortByMembers(Select(readings, f), NewestFirst);
    NewestFirstPrefix(sorted, r);
    r
  }

  /** A prefix of a newest-first sequence is newest first, and holds the newest elements. */
  lemma NewestFirstPrefix(sorted: seq<Reading>, r: seq<Reading>)
    requires SortedBy(sorted, NewestFirst) && r <= sorted
    ensures forall i, j :: 0 <= i < j < |r| ==> r[i].timestamp >= r[j].timestamp
    ensures forall x, y :: x in sorted && x !in r && y in r ==> y.timestamp >= x.timestamp
  {
    forall i, j | 0 <= i < j < |r| ensures r[i].timestamp >= r[j].timestamp {
      assert NewestFirst(sorted[i]) <= NewestFirst(sorted[j]);
    }
    forall x, y | x in sorted && x !in r && y in r ensures y.timestamp >= x.timestamp {
      var a :| 0 <= a < |sorted| && sorted[a] == x;
      var b :| 0 <= b < |r| && r[b] == y;
      assert a >= |r|;
      assert NewestFirst(sorted[b]) <= NewestFirst(sorted[a]);
    }
  }

  /** The answer of `GET /sensor-data/:sensor_id`: 404 when the sensor has no reading at all. */
  datatype NotFound = NotFound

  /**
   * `GET /sensor-data/:sensor_id`: the sensor's readings as `GET /sensor-data`
   * returns them for that sensor alone, or 404 when there are none.
   */
  function GetSensorDataById(readings: seq<Reading>, sensorId: string, limit: Option<int>)
    : (r: Result<seq<Reading>, NotFound>)
    requires sensorId != ""
    ensures r.Err? <==> forall x :: x in readings ==> x.sensorId != sensorId
    ensures r.Ok? ==> var own := Select(readings, ReadingFilter(Some(sensorId), None, None, None));
      && r.value != []
      && (forall x :: x in r.value ==> x in readings && x.sensorId == sensorId)
      && multiset(r.value) <= multiset(own)
      && (forall i, j :: 0 <= i < j < |r.value| ==> r.value[i].timestamp >= r.value[j].timestamp)
      && |r.value| == (var n := Abs(LimitOr(limit, DEFAULT_READINGS_LIMIT)); if n == 0 || |own| < n then |own| else n)
      && (forall x, y :: x in readings && x.sensorId == sensorId && x !in r.value && y in r.value ==> y.timestamp >= x.timestamp)
  {
    var data := GetSensorData(readings, Some(sensorId), None, None, limit);
    assert ReadingsQuery(Some(sensorId), None, None) == ReadingFilter(Some(sensorId), None, None, None);
    var selected := Select(readings, ReadingsQuery(Some(sensorId), None, None));
    assert data == [] <==> selected == [];
    assert selected != [] ==> selected[0] in selected;
    if data == [] then Err(NotFound) else Ok(data)
  }
}
