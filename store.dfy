/**
 * The document store as the controllers query and update it: `find` with a
 * filter on Readings, and `findOneAndUpdate` by sensor id on Devices.
 */
module Queries {
  import opened Wrappers
  import opened Readings
  import opened Sums

  /**
   * A `$match` on Readings: an optional sensor id and optional time bounds
   * (`$gte` from, `$lte` through, `$lt` before).
   */
  datatype ReadingFilter = ReadingFilter(sensorId: Option<string>, from: Option<int>, through: Option<int>, before: Option<int>)

  predicate Matches(f: ReadingFilter, r: Reading)
  {
    && (f.sensorId.Some? ==> r.sensorId == f.sensorId.value)
    && (f.from.Some? ==> r.timestamp >= f.from.value)
    && (f.through.Some? ==> r.timestamp <= f.through.value)
    && (f.before.Some? ==> r.timestamp < f.before.value)
  }

  /**
   * The readings that match `f`, in store order: each matching reading as
   * many times as it is stored, and no other.
   */
  function Select(s: seq<Reading>, f: ReadingFilter): (r: seq<Reading>)
    ensures forall x :: x in r <==> x in s && Matches(f, x)
    ensures forall x :: multiset(r)[x] == if Matches(f, x) then multiset(s)[x] else 0
    ensures |r| <= |s|
  {
    if s == [] then []
    else
      var init, last := s[..|s| - 1], s[|s| - 1];
      assert s == init + [last];
      Select(init, f) + (if Matches(f, last) then [last] else [])
  }

  /** The sort key of `.sort({timestamp: -1})`: newest first. */
  function NewestFirst(r: Reading): int
  {
    -r.timestamp
  }

  predicate AllValid(s: seq<Reading>)
  {
    forall i :: 0 <= i < |s| ==> ValidReading(s[i])
  }

  /**
   * Widening a filter over non-negative counts never lowers the number or
   * the sum of the counts it selects.
   */
  lemma {:induction false} SelectWider(s: seq<Reading>, narrow: ReadingFilter, wide: ReadingFilter)
    requires AllValid(s)
    requires forall x :: x in s && Matches(narrow, x) ==> Matches(wide, x)
    ensures |Select(s, narrow)| <= |Select(s, wide)|
    ensures SumOf(Select(s, narrow), CountOf) <= SumOf(Select(s, wide), CountOf)
  {
    if s != [] {
      var init, last := s[..|s| - 1], s[|s| - 1];
      assert forall x :: x in init ==> x in s;
      SelectWider(init, narrow, wide);
      var n, w := Select(init, narrow), Select(init, wide);
      var ln := if Matches(narrow, last) then [last] else [];
      var lw := if Matches(wide, last) then [last] else [];
      SumOfAppend(n, ln, CountOf);
      SumOfAppend(w, lw, CountOf);
      assert ValidReading(last);
    }
  }
}

/** The device registry: at most one Device per sensor id. */
module Registry {
  import opened Wrappers
  import opened Readings
  import opened Devices

  /** Every device is stored under its own sensor id and satisfies the schema. */
  predicate WellKeyed(devices: map<string, Device>)
  {
    forall k :: k in devices ==> devices[k].sensorId == k && ValidDevice(devices[k])
  }

  /**
   * The fields a `findOneAndUpdate` sets: optional fields are left alone
   * when absent; status and last seen are always set.
   */
  datatype DeviceUpdate = DeviceUpdate(
    name: Option<string>,
    location: Option<Location>,
    description: Option<string>,
    status: Status,
    lastSeen: int)

  predicate ValidUpdate(u: DeviceUpdate)
  {
    u.location.Some? ==> u.location.value.kind == POINT
  }

  /**
   * The update applied to a stored device: status and last seen are set,
   * name, location and description only when given; sensor id, battery
   * level, firmware version and installation date are kept.
   */
  function Apply(d: Device, u: DeviceUpdate): (r: Device)
    requires ValidUpdate(u)
    ensures ValidDevice(d) ==> ValidDevice(r)
    ensures r.status == u.status && r.lastSeen == u.lastSeen
    ensures r.name == (if u.name.Some? then u.name else d.name)
    ensures r.location == (if u.location.Some? then u.location else d.location)
    ensures r.description == (if u.description.Some? then u.description.value else d.description)
    ensures r.sensorId == d.sensorId && r.batteryLevel == d.batteryLevel
    ensures r.firmwareVersion == d.firmwareVersion && r.installationDate == d.installationDate
  {
    d.(
      name := if u.name.Some? then u.name else d.name,
      location := if u.location.Some? then u.location else d.location,
      description := if u.description.Some? then u.description.value else d.description,
      status := u.status,
      lastSeen := u.lastSeen)
  }

  /**
   * `findOneAndUpdate({sensor_id}, update, {upsert: true})` at instant `now`:
   * the device under `sensorId` gets the update, and is first created with
   * the schema defaults if there was none; every other device is unchanged.
   */
  function Upsert(devices: map<string, Device>, sensorId: string, u: DeviceUpdate, now: int): (r: map<string, Device>)
    requires sensorId != "" && ValidUpdate(u)
    ensures r.Keys == devices.Keys + {sensorId}
    ensures forall k :: k in devices && k != sensorId ==> r[k] == devices[k]
    ensures r[sensorId].status == u.status && r[sensorId].lastSeen == u.lastSeen
    ensures r[sensorId].name == (if u.name.Some? then u.name else if sensorId in devices then devices[sensorId].name else None)
    ensures sensorId in devices ==> r[sensorId] == Apply(devices[sensorId], u)
    ensures sensorId !in devices ==> r[sensorId] == Apply(NewDevice(sensorId, now), u)
    ensures WellKeyed(devices) ==> WellKeyed(r)
  {
    var base := if sensorId in devices then devices[sensorId] else NewDevice(sensorId, now);
    devices[sensorId := Apply(base, u)]
  }
}
