/**
 * The device handlers: listing, details, registration, status change and
 * the status summary, as functions of the registry, the readings and `now`.
 */
module DeviceController {
  import opened Wrappers
  import opened Seqs
  import opened Sums
  import opened Calendar
  import opened Readings
  import opened Devices
  import opened Queries
  import opened Registry
  import SensorController

  /** The keys of a set in some order: the order of the store's documents is not specified. */
  ghost function KeyOrder(keys: set<string>): (s: seq<string>)
    ensures |s| == |keys|
    ensures forall k :: k in s <==> k in keys
    decreases |keys|
  {
    if keys == {} then []
    else
      var k :| k in keys;
      KeyOrder(keys - {k}) + [k]
  }

  /** The devices of the registry, in the order of `KeyOrder`. */
  ghost function Listing(devices: map<string, Device>): (s: seq<Device>)
    requires WellKeyed(devices)
    ensures |s| == |devices|
    ensures forall i :: 0 <= i < |s| ==> s[i].sensorId in devices && devices[s[i].sensorId] == s[i]
    ensures forall k :: k in devices ==> devices[k] in s
  {
    var ks := KeyOrder(devices.Keys);
    assert |devices.Keys| == |devices|;
    var s := seq(|ks|, i requires 0 <= i < |ks| => devices[ks[i]]);
    assert forall k :: k in devices ==> devices[k] in s by {
      forall k | k in devices ensures devices[k] in s {
        var i :| 0 <= i < |ks| && ks[i] == k;
        assert s[i] == devices[k];
      }
    }
    s
  }

  /** A listed device with its liveness, recomputed against `now` on every read. */
  datatype DeviceView = DeviceView(device: Device, isActive: bool)

  function View(d: Device, now: int): (v: DeviceView)
    ensures v.device == d
    ensures v.isActive <==> now - d.lastSeen < HOUR_MS
  {
    DeviceView(d, IsActive(d, now))
  }

  const DEFAULT_DEVICES_LIMIT: int := 50

  /** The `status` filter of `GET /devices`: a truthy value must equal the stored status string. */
  predicate StatusMatches(status: Option<string>, d: Device)
  {
    SensorController.Truthy(status) ==> StatusName(d.status) == status.value
  }

  function LastSeenDesc(d: Device): int
  {
    -d.lastSeen
  }

  /** The devices the status filter admits, most recently seen first. */
  ghost function Ranked(devices: map<string, Device>, status: Option<string>): (s: seq<Device>)
    requires WellKeyed(devices)
    ensures |s| == |Matching(devices, status)|
    ensures forall i :: 0 <= i < |s| ==>
      s[i].sensorId in devices && devices[s[i].sensorId] == s[i] && StatusMatches(status, s[i])
    ensures forall k :: k in devices && StatusMatches(status, devices[k]) ==> devices[k] in s
    ensures SortedBy(s, LastSeenDesc)
  {
    var matching := Matching(devices, status);
    var listing := Listing(matching);
    var sorted := SortBy(listing, LastSeenDesc);
    SortByMembers(listing, LastSeenDesc);
    ListingOfMatching(devices, status, sorted);
    sorted
  }

  /** Any arrangement of the listing of the matching devices holds exactly the registered devices the filter admits. */
  lemma ListingOfMatching(devices: map<string, Device>, status: Option<string>, s: seq<Device>)
    requires WellKeyed(devices)
    requires forall x :: x in s <==> x in Listing(Matching(devices, status))
    ensures forall i :: 0 <= i < |s| ==>
      s[i].sensorId in devices && devices[s[i].sensorId] == s[i] && StatusMatches(status, s[i])
    ensures forall k :: k in devices && StatusMatches(status, devices[k]) ==> devices[k] in s
  {
    var matching := Matching(devices, status);
    var listing := Listing(matching);
    forall i | 0 <= i < |s|
      ensures s[i].sensorId in devices && devices[s[i].sensorId] == s[i]
      ensures StatusMatches(status, s[i])
    {
      assert s[i] in listing;
      var j :| 0 <= j < |listing| && listing[j] == s[i];
      assert listing[j].sensorId in matching;
    }
    forall k | k in devices && StatusMatches(status, devices[k]) ensures devices[k] in s {
      assert k in matching && matching[k] == devices[k];
      assert matching[k] in listing;
    }
  }

  /**
   * `GET /devices`: the registered devices whose status matches the filter,
   * most recently seen first, at most `limit` of them (50 by default), each
   * with its liveness. Devices left out were never seen later than those listed.
   */
  ghost function GetDevices(devices: map<string, Device>, status: Option<string>, limit: Option<int>, now: int)
    : (r: seq<DeviceView>)
    requires WellKeyed(devices)
    ensures forall i :: 0 <= i < |r| ==>
      && r[i].device.sensorId in devices && devices[r[i].device.sensorId] == r[i].device
      && StatusMatches(status, r[i].device)
      && (r[i].isActive <==> r[i].device.lastSeen > now - HOUR_MS)
    ensures forall i, j :: 0 <= i < j < |r| ==> r[i].device.lastSeen >= r[j].device.lastSeen
    ensures forall i, j :: 0 <= i < j < |r| ==> r[i].device.sensorId != r[j].device.sensorId
    ensures var n, m := Abs(SensorController.LimitOr(limit, DEFAULT_DEVICES_LIMIT)), |Matching(devices, status)|;
      |r| == if n == 0 || m < n then m else n
    ensures forall k, i ::
      (k in devices && StatusMatches(status, devices[k]) && 0 <= i < |r| &&
       (forall j :: 0 <= j < |r| ==> r[j].device.sensorId != k))
      ==> devices[k].lastSeen <= r[i].device.lastSeen
  {
    ListedViews(devices, status, limit, now);
    DistinctViews(devices, status, limit, now);
    ViewsOfPage(devices, status, limit, now);
    Views(Page(devices, status, limit), now)
  }

  /** The views of the page keep its devices, their order and their number. */
  lemma ListedViews(devices: map<string, Device>, status: Option<string>, limit: Option<int>, now: int)
    requires WellKeyed(devices)
    ensures var r := Views(Page(devices, status, limit), now);
      && (forall i :: 0 <= i < |r| ==>
            && r[i].device.sensorId in devices && devices[r[i].device.sensorId] == r[i].device
            && StatusMatches(status, r[i].device)
            && (r[i].isActive <==> r[i].device.lastSeen > now - HOUR_MS))
      && (forall i, j :: 0 <= i < j < |r| ==> r[i].device.lastSeen >= r[j].device.lastSeen)
      && (var n, m := Abs(SensorController.LimitOr(limit, DEFAULT_DEVICES_LIMIT)), |Matching(devices, status)|;
          |r| == if n == 0 || m < n then m else n)
  {
    var page := Page(devices, status, limit);
    var r := Views(page, now);
    forall i | 0 <= i < |r| ensures r[i].device == page[i] && (r[i].isActive <==> page[i].lastSeen > now - HOUR_MS) {
      assert r[i] == View(page[i], now);
    }
  }

  /** No two views of the page carry the same sensor id. */
  lemma DistinctViews(devices: map<string, Device>, status: Option<string>, limit: Option<int>, now: int)
    requires WellKeyed(devices)
    ensures var r := Views(Page(devices, status, limit), now);
      forall i, j :: 0 <= i < j < |r| ==> r[i].device.sensorId != r[j].device.sensorId
  {
    PageDistinct(devices, status, Page(devices, status, limit));
  }

  /** The sensor ids of a sequence of devices. */
  function Ids(s: seq<Device>): set<string>
  {
    set d | d in s :: d.sensorId
  }

  /** A sequence carries at most as many sensor ids as it has devices. */
  lemma {:induction false} IdsBound(s: seq<Device>)
    ensures |Ids(s)| <= |s|
  {
    if s != [] {
      var init, last := s[..|s| - 1], s[|s| - 1];
      assert s == init + [last];
      IdsBound(init);
      assert Ids(s) == Ids(init) + {last.sensorId};
    }
  }

  /** A sensor id carried twice leaves fewer ids than devices. */
  lemma RepeatedId(s: seq<Device>, i: int, j: int)
    requires 0 <= i < j < |s|
    ensures s[i].sensorId == s[j].sensorId ==> |Ids(s)| < |s|
  {
    if s[i].sensorId == s[j].sensorId {
      var t := s[..j] + s[j + 1..];
      assert Ids(t) == Ids(s) by {
        forall d | d in s ensures d.sensorId in Ids(t) {
          var k :| 0 <= k < |s| && s[k] == d;
          if k < j {
            assert t[k] == d;
          } else if k > j {
            assert t[k - 1] == d;
          } else {
            assert t[i] == s[i];
          }
        }
        assert forall d :: d in t ==> d in s;
      }
      IdsBound(t);
    }
  }

  /** A sequence with as many sensor ids as devices carries each id once. */
  lemma DistinctIds(s: seq<Device>)
    requires |Ids(s)| == |s|
    ensures forall i, j :: 0 <= i < j < |s| ==> s[i].sensorId != s[j].sensorId
  {
    forall i, j | 0 <= i < j < |s| ensures s[i].sensorId != s[j].sensorId {
      RepeatedId(s, i, j);
    }
  }

  /** The page lists each sensor id once: the ranking carries exactly the matching registry's keys, as many as it has devices. */
  lemma PageDistinct(devices: map<string, Device>, status: Option<string>, p: seq<Device>)
    requires WellKeyed(devices) && p <= Ranked(devices, status)
    ensures forall i, j :: 0 <= i < j < |p| ==> p[i].sensorId != p[j].sensorId
  {
    var ranked, matching := Ranked(devices, status), Matching(devices, status);
    assert Ids(ranked) == matching.Keys by {
      forall k | k in matching ensures k in Ids(ranked) {
        assert devices[k] in ranked;
      }
    }
    assert |matching.Keys| == |matching|;
    DistinctIds(ranked);
    forall i, j | 0 <= i < j < |p| ensures p[i].sensorId != p[j].sensorId {
      assert p[i] == ranked[i] && p[j] == ranked[j];
    }
  }

  /** Each listed device with its liveness at `now`. */
  function Views(page: seq<Device>, now: int): (r: seq<DeviceView>)
    ensures |r| == |page|
    ensures forall i :: 0 <= i < |r| ==> r[i] == View(page[i], now)
  {
    seq(|page|, i requires 0 <= i < |page| => View(page[i], now))
  }

  /** A registered device whose sensor id the listing leaves out was seen no later than any listed device. */
  lemma ViewsOfPage(devices: map<string, Device>, status: Option<string>, limit: Option<int>, now: int)
    requires WellKeyed(devices)
    ensures var r := Views(Page(devices, status, limit), now);
      forall k, i ::
        (k in devices && StatusMatches(status, devices[k]) && 0 <= i < |r| &&
         (forall j :: 0 <= j < |r| ==> r[j].device.sensorId != k))
        ==> devices[k].lastSeen <= r[i].device.lastSeen
  {
    var page := Page(devices, status, limit);
    var r := Views(page, now);
    PageOfRanked(devices, status, page);
    forall k, i |
      && k in devices && StatusMatches(status, devices[k]) && 0 <= i < |r|
      && (forall j :: 0 <= j < |r| ==> r[j].device.sensorId != k)
      ensures devices[k].lastSeen <= r[i].device.lastSeen
    {
      Unlisted(devices, page, k, now);
      assert r[i].device == page[i];
    }
  }

  /** A device whose sensor id no view carries is not on the page. */
  lemma Unlisted(devices: map<string, Device>, page: seq<Device>, k: string, now: int)
    requires WellKeyed(devices) && k in devices
    requires forall j :: 0 <= j < |Views(page, now)| ==> Views(page, now)[j].device.sensorId != k
    ensures devices[k] !in page
  {
    var r := Views(page, now);
    forall j | 0 <= j < |page| ensures page[j] != devices[k] {
      assert r[j].device == page[j];
    }
  }

  /** The devices `GET /devices` lists, before their liveness is attached. */
  ghost function Page(devices: map<string, Device>, status: Option<string>, limit: Option<int>): (p: seq<Device>)
    requires WellKeyed(devices)
    ensures forall i :: 0 <= i < |p| ==>
      p[i].sensorId in devices && devices[p[i].sensorId] == p[i] && StatusMatches(status, p[i])
    ensures forall i, j :: 0 <= i < j < |p| ==> p[i].lastSeen >= p[j].lastSeen
    ensures var n, m := Abs(SensorController.LimitOr(limit, DEFAULT_DEVICES_LIMIT)), |Matching(devices, status)|;
      |p| == if n == 0 || m < n then m else n
    ensures p <= Ranked(devices, status)
  {
    var ranked := Ranked(devices, status);
    var p := Limit(ranked, SensorController.LimitOr(limit, DEFAULT_DEVICES_LIMIT));
    PageOfRanked(devices, status, p);
    p
  }

  /** What a prefix of `Ranked` inherits from it. */
  lemma PageOfRanked(devices: map<string, Device>, status: Option<string>, p: seq<Device>)
    requires WellKeyed(devices) && p <= Ranked(devices, status)
    ensures forall i :: 0 <= i < |p| ==>
      p[i].sensorId in devices && devices[p[i].sensorId] == p[i] && StatusMatches(status, p[i])
    ensures forall i, j :: 0 <= i < j < |p| ==> p[i].lastSeen >= p[j].lastSeen
    ensures forall k, i ::
      (k in devices && StatusMatches(status, devices[k]) && devices[k] !in p && 0 <= i < |p|)
      ==> devices[k].lastSeen <= p[i].lastSeen
  {
    var ranked := Ranked(devices, status);
    LastSeenPrefix(ranked, p);
    forall i | 0 <= i < |p|
      ensures p[i].sensorId in devices && devices[p[i].sensorId] == p[i] && StatusMatches(status, p[i])
    {
      assert p[i] == ranked[i];
    }
  }

  /** The registry restricted to the devices the status filter admits. */
  function Matching(devices: map<string, Device>, status: Option<string>): (m: map<string, Device>)
    requires WellKeyed(devices)
    ensures WellKeyed(m) && m.Keys <= devices.Keys
    ensures forall k :: k in m <==> k in devices && StatusMatches(status, devices[k])
    ensures forall k :: k in m ==> m[k] == devices[k]
  {
    map k | k in devices && StatusMatches(status, devices[k]) :: devices[k]
  }

  /** A prefix of a most-recent-first sequence holds the most recently seen devices. */
  lemma LastSeenPrefix(sorted: seq<Device>, page: seq<Device>)
    requires SortedBy(sorted, LastSeenDesc) && page <= sorted
    ensures forall i, j :: 0 <= i < j < |page| ==> page[i].lastSeen >= page[j].lastSeen
    ensures forall x, y :: x in sorted && x !in page && y in page ==> y.lastSeen >= x.lastSeen
  {
    forall i, j | 0 <= i < j < |page| ensures page[i].lastSeen >= page[j].lastSeen {
      assert LastSeenDesc(sorted[i]) <= LastSeenDesc(sorted[j]);
    }
    forall x, y | x in sorted && x !in page && y in page ensures y.lastSeen >= x.lastSeen {
      var a :| 0 <= a < |sorted| && sorted[a] == x;
      var b :| 0 <= b < |page| && page[b] == y;
      assert a >= |page|;
      assert LastSeenDesc(sorted[b]) <= LastSeenDesc(sorted[a]);
    }
  }

  /** Count and sum of the counts of one sensor's readings since an instant. */
  datatype WindowStats = WindowStats(totalCount: int, dataPoints: nat)

  /** The `$match` on the sensor and `$gte from`, then `$group` with `$sum` of the counts and `$sum: 1`. */
  function WindowStatsSince(readings: seq<Reading>, sensorId: string, from: int): (w: WindowStats)
    ensures var s := Select(readings, ReadingFilter(Some(sensorId), Some(from), None, None));
      w.dataPoints == |s| && w.totalCount == SumOf(s, CountOf)
    ensures w.dataPoints == 0 ==> w.totalCount == 0
  {
    var s := Select(readings, ReadingFilter(Some(sensorId), Some(from), None, None));
    WindowStats(SumOf(s, CountOf), |s|)
  }

  const RECENT_ACTIVITY_LIMIT: int := 10

  datatype DeviceDetails = DeviceDetails(view: DeviceView, recentActivity: seq<Reading>, lastHour: WindowStats, last24Hours: WindowStats)

  /**
   * `GET /devices/:sensor_id`: 404 for an unknown sensor; otherwise the
   * device with its liveness, its ten newest readings, and the number and
   * total of its readings in the last hour and the last 24 hours.
   */
  function GetDeviceById(readings: seq<Reading>, devices: map<string, Device>, sensorId: string, now: int)
    : (r: Result<DeviceDetails, SensorController.NotFound>)
    requires WellKeyed(devices) && AllValid(readings)
    ensures r.Err? <==> sensorId !in devices
    ensures r.Ok? ==> var d := r.value;
      && d.view == View(devices[sensorId], now)
      && NewestOf(readings, sensorId, d.recentActivity)
      && d.lastHour.totalCount <= d.last24Hours.totalCount
      && d.lastHour.dataPoints <= d.last24Hours.dataPoints
      && (d.lastHour.dataPoints == 0 ==> d.lastHour.totalCount == 0)
      && (d.last24Hours.dataPoints == 0 ==> d.lastHour == d.last24Hours == WindowStats(0, 0))
      && 0 <= d.lastHour.totalCount
    ensures r.Ok? ==> && r.value.lastHour == WindowStatsSince(readings, sensorId, now - HOUR_MS)
                      && r.value.last24Hours == WindowStatsSince(readings, sensorId, now - DAY_MS)
  {
    if sensorId !in devices then Err(SensorController.NotFound)
    else
      var recent := SensorController.GetSensorData(readings, Some(sensorId), None, None, Some(RECENT_ACTIVITY_LIMIT));
      RecentActivity(readings, sensorId);
      Windows(readings, sensorId, now);
      Ok(DeviceDetails(
        View(devices[sensorId], now),
        recent,
        WindowStatsSince(readings, sensorId, now - HOUR_MS),
        WindowStatsSince(readings, sensorId, now - DAY_MS)))
  }

  /**
   * `recent` is the sensor's newest readings, newest first: ten of them, or
   * all of them when it has fewer, none more often than it is stored.
   */
  predicate NewestOf(readings: seq<Reading>, sensorId: string, recent: seq<Reading>)
  {
    var own := Select(readings, ReadingFilter(Some(sensorId), None, None, None));
    && |recent| == (if |own| < RECENT_ACTIVITY_LIMIT then |own| else RECENT_ACTIVITY_LIMIT)
    && (forall x :: x in recent ==> x in readings && x.sensorId == sensorId)
    && multiset(recent) <= multiset(own)
    && (forall i, j :: 0 <= i < j < |recent| ==> recent[i].timestamp >= recent[j].timestamp)
    && (forall x, y :: x in readings && x.sensorId == sensorId && x !in recent && y in recent
          ==> y.timestamp >= x.timestamp)
  }

  /** The recent activity is the sensor's newest readings, at most ten of them. */
  lemma RecentActivity(readings: seq<Reading>, sensorId: string)
    requires AllValid(readings) && sensorId != ""
    ensures var recent := SensorController.GetSensorData(readings, Some(sensorId), None, None, Some(RECENT_ACTIVITY_LIMIT));
      && |recent| <= RECENT_ACTIVITY_LIMIT
      && NewestOf(readings, sensorId, recent)
  {
    var f := SensorController.ReadingsQuery(Some(sensorId), None, None);
    assert f == ReadingFilter(Some(sensorId), None, None, None);
    assert Abs(SensorController.LimitOr(Some(RECENT_ACTIVITY_LIMIT), SensorController.DEFAULT_READINGS_LIMIT)) == RECENT_ACTIVITY_LIMIT;
  }

  /** The last hour's window lies inside the last day's, and its total is not negative. */
  lemma Windows(readings: seq<Reading>, sensorId: string, now: int)
    requires AllValid(readings)
    ensures var hour, day := WindowStatsSince(readings, sensorId, now - HOUR_MS), WindowStatsSince(readings, sensorId, now - DAY_MS);
      && hour.totalCount <= day.totalCount
      && hour.dataPoints <= day.dataPoints
      && (day.dataPoints == 0 ==> hour == day == WindowStats(0, 0))
      && 0 <= hour.totalCount
  {
    var hourFilter := ReadingFilter(Some(sensorId), Some(now - HOUR_MS), None, None);
    var dayFilter := ReadingFilter(Some(sensorId), Some(now - DAY_MS), None, None);
    SelectWider(readings, hourFilter, dayFilter);
    SumOfNonNegative(Select(readings, hourFilter), CountOf);
  }

  /** The `location` of a registration body; its `coordinates` may be missing. */
  datatype LocationInput = LocationInput(coordinates: Option<seq<int>>)

  datatype RegisterError = IdAndNameRequired   // 400

  /**
   * `POST /devices`: refused unless both sensor id and name are truthy;
   * otherwise an upsert by sensor id that sets the name, last seen now,
   * status active, the location when one is given (coordinates default to
   * [0, 0]) and the description when it is truthy.
   */
  function CreateOrUpdateDevice(
    devices: map<string, Device>, sensorId: Option<string>, name: Option<string>,
    location: Option<LocationInput>, description: Option<string>, now: int)
    : (r: Result<map<string, Device>, RegisterError>)
    ensures r.Err? <==> !SensorController.Truthy(sensorId) || !SensorController.Truthy(name)
    ensures r.Ok? ==> var id, m := sensorId.value, r.value;
      && m.Keys == devices.Keys + {id}
      && (forall k :: k in devices && k != id ==> m[k] == devices[k])
      && m[id].name == name && m[id].lastSeen == now && m[id].status == Active
      && (location.Some? ==> m[id].location == Some(Location(POINT,
            if location.value.coordinates.Some? then location.value.coordinates.value else [0, 0])))
      && (location.None? ==> m[id].location == if id in devices then devices[id].location else None)
      && m[id].description == (if SensorController.Truthy(description) then description.value
                               else if id in devices then devices[id].description else "")
      && (id in devices ==> && m[id].batteryLevel == devices[id].batteryLevel
                            && m[id].firmwareVersion == devices[id].firmwareVersion
                            && m[id].installationDate == devices[id].installationDate)
      && (id !in devices ==> && m[id].batteryLevel == DEFAULT_BATTERY_LEVEL
                             && m[id].firmwareVersion == DEFAULT_FIRMWARE_VERSION
                             && m[id].installationDate == now)
      && (WellKeyed(devices) ==> WellKeyed(m))
  {
    if !SensorController.Truthy(sensorId) || !SensorController.Truthy(name) then Err(IdAndNameRequired)
    else
      var loc := if location.None? then None
                 else Some(Location(POINT, if location.value.coordinates.Some? then location.value.coordinates.value else [0, 0]));
      var desc := if SensorController.Truthy(description) then description else None;
      Ok(Upsert(devices, sensorId.value, DeviceUpdate(name, loc, desc, Active, now), now))
  }

  /** Why a status change was refused, with the HTTP status the handler answers. */
  datatype StatusError =
    | InvalidStatus    // 400: not one of the three enum values
    | DeviceNotFound   // 404: no device has this sensor id
    | ReferenceError   // 500: the update read `device` before its declaration completed

  /**
   * `PUT /devices/:sensor_id/status` as written: the update document reads
   * `device?.last_seen` inside the initializer of `device` itself, which
   * throws before the store is consulted whenever the status is not `active`.
   */
  function UpdateDeviceStatusAsWritten(devices: map<string, Device>, sensorId: string, status: Option<string>, now: int)
    : (r: Result<map<string, Device>, StatusError>)
    ensures r == Err(InvalidStatus) <==> status.None? || ParseStatus(status.value).None?
    ensures r == Err(ReferenceError) <==> status.Some? && (status.value == "inactive" || status.value == "maintenance")
    ensures r == Err(DeviceNotFound) <==> status == Some("active") && sensorId !in devices
    ensures r.Ok? ==> sensorId in devices && r.value == devices[sensorId := devices[sensorId].(status := Active, lastSeen := now)]
  {
    if status.None? || ParseStatus(status.value).None? then Err(InvalidStatus)
    else if ParseStatus(status.value).value != Active then Err(ReferenceError)
    else if sensorId !in devices then Err(DeviceNotFound)
    else Ok(devices[sensorId := devices[sensorId].(status := Active, lastSeen := now)])
  }

  /** As written, putting a known device into maintenance fails with a server error and changes nothing. */
  lemma MaintenanceFailsAsWritten(devices: map<string, Device>, sensorId: string, now: int)
    requires sensorId in devices
    ensures UpdateDeviceStatusAsWritten(devices, sensorId, Some("maintenance"), now) == Err(ReferenceError)
  {
  }

  /**
   * `PUT /devices/:sensor_id/status` as intended: the status is validated
   * first (so an unknown sensor with a bad status gets 400), then a known
   * device takes the status; `active` also refreshes last seen, the other
   * values leave it unchanged.
   */
  function UpdateDeviceStatus(devices: map<string, Device>, sensorId: string, status: Option<string>, now: int)
    : (r: Result<map<string, Device>, StatusError>)
    ensures r == Err(InvalidStatus) <==> status.None? || ParseStatus(status.value).None?
    ensures r == Err(DeviceNotFound) <==> status.Some? && ParseStatus(status.value).Some? && sensorId !in devices
    ensures r != Err(ReferenceError)
    ensures r.Ok? ==> var s := ParseStatus(status.value).value;
      && sensorId in devices && r.value.Keys == devices.Keys
      && (forall k :: k in devices && k != sensorId ==> r.value[k] == devices[k])
      && r.value[sensorId].status == s
      && r.value[sensorId].lastSeen == (if s == Active then now else devices[sensorId].lastSeen)
      && r.value[sensorId].(status := devices[sensorId].status, lastSeen := devices[sensorId].lastSeen) == devices[sensorId]
  {
    if status.None? || ParseStatus(status.value).None? then Err(InvalidStatus)
    else if sensorId !in devices then Err(DeviceNotFound)
    else
      var s := ParseStatus(status.value).value;
      var d := devices[sensorId];
      Ok(devices[sensorId := d.(status := s, lastSeen := if s == Active then now else d.lastSeen)])
  }

  /** Repeating a status change at the same instant changes nothing more. */
  lemma {:induction false} UpdateDeviceStatusIdempotent(devices: map<string, Device>, sensorId: string, status: string, now: int)
    requires UpdateDeviceStatus(devices, sensorId, Some(status), now).Ok?
    ensures var once := UpdateDeviceStatus(devices, sensorId, Some(status), now).value;
      UpdateDeviceStatus(once, sensorId, Some(status), now) == Ok(once)
  {
    var once := UpdateDeviceStatus(devices, sensorId, Some(status), now).value;
    assert once[sensorId := once[sensorId]] == once;
  }

  /** `GET /devices/status/summary`. */
  datatype StatusSummary = StatusSummary(total: nat, active: nat, inactive: int, byStatus: map<string, nat>)

  /** The sensor ids of the devices seen at or after one hour before `now` (an inclusive bound here). */
  function RecentlySeen(devices: map<string, Device>, now: int): set<string>
  {
    set k | k in devices && devices[k].lastSeen >= now - HOUR_MS
  }

  function WithStatus(devices: map<string, Device>, s: Status): set<string>
  {
    set k | k in devices && devices[k].status == s
  }

  /** The `$group` by status: an entry for each status some device has, with its number of devices. */
  function ByStatus(devices: map<string, Device>): (m: map<string, nat>)
    ensures forall s: Status :: StatusName(s) in m <==> WithStatus(devices, s) != {}
    ensures forall s: Status :: StatusName(s) in m ==> m[StatusName(s)] == |WithStatus(devices, s)|
    ensures m.Keys <= {"active", "inactive", "maintenance"}
  {
    var entry := (s: Status) =>
      var n := |WithStatus(devices, s)|;
      if n > 0 then map[StatusName(s) := n] else map[];
    entry(Active) + entry(Inactive) + entry(Maintenance)
  }

  /** The sum of the values of a `by_status` map. */
  function StatusTotal(m: map<string, nat>): int
  {
    (if "active" in m then m["active"] else 0)
    + (if "inactive" in m then m["inactive"] else 0)
    + (if "maintenance" in m then m["maintenance"] else 0)
  }

  /**
   * The summary: total devices, those seen within the last hour (inclusive)
   * as active, the rest as inactive, and the number of devices per stored
   * status, which add up to the total.
   */
  function GetDeviceStatusSummary(devices: map<string, Device>, now: int): (r: StatusSummary)
    ensures r.total == |devices|
    ensures r.active == |RecentlySeen(devices, now)|
    ensures r.active + r.inactive == r.total && r.inactive >= 0
    ensures r.byStatus == ByStatus(devices) && StatusTotal(r.byStatus) == r.total
  {
    var total := |devices|;
    var active := |RecentlySeen(devices, now)|;
    var seen := RecentlySeen(devices, now);
    var stale := devices.Keys - seen;
    assert devices.Keys == seen + stale && seen !! stale;
    var byStatus := ByStatus(devices);
    StatusPartition(devices);
    StatusSummary(total, active, total - active, byStatus)
  }

  /** Every device has exactly one of the three statuses. */
  lemma StatusPartition(devices: map<string, Device>)
    ensures |WithStatus(devices, Active)| + |WithStatus(devices, Inactive)| + |WithStatus(devices, Maintenance)| == |devices|
    ensures StatusTotal(ByStatus(devices)) == |devices|
  {
    var a, i, m := WithStatus(devices, Active), WithStatus(devices, Inactive), WithStatus(devices, Maintenance);
    assert devices.Keys == a + i + m;
    assert a !! i && (a + i) !! m;
    assert |a + i| == |a| + |i|;
    assert |a + i + m| == |a + i| + |m|;
    var b := ByStatus(devices);
    assert StatusName(Active) == "active" && StatusName(Inactive) == "inactive" && StatusName(Maintenance) == "maintenance";
  }

  /**
   * The three liveness tests disagree exactly one hour after last seen: the
   * `isActive` virtual says inactive, the summary counts the device as
   * active, and the pre-save hook keeps an active device active.
   */
  lemma LivenessBoundary(devices: map<string, Device>, sensorId: string, now: int)
    requires sensorId in devices && now - devices[sensorId].lastSeen == HOUR_MS
    ensures !View(devices[sensorId], now).isActive
    ensures sensorId in RecentlySeen(devices, now)
    ensures PreSave(devices[sensorId], now) == devices[sensorId]
  {
  }
}
