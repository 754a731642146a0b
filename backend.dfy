/**
 * The server's mutable state: the stored readings, the device registry keyed
 * by sensor id, and the `sensorDataUpdate` messages broadcast so far. The
 * handlers that write to the store are methods of `Store`; those that only
 * read are the functions of the controller modules, applied to its fields.
 */
module Backend {
  import opened Wrappers
  import opened Readings
  import opened Devices
  import opened Queries
  import opened Registry
  import opened SensorController
  import DeviceController

  class Store {
    var readings: seq<Reading>
    var devices: map<string, Device>
    var events: seq<Event>

    /** Every stored reading passed the schema, and every device sits under its own sensor id. */
    ghost predicate Valid()
      reads this
    {
      AllValid(readings) && WellKeyed(devices)
    }

    constructor ()
      ensures Valid()
      ensures readings == [] && devices == map[] && events == []
    {
      readings := [];
      devices := map[];
      events := [];
    }

    /**
     * `POST /sensor-data`: a refused reading changes nothing; an accepted one
     * is appended, its device is upserted as active and seen now, and the
     * reading is broadcast when a socket server is attached.
     */
    method PostSensorData(sensorId: Option<string>, timestamp: Option<int>, count: CountField, now: int, broadcasting: bool)
      returns (result: Result<Reading, IngestError>)
      requires Valid()
      modifies this
      ensures Valid()
      ensures result == PrepareReading(sensorId, timestamp, count, now)
      ensures result.Err? ==> readings == old(readings) && devices == old(devices) && events == old(events)
      ensures result.Ok? ==>
        && readings == old(readings) + [result.value]
        && devices == Upsert(old(devices), result.value.sensorId, IngestUpdate(now), now)
        && events == old(events) + (if broadcasting then [NewDataEvent(result.value)] else [])
    {
      result := PrepareReading(sensorId, timestamp, count, now);
      if result.Ok? {
        var r := result.value;
        readings := readings + [r];
        devices := Upsert(devices, r.sensorId, IngestUpdate(now), now);
        if broadcasting {
          events := events + [NewDataEvent(r)];
        }
      }
    }

    /** `POST /devices`: registers or updates a device, and returns it. */
    method CreateOrUpdateDevice(
      sensorId: Option<string>, name: Option<string>, location: Option<DeviceController.LocationInput>,
      description: Option<string>, now: int)
      returns (result: Result<Device, DeviceController.RegisterError>)
      requires Valid()
      modifies this
      ensures Valid()
      ensures readings == old(readings) && events == old(events)
      ensures var r := DeviceController.CreateOrUpdateDevice(old(devices), sensorId, name, location, description, now);
        && (result.Err? <==> r.Err?)
        && (r.Err? ==> devices == old(devices))
        && (r.Ok? ==> devices == r.value && result == Ok(devices[sensorId.value]))
    {
      var r := DeviceController.CreateOrUpdateDevice(devices, sensorId, name, location, description, now);
      if r.Err? {
        result := Err(r.error);
      } else {
        devices := r.value;
        result := Ok(devices[sensorId.value]);
      }
    }

    /** `PUT /devices/:sensor_id/status`, with the status update as intended. */
    method UpdateDeviceStatus(sensorId: string, status: Option<string>, now: int)
      returns (result: Result<Device, DeviceController.StatusError>)
      requires Valid()
      modifies this
      ensures Valid()
      ensures readings == old(readings) && events == old(events)
      ensures var r := DeviceController.UpdateDeviceStatus(old(devices), sensorId, status, now);
        && (r.Err? ==> devices == old(devices) && result == Err(r.error))
        && (r.Ok? ==> devices == r.value && result == Ok(devices[sensorId]))
    {
      var r := DeviceController.UpdateDeviceStatus(devices, sensorId, status, now);
      if r.Err? {
        result := Err(r.error);
      } else {
        UpdatedStatusValid(devices, sensorId, status, now);
        devices := r.value;
        result := Ok(devices[sensorId]);
      }
    }
  }

  /** A status change keeps the registry well keyed. */
  lemma UpdatedStatusValid(devices: map<string, Device>, sensorId: string, status: Option<string>, now: int)
    requires WellKeyed(devices) && DeviceController.UpdateDeviceStatus(devices, sensorId, status, now).Ok?
    ensures WellKeyed(DeviceController.UpdateDeviceStatus(devices, sensorId, status, now).value)
  {
  }

  /** Right after an accepted reading its device is registered, active and live. */
  lemma IngestRefreshesDevice(devices: map<string, Device>, r: Reading, now: int)
    requires WellKeyed(devices) && ValidReading(r)
    ensures var d := Upsert(devices, r.sensorId, IngestUpdate(now), now);
      && r.sensorId in d
      && d[r.sensorId].status == Active && d[r.sensorId].lastSeen == now
      && IsActive(d[r.sensorId], now)
      && r.sensorId in DeviceController.RecentlySeen(d, now)
      && (r.sensorId in devices ==> d[r.sensorId].name == devices[r.sensorId].name)
  {
  }

  /** After an accepted reading, its sensor's readings can be fetched, newest first, starting at a reading no older than it. */
  lemma IngestedReadingFound(readings: seq<Reading>, r: Reading)
    requires ValidReading(r)
    ensures var q := GetSensorDataById(readings + [r], r.sensorId, None);
      && q.Ok?
      && q.value[0].timestamp >= r.timestamp
  {
    var all := readings + [r];
    assert r in all && Matches(ReadingsQuery(Some(r.sensorId), None, None), r);
    var data := GetSensorData(all, Some(r.sensorId), None, None, None);
    assert GetSensorDataById(all, r.sensorId, None) == Ok(data);
    if r in data {
      var k :| 0 <= k < |data| && data[k] == r;
      assert k == 0 || data[0].timestamp >= data[k].timestamp;
    } else {
      assert data[0] in data;
    }
  }
}
