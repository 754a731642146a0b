/**
 * The Device document: one record per sensor id, with its liveness state.
 * Liveness is judged against a one-hour window before the current instant.
 */
module Devices {
  import opened Wrappers
  import opened Calendar
  import opened Readings

  /** The three values the `status` enum admits. */
  datatype Status = Active | Inactive | Maintenance

  function StatusName(s: Status): string
  {
    match s
    case Active => "active"
    case Inactive => "inactive"
    case Maintenance => "maintenance"
  }

  /** Recognises an enum value; any other string is refused. */
  function ParseStatus(name: string): (r: Option<Status>)
    ensures r.Some? ==> StatusName(r.value) == name
    ensures r.None? <==> name != "active" && name != "inactive" && name != "maintenance"
  {
    if name == "active" then Some(Active)
    else if name == "inactive" then Some(Inactive)
    else if name == "maintenance" then Some(Maintenance)
    else None
  }

  lemma ParseStatusName(s: Status)
    ensures ParseStatus(StatusName(s)) == Some(s)
  {
  }

  const DEFAULT_BATTERY_LEVEL: int := 100
  const DEFAULT_FIRMWARE_VERSION: string := "1.0.0"

  /**
   * A device record. `name` and `location` are optional because an upsert
   * made by the ingest path inserts a device with neither.
   */
  datatype Device = Device(
    sensorId: string,
    name: Option<string>,
    location: Option<Location>,
    status: Status,
    lastSeen: int,
    batteryLevel: int,
    firmwareVersion: string,
    installationDate: int,
    description: string)

  /** What the schema bounds: a sensor id, a battery level within 0..100, a Point location. */
  predicate ValidDevice(d: Device)
  {
    && d.sensorId != ""
    && 0 <= d.batteryLevel <= 100
    && (d.location.Some? ==> d.location.value.kind == POINT)
  }

  /**
   * The document an upsert inserts for an unknown sensor id at instant
   * `now`: every schema default filled in (status active, battery 100,
   * firmware 1.0.0, empty description, last seen and installed now).
   */
  function NewDevice(sensorId: string, now: int): (d: Device)
    requires sensorId != ""
    ensures ValidDevice(d) && d.sensorId == sensorId && IsActive(d, now)
    ensures d.name.None? && d.location.None? && d.description == ""
    ensures d.status == Active && d.lastSeen == now && d.installationDate == now
    ensures d.batteryLevel == DEFAULT_BATTERY_LEVEL && d.firmwareVersion == DEFAULT_FIRMWARE_VERSION
  {
    Device(sensorId, None, None, Active, now, DEFAULT_BATTERY_LEVEL, DEFAULT_FIRMWARE_VERSION, now, "")
  }

  /** The `isActive` virtual: last seen strictly after one hour before `now`. */
  predicate IsActive(d: Device, now: int)
  {
    d.lastSeen > now - HOUR_MS
  }

  /** Without a new write, a device that is active at some instant was active at every earlier one. */
  lemma IsActiveFades(d: Device, earlier: int, later: int)
    requires earlier <= later && IsActive(d, later)
    ensures IsActive(d, earlier)
  {
  }

  /**
   * The pre-save hook: an `active` device last seen more than an hour
   * before `now` is demoted to `inactive`; nothing else is touched.
   */
  function PreSave(d: Device, now: int): (r: Device)
    ensures r.(status := d.status) == d
    ensures r.status != d.status <==> d.status == Active && d.lastSeen < now - HOUR_MS
    ensures r.status != d.status ==> r.status == Inactive
    ensures r.status == Active ==> r.lastSeen >= now - HOUR_MS
    ensures ValidDevice(d) ==> ValidDevice(r)
  {
    if d.lastSeen < now - HOUR_MS && d.status == Active then d.(status := Inactive) else d
  }

  /** Saving twice at the same instant is the same as saving once. */
  lemma PreSaveIdempotent(d: Device, now: int)
    ensures PreSave(PreSave(d, now), now) == PreSave(d, now)
  {
  }
}
