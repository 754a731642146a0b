# Footfall monitoring backend, modelled in Dafny

This project models the backend of a footfall monitoring system. Sensors post
people counts. The server stores each count as a Reading, keeps a registry of
Devices (one per sensor id, with a liveness status) and broadcasts every new
reading. It also answers three kinds of query:
- the readings themselves, newest first;
- the devices, with their liveness;
- analytics: hourly or daily aggregates per sensor, a per-minute chart of the last hour, and a today-versus-yesterday summary.

The model follows the backend's own structure:

- `readings.dfy` (module `Readings`): the Reading document and its schema validation.
- `devices.dfy` (module `Devices`): the Device document, its status enum and defaults, the `isActive` virtual and the pre-save demotion hook.
- `store.dfy`:
  - module `Queries`: the `find` filters over readings;
  - module `Registry`: the `findOneAndUpdate` upsert on the registry.
- `grouping.dfy` (module `Grouping`): the `$group` stage over readings. It produces one bucket per (sensor id, time bucket) key, with `$sum`, `$sum: 1`, `$min` and `$max`. The model proves that each bucket holds exactly the statistics of the counts under its key.
- `sensor_controller.dfy`, `device_controller.dfy`, `analytics.dfy`: the request handlers. Each is a function of the readings, the registry and the current instant `now`. The `forEach` loop that fills the real-time chart is a method with a loop.
- `backend.dfy` (module `Backend`): the class `Store`, which holds the mutable state and the handlers that write to it:
  - `readings`, a sequence;
  - `devices`, a map from sensor id to Device;
  - `events`, the log of broadcast messages.
- `seqs.dfy` (modules `Seqs` and `Sums`), `numbers.dfy`, `calendar.dfy`, `wrappers.dfy`: a stable sort, the store's `limit`, sums, decimal formatting, rounding, and UTC calendar dates.

Modelling conventions:
- **Time** is an integer number of milliseconds since the epoch, and the current instant `now` is a parameter.
- **Buckets**: the hour bucket of `t` is `t / 3600000`, the day bucket `t / 86400000` and the minute bucket `t / 60000`. Dates and labels are UTC, as the store's date operators compute them.
- **Rounding**: averages and percentages that the handlers round to two decimals are integers in hundredths. `Math.round(a / b)` is `(2a + b) / (2b)` for `b > 0`, with floor division, which rounds halves up as `Math.round` does.
- **Errors**: refused requests are `Err` values that carry the reason. Each reason's comment gives the HTTP status the handler answers.

## Model

| member | source | states |
|---|---|---|
| Readings.Create | backend/src/models/SensorData.js:3-30 | a Reading is accepted iff its sensor id is non-empty, its count is present and not negative, and its location type is Point; the stored timestamp is the given one or `now`; a negative count is refused with the `min` error exactly when the id is valid |
| Readings.CreateAdmitsValid | backend/src/models/SensorData.js:3-30 | every Reading that satisfies the schema passes validation unchanged |
| Devices.ParseStatus | backend/src/models/Device.js:25-29 | a status string is accepted iff it is one of the three enum values, and then it names the parsed status |
| Devices.ParseStatusName | backend/src/models/Device.js:25-29 | parsing the name of a status gives that status back |
| Devices.NewDevice | backend/src/models/Device.js:4-51 | a device inserted for a sensor id carries the schema defaults: no name and no location, status active, battery level 100, firmware version `1.0.0`, an empty description, last seen and installed at the creation instant; it is valid and active at that instant |
| Devices.IsActiveFades | backend/src/models/Device.js:63-66 | a device active at an instant was active at every earlier instant, since the window only moves forward |
| Devices.PreSave | backend/src/models/Device.js:78-84 | the hook changes nothing but the status; the status changes iff it was active and last seen more than an hour before `now`, and then becomes inactive; afterwards an active device was seen within the hour; validity is kept |
| Devices.PreSaveIdempotent | backend/src/models/Device.js:78-84 | running the hook twice at the same instant equals running it once |
| Queries.Select | backend/src/controllers/sensorController.js:92-93 | `find(filter)` returns each stored reading that matches the filter as many times as it is stored, and no other reading |
| Queries.SelectWider | backend/src/controllers/deviceController.js:71-79 | a filter that admits more readings selects at least as many of them and at least as large a total count |
| Registry.Apply | backend/src/controllers/deviceController.js:138-142 | an update sets status and last seen, sets name, location and description only when given and otherwise keeps them, and keeps sensor id, battery level, firmware version and installation date; a valid device stays valid |
| Registry.Upsert | backend/src/controllers/deviceController.js:138-142 | the upsert keys the device under its sensor id; every other device is unchanged; status and last seen take the update's values; the name is the update's, or the old one when the update has none; an unknown id is first created with the schema defaults; the registry stays well keyed |
| SensorController.PrepareReading | backend/src/controllers/sensorController.js:7-34 | the ingest is refused as missing fields iff the sensor id is falsy or the count is undefined; it is refused as negative iff the count is below zero; a null count fails on save; otherwise the reading is valid, has the given sensor id and count, has the given timestamp unless it is missing or 0 (then `now`), and sits at the Point [0, 0] |
| SensorController.NewDataEvent | backend/src/controllers/sensorController.js:49-54 | the broadcast carries the stored reading's sensor, timestamp and count, with type `new_data` |
| SensorController.ReadingsQuery | backend/src/controllers/sensorController.js:76-90 | a reading matches iff it has the sensor id (when truthy) and lies within the inclusive start and end dates (when given) |
| SensorController.GetSensorData | backend/src/controllers/sensorController.js:74-101 | the result holds only stored matching readings, none more often than it is stored, newest first; its length is the limit (100 by default, 0 meaning none, negative meaning its absolute value) or the number of matches if fewer; no matching reading left out is newer than one returned |
| SensorController.NewestFirstPrefix | backend/src/controllers/sensorController.js:94-95 | the first readings of a newest-first order are newest first and are the newest ones |
| SensorController.GetSensorDataById | backend/src/controllers/sensorController.js:113-134 | the answer is 404 iff the sensor has no stored reading; otherwise that sensor's readings, none more often than stored, newest first, as many as the limit allows (100 by default) or all of them if fewer, and none left out newer than one returned |
| Grouping.Stats | backend/src/controllers/analyticsController.js:44-48 | a bucket's accumulators are the number of its counts, their sum, and a minimum and maximum that bound every count and are themselves counts |
| Grouping.StatsBounds | backend/src/controllers/analyticsController.js:44-48 | a bucket's total lies between points times its minimum and points times its maximum |
| Grouping.Accumulate | backend/src/controllers/analyticsController.js:44-45 | feeding a count into the buckets keeps the keys distinct, adds its key, and raises the summed totals by the count and the summed points by one |
| Grouping.Group | backend/src/controllers/analyticsController.js:66-68 | `$group` yields one bucket per key that occurs among the readings, each holding exactly the statistics of the counts under its key; the totals add up to the readings' total count and the points to their number |
| Grouping.PermutedDistinct | backend/src/controllers/analyticsController.js:69 | reordering the buckets keeps their keys distinct |
| Grouping.DistinctKeysCount | backend/src/controllers/analyticsController.js:87 | with distinct keys, the number of buckets is the number of keys |
| Seqs.SortBy | backend/src/controllers/analyticsController.js:69 | sorting gives an ordered permutation of its input |
| Seqs.SortByMembers | backend/src/controllers/analyticsController.js:69 | sorting keeps exactly the same elements |
| Seqs.Limit | backend/src/controllers/sensorController.js:95 | `limit(n)` returns a prefix: all of it for 0, otherwise the first \|n\| elements or fewer |
| Sums.SumOfPermutation | backend/src/controllers/analyticsController.js:209 | a sum does not depend on the order of its terms |
| Sums.SumOfAppend | backend/src/controllers/analyticsController.js:209 | the sum over two concatenated sequences is the sum of their sums |
| Numbers.RoundDiv | backend/src/controllers/analyticsController.js:80 | the rounded quotient is the integer nearest a / b, halves rounded up |
| Numbers.RoundDivBetween | backend/src/controllers/analyticsController.js:80 | rounding a quotient that lies between two integers stays between them |
| Numbers.NatToStringRoundTrip | backend/src/controllers/analyticsController.js:76 | the decimal text of a number reads back as that number |
| Numbers.Pad2RoundTrip | backend/src/controllers/analyticsController.js:76 | `padStart(2, '0')` of a number below 100 is two digits that read back as the number |
| Calendar.CivilFromDays | backend/src/controllers/analyticsController.js:39-42 | the UTC date of an epoch day has a month in 1..12 and a day in 1..31 |
| Calendar.CivilRoundTrip | backend/src/controllers/analyticsController.js:39-42 | counting the days from 1970-01-01 to the UTC date of a day gives that day back, so no two days share a date |
| Calendar.MinuteLabelInjective | backend/src/controllers/analyticsController.js:120-125 | for four-digit years, two minutes have the same `%Y-%m-%d %H:%M` label iff they are the same minute |
| Calendar.EpochIsNewYear1970 | backend/src/controllers/analyticsController.js:39-42 | epoch day 0 is 1970-01-01 |
| Calendar.BucketBounds | backend/src/controllers/analyticsController.js:39-42 | an instant lies inside its minute, hour and day bucket |
| Calendar.DayLabelFields | backend/src/controllers/analyticsController.js:77 | a day label of a four-digit year is `YYYY-MM-DD`, whose fields read back as the bucket's year, month and day |
| Calendar.HourLabelFields | backend/src/controllers/analyticsController.js:76 | an hour label is the day label, a space, the two-digit UTC hour and `:00` |
| Calendar.MinuteLabelFields | backend/src/controllers/analyticsController.js:121-124 | a minute label is the day label, a space, and the two-digit UTC hour and minute around a colon |
| Analytics.SensorFilter | backend/src/controllers/analyticsController.js:110-112 | only a truthy sensor id filters |
| Analytics.SortedGroups | backend/src/controllers/analyticsController.js:66-70 | the grouped, sorted buckets are in order, have distinct keys, each hold exactly their key's statistics, cover exactly the keys present, and conserve the total count and the number of readings |
| Analytics.ExactBucketBounds | backend/src/controllers/analyticsController.js:44-48 | every output bucket received at least one reading, and min times points is at most the total, which is at most max times points |
| Analytics.ParsePeriod | backend/src/controllers/analyticsController.js:35-64 | an absent period or `hour` means hourly and `day` means daily; any other value is refused, because it leaves the group stage without `_id` |
| Analytics.AnalyticsFilter | backend/src/controllers/analyticsController.js:13-33 | a reading matches iff it has the sensor id (when truthy) and lies within the inclusive start and end dates when either is given, or at or after `now` minus 24 hours when neither is |
| Analytics.HourDay | backend/src/controllers/analyticsController.js:39-42 | the hour bucket divided by 24 is the day bucket, and the hour of the day lies in 0..23 |
| Analytics.ReadingInBucket | backend/src/controllers/analyticsController.js:36-57 | a reading falls in the bucket of its sensor, its UTC date and, for hourly buckets, its hour of the day |
| Analytics.SameBucket | backend/src/controllers/analyticsController.js:36-57 | two readings fall in the same bucket iff they agree on the group `_id`: the same sensor, the same UTC year, month and day and, for hourly buckets, the same hour |
| Analytics.MinuteDay | backend/src/controllers/analyticsController.js:120-125 | the minute since the epoch divided by 1440 is the day since the epoch |
| Analytics.SameMinuteBucket | backend/src/controllers/analyticsController.js:117-128 | for four-digit years, two readings fall in the same per-minute bucket iff they have the same sensor and the same `%Y-%m-%d %H:%M` string |
| Analytics.StampOrder | backend/src/controllers/analyticsController.js:69 | comparing the flattened sort keys is comparing (year, month, day, hour) lexicographically |
| Analytics.Format | backend/src/controllers/analyticsController.js:73-83 | an item copies the bucket's sensor, total, points, min and max; its label is the bucket's hour or day label; its average is total / points in hundredths, rounded to nearest |
| Analytics.FormatAll | backend/src/controllers/analyticsController.js:73 | formatting is element-wise |
| Analytics.FormatAllSums | backend/src/controllers/analyticsController.js:73-83 | formatting keeps the summed totals and data points of the buckets |
| Analytics.GetAnalytics | backend/src/controllers/analyticsController.js:5-89 | the answer is an error iff the period is unsupported; otherwise it echoes the period, has one item per key present, and its items' totals and data points add up to the selected readings' total count and number |
| Analytics.AnalyticsItemBounds | backend/src/controllers/analyticsController.js:44-80 | every item has at least one data point and min ≤ avg ≤ max, with avg in hundredths |
| Analytics.AverageBounds | backend/src/controllers/analyticsController.js:80 | the rounded average lies between the minimum and the maximum |
| Analytics.AnalyticsChronological | backend/src/controllers/analyticsController.js:69 | items come in non-decreasing (year, month, day, hour) order, and no key occurs twice |
| Analytics.RealtimeFilter | backend/src/controllers/analyticsController.js:104-112 | a reading matches iff it has the sensor id (when truthy) and is at most an hour old |
| Analytics.Column | backend/src/controllers/analyticsController.js:135-143 | a sensor's buckets are buckets of that sensor, and there are none iff no bucket has its id |
| Analytics.ColumnCounts | backend/src/controllers/analyticsController.js:135-143 | a sensor's series receives every bucket of that sensor, each as many times as it occurs, and no bucket of another sensor |
| Analytics.ColumnAppend | backend/src/controllers/analyticsController.js:135-143 | the series of a sensor keeps the order of the buckets: the buckets of a prefix come before those of the rest |
| Analytics.Chart | backend/src/controllers/analyticsController.js:134-144 | the chart has a series exactly for each sensor that has a bucket |
| Analytics.ChartSeries | backend/src/controllers/analyticsController.js:134-144 | each series lists its sensor's buckets in order: their minute labels as labels and their totals as data |
| Analytics.BuildChart | backend/src/controllers/analyticsController.js:134-144 | the `forEach` loop builds exactly the chart |
| Analytics.GetRealTimeAnalytics | backend/src/controllers/analyticsController.js:101-149 | the handler returns the chart of the last hour's per-minute buckets |
| Analytics.ColumnAscending | backend/src/controllers/analyticsController.js:130 | within a series, minutes strictly increase |
| Analytics.RealtimeChartShape | backend/src/controllers/analyticsController.js:104-144 | the chart has a series exactly for the sensors with a reading in the last hour, and each series' minutes strictly increase |
| Analytics.SummaryWindows | backend/src/controllers/analyticsController.js:164-206 | today is the UTC day of `now` and later; yesterday is exactly the UTC day before, up to but not including the start of today; no reading is in both |
| Analytics.DayTotalsOf | backend/src/controllers/analyticsController.js:209-223 | a day's total is the sum of the sensor totals; its sensor count is the number of sensors; its average per sensor is the nearest integer to total / sensors, or 0 when no sensor reported |
| Analytics.ChangePercent | backend/src/controllers/analyticsController.js:211-224 | the change is 0 when yesterday's total is 0, otherwise the nearest hundredth of (today − yesterday) / yesterday × 100 |
| Analytics.ChangePercentSign | backend/src/controllers/analyticsController.js:211 | the change is 0 for equal totals, has the sign of the difference, and is at least −100% when today's total is not negative |
| Analytics.Detail | backend/src/controllers/analyticsController.js:225-230 | a sensor detail copies the bucket's sensor, total and points, and its average is total / points in hundredths, rounded to nearest |
| Analytics.Details | backend/src/controllers/analyticsController.js:225-230 | the details are element-wise, and their totals add up to the buckets' totals |
| Analytics.SensorGroups | backend/src/controllers/analyticsController.js:175-185 | a per-sensor `$group` has one bucket for each sensor present and no other, with distinct keys; each bucket holds exactly the sum, number, least and greatest of that sensor's counts; the buckets conserve the total count |
| Analytics.GetAnalyticsSummary | backend/src/controllers/analyticsController.js:161-231 | today's and yesterday's totals are the total counts of their windows; each sensor count is the number of sensors with readings in that window; each average per sensor is the day's totals over its per-sensor groups, rounded; the change is computed from the two totals; the sensor details are the details of today's per-sensor groups, one per sensor, adding up to today's total |
| Analytics.SummaryDetails | backend/src/controllers/analyticsController.js:172-231 | every sensor with a reading today has exactly one detail, and each detail holds the sum and the number of that sensor's counts today |
| Analytics.SummaryChangeBounded | backend/src/controllers/analyticsController.js:209-211 | with valid readings both totals are not negative and the change is at least −100% |
| DeviceController.View | backend/src/controllers/deviceController.js:22-31 | a listed device is active iff it was last seen less than an hour before `now` |
| DeviceController.Matching | backend/src/controllers/deviceController.js:10-13 | the status filter keeps exactly the devices whose stored status equals a truthy filter value |
| DeviceController.Ranked | backend/src/controllers/deviceController.js:15-17 | the matching devices, each exactly once, most recently seen first |
| DeviceController.Page | backend/src/controllers/deviceController.js:15-19 | the listed devices are registered and match the filter, most recently seen first, at most `limit` of them (50 by default), and they are a prefix of the full ranking |
| DeviceController.LastSeenPrefix | backend/src/controllers/deviceController.js:17-18 | the first devices of a most-recent-first order are most recent first and are the most recently seen |
| DeviceController.GetDevices | backend/src/controllers/deviceController.js:6-36 | each listed device is registered, matches the filter and carries its liveness; no sensor is listed twice; the list is most recently seen first, limited as `limit` says, and leaves out no device seen later than one listed |
| DeviceController.PageDistinct | backend/src/controllers/deviceController.js:24-28 | the listed devices carry distinct sensor ids, because the ranking holds as many devices as the registry has matching keys |
| DeviceController.ViewsOfPage | backend/src/controllers/deviceController.js:15-31 | a device whose sensor id is not listed was seen no later than any listed device |
| DeviceController.WindowStatsSince | backend/src/controllers/deviceController.js:71-79 | the window's data points are the number of the sensor's readings at or after the start, and its total is the sum of their counts; with no data points the total is 0 |
| DeviceController.GetDeviceById | backend/src/controllers/deviceController.js:48-98 | 404 iff the sensor is unregistered; otherwise the device with its liveness, its 10 newest readings (all of them if it has fewer, none more often than stored) newest first, and the last-hour and last-24-hours windows as `WindowStatsSince` computes them, the first no larger than the second; when the last 24 hours hold no reading both windows are 0 |
| DeviceController.CreateOrUpdateDevice | backend/src/controllers/deviceController.js:110-147 | refused iff the sensor id or the name is falsy; otherwise the device is upserted with the name, last seen `now`, status active, the given location (coordinates [0, 0] when missing) or the old one, the description when truthy or the old one; an existing device keeps its battery level, firmware version and installation date, a new one takes the defaults; no other device changes |
| DeviceController.UpdateDeviceStatusAsWritten | backend/src/controllers/deviceController.js:159-188 | as written: 400 iff the status is not an enum value; 500 iff it is `inactive` or `maintenance`; 404 iff it is `active` and the sensor is unregistered; otherwise an existing device becomes active and seen now |
| DeviceController.MaintenanceFailsAsWritten | backend/src/controllers/deviceController.js:174 | as written, putting a registered device into maintenance answers 500 |
| DeviceController.UpdateDeviceStatus | backend/src/controllers/deviceController.js:159-188 | 400 iff the status is not an enum value, checked before the registry; 404 iff it is valid and the sensor is unregistered; otherwise only that device changes, taking the status, with last seen `now` for `active` and unchanged otherwise |
| DeviceController.UpdateDeviceStatusIdempotent | backend/src/controllers/deviceController.js:170-177 | repeating a status change at the same instant changes nothing more |
| DeviceController.ByStatus | backend/src/controllers/deviceController.js:202-225 | `by_status` has an entry for each status some device has, holding the number of such devices |
| DeviceController.GetDeviceStatusSummary | backend/src/controllers/deviceController.js:200-228 | total is the number of devices; active is the number seen at or after an hour before `now`; active + inactive = total with inactive ≥ 0; `by_status` is the `$group` by status (an entry for each status some device has, with its number of devices), and its counts add up to total |
| DeviceController.StatusPartition | backend/src/controllers/deviceController.js:202-209 | every device has exactly one of the three statuses |
| DeviceController.LivenessBoundary | backend/src/controllers/deviceController.js:211-214 | exactly one hour after last seen, the `isActive` test says inactive, the summary counts the device as active, and the pre-save hook leaves it unchanged |
| Backend.Store.PostSensorData | backend/src/controllers/sensorController.js:5-60 | a refused ingest changes nothing; an accepted one appends exactly the reading, upserts its device as active and seen now, and logs one `new_data` event iff broadcasting; the store stays valid |
| Backend.Store.CreateOrUpdateDevice | backend/src/controllers/deviceController.js:110-147 | the registry takes the registration's result, or stays as it was when it is refused; readings and events are untouched |
| Backend.Store.UpdateDeviceStatus | backend/src/controllers/deviceController.js:159-188 | the registry takes the intended status change's result, or stays as it was when it is refused |
| Backend.UpdatedStatusValid | backend/src/controllers/deviceController.js:170-177 | a status change keeps the registry well keyed |
| Backend.IngestRefreshesDevice | backend/src/controllers/sensorController.js:37-44 | after an ingest the sensor is registered, active, seen now and counted as recently seen, and keeps its name |
| Backend.IngestedReadingFound | backend/src/controllers/sensorController.js:113-134 | after an ingest, querying that sensor no longer answers 404, and its newest reading is no older than the ingested one |

## Left out

- HTTP and server plumbing is not modelled: Express, the routes, rate limiting, connection retries and error middleware. Each handler is a function or a method of its inputs; store and connection failures that answer 500 are not modelled, except the ones listed as error cases.
- The Socket.IO transport is not modelled. The broadcast is an appended event, and whether a socket server is attached is the `broadcasting` parameter.
- The MongoDB and mongoose engines are not modelled. `find`, `$match`, `$group`, `$sort` and `limit` are restated as functions over the sequence of readings.
- Parsing of request strings is not modelled. Dates arrive as milliseconds; `new Date(...)` of a malformed date is not modelled. `limit` arrives as an integer; `parseInt` of a non-number is not modelled. A count is an integer; non-integer and string counts are not modelled.
- Local time is not modelled. `moment().startOf('day')` and the "one day ago" window use the server's time zone and daylight saving; the model uses UTC days of exactly 24 hours.
- Floating point is not modelled: averages and percentages are exact rationals rounded to integer hundredths.
- Concurrency is not modelled: the two writes of an ingest and the concurrent requests are sequential, atomic steps.
- `timeSinceLastSeen`, `formattedTimestamp`, `formattedLastSeen` and the `createdAt`/`updatedAt` timestamps are not modelled, because they are presentation strings or bookkeeping.
- The schema's `required` on a device `name` is not enforced, because upserts skip validators: a device created by an ingest has no name, so `name` is optional in the model.
- Battery level, firmware version and installation date take only their defaults, because no handler writes them.
- Grouping.Group: the order of `$group`'s output is unspecified in the store; the model fixes one order, the order in which each key's first reading is stored, first-seen key first. The summary's `sensor_details` follow that order in the model, while the store may list them in any order.
- Analytics.SortedGroups: `$sort` leaves the order of buckets with equal sort keys unspecified; the model breaks ties by the stable sort, keeping `$group`'s order.
- DeviceController.GetDevices: a ghost function, because the order of the registry's documents is unspecified (`Listing` picks one). The contract states everything that holds for every order.
- Queries.Select: states which readings are selected and how often, not their order; the handlers that depend on order sort afterwards.
- Analytics.Chart: the chart is a map, not a plain JavaScript object. In the source a sensor id that names a member of `Object.prototype` (such as `constructor` or `toString`) makes `chartData[id]` truthy before any series exists, so `push` throws and the handler answers 500; the model builds a series for it. Sensor ids are not restricted in the model.
- Calendar.DateLabel: `%Y` pads the year to four digits; the day, hour and minute labels here write years below 1000 with fewer digits. Readings before year 1000 are not expected, and `MinuteLabelInjective` is stated for four-digit years only.
- Calendar.CivilFromDays: proved to give a month in 1..12 and a day in 1..31, to be inverted by `DaysFromCivil`, and to give 1970-01-01 for day 0. That every date it gives exists in the Gregorian calendar, such as no 30 February, is not proved.
- Analytics.RealtimeChartShape: states that the minutes of each series strictly increase, not that the label strings increase in string order. The model groups per-minute buckets by minute index, not by label string; `SameMinuteBucket` proves the two groupings agree for four-digit years. That the label order agrees with the minute order is not proved.
- Analytics.ParsePeriod: the store's error for a `$group` without `_id` is assumed rather than modelled.
- Devices.PreSave is modelled but called by no handler, because every device write goes through `findOneAndUpdate`, which does not run save hooks.

## Findings

| source | as written | input that shows it | evidently intended | confidence | as-written member | corrected member |
|---|---|---|---|---|---|---|
| backend/src/controllers/deviceController.js:174 | the update document reads `device?.last_seen` inside the initializer of `const device`, which throws a ReferenceError whenever the new status is not `active`, so the handler answers 500 and nothing changes | `PUT /devices/S1/status` with body `{"status": "maintenance"}` for a registered device `S1` | set the status and leave `last_seen` as it was | not executed | DeviceController.MaintenanceFailsAsWritten | DeviceController.UpdateDeviceStatus |
