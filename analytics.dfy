/**
 * The analytics handlers: hourly or daily aggregates per sensor, the
 * per-minute chart of the last hour and the today-versus-yesterday summary.
 * Averages and percentages are integers in hundredths, as the handlers round
 * them to two decimals.
 */
module Analytics {
  import opened Wrappers
  import opened Seqs
  import opened Sums
  import opened Numbers
  import opened Calendar
  import opened Readings
  import opened Queries
  import opened Grouping
  import SensorController

  /** The sensor part of every analytics `$match`: only a truthy `sensor_id` filters. */
  function SensorFilter(sensorId: Option<string>): (f: Option<string>)
    ensures f.Some? <==> SensorController.Truthy(sensorId)
    ensures f.Some? ==> f == sensorId
  {
    if SensorController.Truthy(sensorId) then sensorId else None
  }

  /** The `$group` output ordered by `key`, with what `$group` guarantees about it. */
  function SortedGroups(selected: seq<Reading>, g: Granularity, key: Bucket -> int): (bs: seq<Bucket>)
    ensures SortedBy(bs, key)
    ensures DistinctKeys(bs)
    ensures forall b :: b in bs ==> ExactAt(b, selected, g)
    ensures KeySet(bs) == ReadingKeys(selected, g)
    ensures SumOf(bs, Total) == SumOf(selected, CountOf) && SumOf(bs, Points) == |selected|
  {
    var groups := Group(selected, g);
    var bs := SortBy(groups, key);
    PermutedBuckets(groups, bs, selected, g);
    bs
  }

  /** A bucket under an exact key received at least one reading, and its accumulators are ordered. */
  lemma ExactBucketBounds(b: Bucket, s: seq<Reading>, g: Granularity)
    requires ExactAt(b, s, g)
    ensures b.points >= 1 && b.min <= b.max
    ensures b.min * b.points <= b.total <= b.max * b.points
  {
    StatsBounds(b.key, CountsOf(s, g, b.key));
  }

  // GET /analytics

  datatype Period = Hour | Day

  /** Why `GET /analytics` answers 500: any other period leaves `$group` without `_id`, which the store rejects. */
  datatype AnalyticsError = UnsupportedPeriod

  function PeriodName(p: Period): string
  {
    match p
    case Hour => "hour"
    case Day => "day"
  }

  /** The `period` query parameter, `hour` when absent. */
  function ParsePeriod(period: Option<string>): (r: Result<Period, AnalyticsError>)
    ensures r == Ok(Hour) <==> period.None? || period.value == "hour"
    ensures r == Ok(Day) <==> period == Some("day")
    ensures r.Err? <==> period.Some? && period.value != "hour" && period.value != "day"
    ensures r.Ok? ==> period.None? || period == Some(PeriodName(r.value))
  {
    if period.None? || period.value == "hour" then Ok(Hour)
    else if period.value == "day" then Ok(Day)
    else Err(UnsupportedPeriod)
  }

  function GranularityOf(p: Period): Granularity
  {
    if p == Hour then PerHour else PerDay
  }

  /**
   * The `$match` of `GET /analytics`: the sensor when given, and the dates
   * given (`$gte` start, `$lte` end), or the last 24 hours when neither is.
   */
  function AnalyticsFilter(sensorId: Option<string>, startDate: Option<int>, endDate: Option<int>, now: int)
    : (f: ReadingFilter)
    ensures forall r :: Matches(f, r) <==>
      && (SensorController.Truthy(sensorId) ==> r.sensorId == sensorId.value)
      && (startDate.None? && endDate.None? ==> r.timestamp >= now - DAY_MS)
      && (startDate.Some? ==> r.timestamp >= startDate.value)
      && (endDate.Some? ==> r.timestamp <= endDate.value)
  {
    if startDate.None? && endDate.None? then ReadingFilter(SensorFilter(sensorId), Some(now - DAY_MS), None, None)
    else ReadingFilter(SensorFilter(sensorId), startDate, endDate, None)
  }

  /** The UTC date and hour of the `_id` of an hourly or daily bucket. */
  function BucketDate(p: Period, k: Key): Date
  {
    CivilFromDays(if p == Hour then k.index / 24 else k.index)
  }

  function BucketHour(p: Period, k: Key): int
  {
    if p == Hour then k.index % 24 else 0
  }

  /** The hour since the epoch, divided into days, is the day since the epoch. */
  lemma HourDay(t: int)
    ensures HourOf(t) / 24 == DayOf(t)
    ensures 0 <= HourOf(t) - 24 * DayOf(t) < 24
  {
    var h, d := HourOf(t), HourOf(t) / 24;
    BucketBounds(t);
    assert 24 * d <= h < 24 * d + 24;
    assert DAY_MS * d == HOUR_MS * (24 * d);
    assert HOUR_MS * (24 * d) <= HOUR_MS * h by {
      MulMonotone(HOUR_MS, 24 * d, h);
    }
    assert HOUR_MS * h <= HOUR_MS * (24 * d + 23) by {
      MulMonotone(HOUR_MS, h, 24 * d + 23);
    }
    assert DAY_MS * d <= t < DAY_MS * d + DAY_MS;
    DivUnique(t, DAY_MS, d);
  }

  /**
   * A reading falls in the bucket of its sensor, of its UTC date and, for
   * hourly buckets, of its hour of the day.
   */
  lemma ReadingInBucket(p: Period, r: Reading)
    ensures var k := KeyOf(GranularityOf(p), r);
      && k.sensorId == r.sensorId
      && BucketDate(p, k) == CivilFromDays(DayOf(r.timestamp))
      && (p == Hour ==> BucketHour(p, k) == HourOf(r.timestamp) - 24 * DayOf(r.timestamp))
      && 0 <= BucketHour(p, k) < 24
  {
    HourDay(r.timestamp);
  }

  /**
   * Two readings share a bucket exactly when the `_id` of the store's
   * `$group` agrees on them: the same sensor, the same UTC year, month and
   * day, and for hourly buckets the same hour.
   */
  lemma SameBucket(p: Period, a: Reading, b: Reading)
    ensures KeyOf(GranularityOf(p), a) == KeyOf(GranularityOf(p), b) <==>
      && a.sensorId == b.sensorId
      && CivilFromDays(DayOf(a.timestamp)) == CivilFromDays(DayOf(b.timestamp))
      && (p == Hour ==> HourOf(a.timestamp) - 24 * DayOf(a.timestamp) == HourOf(b.timestamp) - 24 * DayOf(b.timestamp))
  {
    HourDay(a.timestamp);
    HourDay(b.timestamp);
    CivilRoundTrip(DayOf(a.timestamp));
    CivilRoundTrip(DayOf(b.timestamp));
  }

  /** The minute since the epoch, divided into days, is the day since the epoch. */
  lemma MinuteDay(t: int)
    ensures MinuteOf(t) / 1440 == DayOf(t)
  {
    var m, d := MinuteOf(t), MinuteOf(t) / 1440;
    BucketBounds(t);
    assert 1440 * d <= m < 1440 * d + 1440;
    assert DAY_MS * d == MINUTE_MS * (1440 * d);
    MulMonotone(MINUTE_MS, 1440 * d, m);
    MulMonotone(MINUTE_MS, m + 1, 1440 * d + 1440);
    DivUnique(t, DAY_MS, d);
  }

  /**
   * The real-time chart groups by the `%Y-%m-%d %H:%M` string of a reading;
   * for four-digit years, two readings share that string and a sensor
   * exactly when they share a per-minute bucket.
   */
  lemma SameMinuteBucket(a: Reading, b: Reading)
    requires 1000 <= CivilFromDays(DayOf(a.timestamp)).year <= 9999
    requires 1000 <= CivilFromDays(DayOf(b.timestamp)).year <= 9999
    ensures KeyOf(PerMinute, a) == KeyOf(PerMinute, b) <==>
      a.sensorId == b.sensorId && MinuteLabel(MinuteOf(a.timestamp)) == MinuteLabel(MinuteOf(b.timestamp))
  {
    MinuteDay(a.timestamp);
    MinuteDay(b.timestamp);
    MinuteLabelInjective(MinuteOf(a.timestamp), MinuteOf(b.timestamp));
  }

  /** The `$sort` on year, month, day and hour, flattened into one number. */
  function Stamp(d: Date, hour: int): int
  {
    d.year * 1000000 + d.month * 10000 + d.day * 100 + hour
  }

  /** Lexicographic order on (year, month, day, hour). */
  predicate LexLe(a: Date, ha: int, b: Date, hb: int)
  {
    || a.year < b.year
    || (a.year == b.year && a.month < b.month)
    || (a.year == b.year && a.month == b.month && a.day < b.day)
    || (a.year == b.year && a.month == b.month && a.day == b.day && ha <= hb)
  }

  /** Comparing stamps is comparing (year, month, day, hour) field by field. */
  lemma StampOrder(a: Date, ha: int, b: Date, hb: int)
    requires 1 <= a.month <= 12 && 1 <= a.day <= 31 && 0 <= ha < 24
    requires 1 <= b.month <= 12 && 1 <= b.day <= 31 && 0 <= hb < 24
    ensures Stamp(a, ha) <= Stamp(b, hb) <==> LexLe(a, ha, b, hb)
  {
    var ra, rb := a.month * 10000 + a.day * 100 + ha, b.month * 10000 + b.day * 100 + hb;
    assert 0 <= ra < 1000000 && 0 <= rb < 1000000;
    if a.year != b.year {
      assert a.year < b.year ==> a.year * 1000000 + 1000000 <= b.year * 1000000;
      assert b.year < a.year ==> b.year * 1000000 + 1000000 <= a.year * 1000000;
    }
  }

  function HourStamp(b: Bucket): int
  {
    Stamp(BucketDate(Hour, b.key), BucketHour(Hour, b.key))
  }

  function DayStamp(b: Bucket): int
  {
    Stamp(BucketDate(Day, b.key), BucketHour(Day, b.key))
  }

  function SortKey(p: Period): Bucket -> int
  {
    if p == Hour then HourStamp else DayStamp
  }

  /** One element of the `data` array of `GET /analytics`; `avgCount` is in hundredths. */
  datatype AnalyticsItem = AnalyticsItem(
    sensorId: string, period: string, totalCount: int, dataPoints: nat,
    avgCount: int, minCount: int, maxCount: int)

  function ItemTotal(item: AnalyticsItem): int
  {
    item.totalCount
  }

  function ItemPoints(item: AnalyticsItem): int
  {
    item.dataPoints
  }

  /**
   * Formats one bucket: its label is the bucket's UTC date (and hour), its
   * average the nearest hundredth of total / points, halves rounded up.
   */
  function Format(p: Period, b: Bucket): (item: AnalyticsItem)
    requires b.points > 0
    ensures item.sensorId == b.key.sensorId && item.totalCount == b.total && item.dataPoints == b.points
    ensures item.minCount == b.min && item.maxCount == b.max
    ensures item.period == if p == Hour then HourLabel(b.key.index) else DayLabel(b.key.index)
    ensures 200 * b.total - b.points < 2 * b.points * item.avgCount <= 200 * b.total + b.points
  {
    AnalyticsItem(
      b.key.sensorId,
      if p == Hour then HourLabel(b.key.index) else DayLabel(b.key.index),
      b.total, b.points, RoundDiv(100 * b.total, b.points), b.min, b.max)
  }

  function FormatAll(p: Period, bs: seq<Bucket>): (items: seq<AnalyticsItem>)
    requires forall b :: b in bs ==> b.points > 0
    ensures |items| == |bs| && forall i :: 0 <= i < |bs| ==> items[i] == Format(p, bs[i])
  {
    seq(|bs|, i requires 0 <= i < |bs| => assert bs[i] in bs; Format(p, bs[i]))
  }

  /** Formatting keeps the totals and the data points of the buckets. */
  lemma {:induction false} FormatAllSums(p: Period, bs: seq<Bucket>)
    requires forall b :: b in bs ==> b.points > 0
    ensures SumOf(FormatAll(p, bs), ItemTotal) == SumOf(bs, Total)
    ensures SumOf(FormatAll(p, bs), ItemPoints) == SumOf(bs, Points)
  {
    if bs != [] {
      var items := FormatAll(p, bs);
      FormatAllSums(p, bs[1..]);
      assert items[1..] == FormatAll(p, bs[1..]);
    }
  }

  datatype AnalyticsReport = AnalyticsReport(period: string, count: nat, data: seq<AnalyticsItem>)

  /** The hourly or daily buckets of the selected readings, in calendar order. */
  function AnalyticsBuckets(p: Period, selected: seq<Reading>): seq<Bucket>
  {
    SortedGroups(selected, GranularityOf(p), SortKey(p))
  }

  /**
   * `GET /analytics`: 500 for an unsupported period; otherwise one item per
   * (sensor, hour or day) among the selected readings, in calendar order,
   * whose totals and data points add up to those of the selection.
   */
  function GetAnalytics(
    readings: seq<Reading>, period: Option<string>, sensorId: Option<string>,
    startDate: Option<int>, endDate: Option<int>, now: int)
    : (r: Result<AnalyticsReport, AnalyticsError>)
    ensures r.Err? <==> ParsePeriod(period).Err?
    ensures r.Ok? ==>
      var p, selected := ParsePeriod(period).value, Select(readings, AnalyticsFilter(sensorId, startDate, endDate, now));
      && r.value.period == PeriodName(p)
      && r.value.count == |r.value.data| == |ReadingKeys(selected, GranularityOf(p))|
      && SumOf(r.value.data, ItemTotal) == SumOf(selected, CountOf)
      && SumOf(r.value.data, ItemPoints) == |selected|
      && r.value.data == FormatAll(p, AnalyticsBuckets(p, selected))
  {
    match ParsePeriod(period)
    case Err(e) => Err(e)
    case Ok(p) =>
      var selected := Select(readings, AnalyticsFilter(sensorId, startDate, endDate, now));
      var bs := AnalyticsBuckets(p, selected);
      forall b | b in bs ensures b.points > 0 {
        ExactBucketBounds(b, selected, GranularityOf(p));
      }
      DistinctKeysCount(bs);
      FormatAllSums(p, bs);
      var data := FormatAll(p, bs);
      Ok(AnalyticsReport(PeriodName(p), |data|, data))
  }

  /**
   * Each item of `GET /analytics` covers at least one reading, and its
   * minimum, average and maximum are ordered.
   */
  lemma AnalyticsItemBounds(p: Period, selected: seq<Reading>, i: int)
    requires 0 <= i < |AnalyticsBuckets(p, selected)|
    ensures var b := AnalyticsBuckets(p, selected)[i];
      && b.points > 0
      && Format(p, b).dataPoints >= 1
      && Format(p, b).minCount <= Format(p, b).maxCount
      && 100 * Format(p, b).minCount <= Format(p, b).avgCount <= 100 * Format(p, b).maxCount
  {
    var b := AnalyticsBuckets(p, selected)[i];
    ExactBucketBounds(b, selected, GranularityOf(p));
    AverageBounds(b);
  }

  /** The rounded average in hundredths lies between a hundred times the minimum and a hundred times the maximum. */
  lemma AverageBounds(b: Bucket)
    requires b.points > 0 && b.min * b.points <= b.total <= b.max * b.points
    ensures 100 * b.min <= RoundDiv(100 * b.total, b.points) <= 100 * b.max
  {
    assert b.points * (100 * b.min) == 100 * (b.min * b.points);
    assert b.points * (100 * b.max) == 100 * (b.max * b.points);
    RoundDivBetween(100 * b.total, b.points, 100 * b.min, 100 * b.max);
  }

  /** The items of `GET /analytics` follow (year, month, day, hour), and no key occurs twice. */
  lemma AnalyticsChronological(p: Period, selected: seq<Reading>)
    ensures var bs := AnalyticsBuckets(p, selected);
      && DistinctKeys(bs)
      && forall i, j :: 0 <= i < j < |bs| ==>
           LexLe(BucketDate(p, bs[i].key), BucketHour(p, bs[i].key), BucketDate(p, bs[j].key), BucketHour(p, bs[j].key))
  {
    var bs := AnalyticsBuckets(p, selected);
    forall i, j | 0 <= i < j < |bs|
      ensures LexLe(BucketDate(p, bs[i].key), BucketHour(p, bs[i].key), BucketDate(p, bs[j].key), BucketHour(p, bs[j].key))
    {
      assert SortKey(p)(bs[i]) <= SortKey(p)(bs[j]);
      StampOrder(BucketDate(p, bs[i].key), BucketHour(p, bs[i].key), BucketDate(p, bs[j].key), BucketHour(p, bs[j].key));
    }
  }

  // GET /analytics/realtime

  /** The chart of one sensor: minute labels and the matching totals. */
  datatype Series = Series(labels: seq<string>, data: seq<int>)

  /** The `$match` of the real-time chart: the last hour, and the sensor when given. */
  function RealtimeFilter(sensorId: Option<string>, now: int): (f: ReadingFilter)
    ensures forall r :: Matches(f, r) <==>
      && (SensorController.Truthy(sensorId) ==> r.sensorId == sensorId.value)
      && r.timestamp >= now - HOUR_MS
  {
    ReadingFilter(SensorFilter(sensorId), Some(now - HOUR_MS), None, None)
  }

  function MinuteOrder(b: Bucket): int
  {
    b.key.index
  }

  /** The buckets of one sensor, in the order of `bs`. */
  function Column(bs: seq<Bucket>, id: string): (col: seq<Bucket>)
    ensures forall b :: b in col ==> b in bs && b.key.sensorId == id
    ensures col == [] <==> forall b :: b in bs ==> b.key.sensorId != id
  {
    if bs == [] then []
    else Column(bs[..|bs| - 1], id) + (if bs[|bs| - 1].key.sensorId == id then [bs[|bs| - 1]] else [])
  }

  /** A sensor's column holds each of its buckets, as many times as `bs` does, and no other. */
  lemma {:induction false} ColumnCounts(bs: seq<Bucket>, id: string)
    ensures forall b :: multiset(Column(bs, id))[b] == if b.key.sensorId == id then multiset(bs)[b] else 0
    ensures forall b :: b in Column(bs, id) <==> b in bs && b.key.sensorId == id
  {
    if bs != [] {
      var init, last := bs[..|bs| - 1], bs[|bs| - 1];
      assert bs == init + [last];
      ColumnCounts(init, id);
    }
    forall b ensures b in Column(bs, id) <==> b in bs && b.key.sensorId == id {
      assert b in Column(bs, id) <==> b in multiset(Column(bs, id));
      assert b in bs <==> b in multiset(bs);
    }
  }

  /** One more bucket extends the column of its own sensor only. */
  lemma ColumnSnoc(s: seq<Bucket>, x: Bucket, id: string)
    ensures Column(s + [x], id) == Column(s, id) + (if x.key.sensorId == id then [x] else [])
  {
    var t := s + [x];
    assert t[..|t| - 1] == s && t[|t| - 1] == x;
  }

  /** Splitting the buckets splits the column at the same place: the column keeps their order. */
  lemma {:induction false} ColumnAppend(a: seq<Bucket>, b: seq<Bucket>, id: string)
    ensures Column(a + b, id) == Column(a, id) + Column(b, id)
  {
    if b == [] {
      assert a + b == a;
    } else {
      var init, last := b[..|b| - 1], b[|b| - 1];
      var x := if last.key.sensorId == id then [last] else [];
      assert b == init + [last];
      assert a + b == (a + init) + [last];
      calc {
        Column(a + b, id);
        == { ColumnSnoc(a + init, last, id); }
        Column(a + init, id) + x;
        == { ColumnAppend(a, init, id); }
        (Column(a, id) + Column(init, id)) + x;
        == { ColumnSnoc(init, last, id); }
        Column(a, id) + Column(b, id);
      }
    }
  }

  /** Appends one bucket to the series of its sensor, starting that series if needed. */
  function Push(chart: map<string, Series>, b: Bucket): map<string, Series>
  {
    var id := b.key.sensorId;
    var s := if id in chart then chart[id] else Series([], []);
    chart[id := Series(s.labels + [MinuteLabel(b.key.index)], s.data + [b.total])]
  }

  /** The chart built from the sorted per-minute buckets: a series for each sensor present. */
  function Chart(bs: seq<Bucket>): (c: map<string, Series>)
    ensures forall id :: id in c <==> Column(bs, id) != []
  {
    if bs == [] then map[]
    else Push(Chart(bs[..|bs| - 1]), bs[|bs| - 1])
  }

  /** The minute labels of a sensor's buckets. */
  function Labels(col: seq<Bucket>): (ls: seq<string>)
    ensures |ls| == |col|
  {
    if col == [] then [] else Labels(col[..|col| - 1]) + [MinuteLabel(col[|col| - 1].key.index)]
  }

  /** The totals of a sensor's buckets. */
  function Data(col: seq<Bucket>): (ds: seq<int>)
    ensures |ds| == |col|
  {
    if col == [] then [] else Data(col[..|col| - 1]) + [col[|col| - 1].total]
  }

  /** Each series of the chart lists its sensor's buckets in order: their minutes as labels, their totals as data. */
  lemma {:induction false} ChartSeries(bs: seq<Bucket>, id: string)
    ensures id in Chart(bs) ==> Chart(bs)[id] == Series(Labels(Column(bs, id)), Data(Column(bs, id)))
  {
    if bs != [] {
      var init, last := bs[..|bs| - 1], bs[|bs| - 1];
      assert bs == init + [last];
      ChartSeries(init, id);
      if last.key.sensorId == id {
        ChartSeriesHit(init, last);
      } else {
        ChartSeriesMiss(init, last, id);
      }
    }
  }

  /** A bucket of the sensor extends its series by its label and its total. */
  lemma ChartSeriesHit(init: seq<Bucket>, last: Bucket)
    requires var id := last.key.sensorId;
      id in Chart(init) ==> Chart(init)[id] == Series(Labels(Column(init, id)), Data(Column(init, id)))
    ensures var id, bs := last.key.sensorId, init + [last];
      Chart(bs)[id] == Series(Labels(Column(bs, id)), Data(Column(bs, id)))
  {
    var id, bs := last.key.sensorId, init + [last];
    assert bs[..|bs| - 1] == init && bs[|bs| - 1] == last;
    var before, prev := Chart(init), Column(init, id);
    assert Chart(bs) == Push(before, last);
    var s := if id in before then before[id] else Series([], []);
    assert s == Series(Labels(prev), Data(prev)) by {
      if id !in before {
        assert prev == [];
      }
    }
    var col := prev + [last];
    assert Column(bs, id) == col;
    assert col[..|col| - 1] == prev && col[|col| - 1] == last;
    assert Labels(col) == s.labels + [MinuteLabel(last.key.index)];
    assert Data(col) == s.data + [last.total];
  }

  /** A bucket of another sensor leaves the series alone. */
  lemma ChartSeriesMiss(init: seq<Bucket>, last: Bucket, id: string)
    requires last.key.sensorId != id
    requires id in Chart(init) ==> Chart(init)[id] == Series(Labels(Column(init, id)), Data(Column(init, id)))
    ensures var bs := init + [last];
      id in Chart(bs) ==> Chart(bs)[id] == Series(Labels(Column(bs, id)), Data(Column(bs, id)))
  {
    var bs := init + [last];
    assert bs[..|bs| - 1] == init && bs[|bs| - 1] == last;
    assert Chart(bs) == Push(Chart(init), last);
    assert Column(bs, id) == Column(init, id) + [];
    assert Column(init, id) + [] == Column(init, id);
  }

  lemma ChartSnoc(bs: seq<Bucket>, i: int)
    requires 0 <= i < |bs|
    ensures Chart(bs[..i + 1]) == Push(Chart(bs[..i]), bs[i])
  {
    assert bs[..i + 1][..i] == bs[..i];
  }

  /** Starting an empty series when the sensor has none and then appending to it is `Push`. */
  lemma CreateThenAppend(chart: map<string, Series>, b: Bucket)
    ensures var id := b.key.sensorId;
      var started := if id !in chart then chart[id := Series([], [])] else chart;
      started[id := Series(started[id].labels + [MinuteLabel(b.key.index)], started[id].data + [b.total])] == Push(chart, b)
  {
  }

  /** The `forEach` that fills the chart. */
  method BuildChart(bs: seq<Bucket>) returns (chart: map<string, Series>)
    ensures chart == Chart(bs)
  {
    chart := map[];
    var i := 0;
    while i < |bs|
      invariant 0 <= i <= |bs|
      invariant chart == Chart(bs[..i])
    {
      assert bs[..i + 1][..i] == bs[..i];
      var b := bs[i];
      var id := b.key.sensorId;
      ghost var before := chart;
      if id !in chart {
        chart := chart[id := Series([], [])];
      }
      chart := chart[id := Series(chart[id].labels + [MinuteLabel(b.key.index)], chart[id].data + [b.total])];
      CreateThenAppend(before, b);
      ChartSnoc(bs, i);
      i := i + 1;
    }
    assert bs[..|bs|] == bs;
  }

  /** The per-minute buckets of the last hour, earliest minute first. */
  function RealtimeBuckets(readings: seq<Reading>, sensorId: Option<string>, now: int): seq<Bucket>
  {
    SortedGroups(Select(readings, RealtimeFilter(sensorId, now)), PerMinute, MinuteOrder)
  }

  /** `GET /analytics/realtime`: the chart of the last hour's per-minute totals. */
  method GetRealTimeAnalytics(readings: seq<Reading>, sensorId: Option<string>, now: int)
    returns (chart: map<string, Series>)
    ensures chart == Chart(RealtimeBuckets(readings, sensorId, now))
  {
    chart := BuildChart(RealtimeBuckets(readings, sensorId, now));
  }

  /** Minutes strictly increase along a series. */
  predicate Ascending(col: seq<Bucket>)
  {
    forall i, j :: 0 <= i < j < |col| ==> col[i].key.index < col[j].key.index
  }

  /** Within a sensor's series of sorted distinct buckets, minutes strictly increase. */
  lemma {:induction false} ColumnAscending(bs: seq<Bucket>, id: string)
    requires SortedBy(bs, MinuteOrder) && DistinctKeys(bs)
    ensures Ascending(Column(bs, id))
  {
    if bs != [] {
      var init, last := bs[..|bs| - 1], bs[|bs| - 1];
      assert SortedBy(init, MinuteOrder) && DistinctKeys(init);
      ColumnAscending(init, id);
      var prev := Column(init, id);
      if last.key.sensorId == id {
        forall b | b in prev ensures b.key.index < last.key.index {
          var k :| 0 <= k < |init| && init[k] == b;
          assert MinuteOrder(bs[k]) <= MinuteOrder(bs[|bs| - 1]);
          assert bs[k].key != last.key;
        }
        var col := prev + [last];
        assert Column(bs, id) == col;
        forall i, j | 0 <= i < j < |col| ensures col[i].key.index < col[j].key.index {
          if j == |prev| {
            assert col[i] == prev[i] && col[j] == last;
            assert prev[i] in prev;
          } else {
            assert col[i] == prev[i] && col[j] == prev[j];
          }
        }
      } else {
        assert Column(bs, id) == prev + [];
        assert prev + [] == prev;
      }
    }
  }

  /**
   * The real-time chart has a series exactly for the sensors with a reading
   * in the last hour, and each series lists distinct minutes in increasing order.
   */
  lemma RealtimeChartShape(readings: seq<Reading>, sensorId: Option<string>, now: int)
    ensures var bs := RealtimeBuckets(readings, sensorId, now); var c := Chart(bs);
      && (forall id :: id in c <==> exists r :: r in readings && Matches(RealtimeFilter(sensorId, now), r) && r.sensorId == id)
      && (forall id :: id in c ==> Ascending(Column(bs, id)))
  {
    var selected := Select(readings, RealtimeFilter(sensorId, now));
    var bs := RealtimeBuckets(readings, sensorId, now);
    forall id ensures Column(bs, id) != [] <==> exists r :: r in selected && r.sensorId == id {
      if Column(bs, id) != [] {
        var b := Column(bs, id)[0];
        assert b in bs && b.key in KeySet(bs);
        var r :| r in selected && KeyOf(PerMinute, r) == b.key;
      }
      if r :| r in selected && r.sensorId == id {
        assert KeyOf(PerMinute, r) in KeySet(bs);
        var b :| b in bs && b.key == KeyOf(PerMinute, r);
      }
    }
    forall id ensures Ascending(Column(bs, id)) {
      ColumnAscending(bs, id);
    }
  }

  // GET /analytics/summary

  /** Midnight UTC of the day of `now`. */
  function StartOfToday(now: int): int
  {
    DayOf(now) * DAY_MS
  }

  function TodayFilter(sensorId: Option<string>, now: int): ReadingFilter
  {
    ReadingFilter(SensorFilter(sensorId), Some(StartOfToday(now)), None, None)
  }

  function YesterdayFilter(sensorId: Option<string>, now: int): ReadingFilter
  {
    ReadingFilter(SensorFilter(sensorId), Some(StartOfToday(now) - DAY_MS), None, Some(StartOfToday(now)))
  }

  /**
   * Today's window holds the readings of the UTC day of `now` and later, and
   * yesterday's exactly those of the UTC day before; no reading is in both.
   */
  lemma SummaryWindows(sensorId: Option<string>, now: int, r: Reading)
    ensures StartOfToday(now) <= now < StartOfToday(now) + DAY_MS
    ensures Matches(TodayFilter(sensorId, now), r) <==>
      (SensorController.Truthy(sensorId) ==> r.sensorId == sensorId.value) && DayOf(r.timestamp) >= DayOf(now)
    ensures Matches(YesterdayFilter(sensorId, now), r) <==>
      (SensorController.Truthy(sensorId) ==> r.sensorId == sensorId.value) && DayOf(r.timestamp) == DayOf(now) - 1
    ensures !(Matches(TodayFilter(sensorId, now), r) && Matches(YesterdayFilter(sensorId, now), r))
  {
    BucketBounds(now);
    var d := DayOf(now);
    DayStart(r.timestamp, d);
    DayStart(r.timestamp, d - 1);
    assert (d - 1) * DAY_MS == StartOfToday(now) - DAY_MS;
  }

  /** One day's totals; `avgPerSensor` is rounded to a whole count. */
  datatype DayTotals = DayTotals(totalCount: int, sensorCount: nat, avgPerSensor: int)

  function DayTotalsOf(bs: seq<Bucket>): (t: DayTotals)
    ensures t.totalCount == SumOf(bs, Total) && t.sensorCount == |bs|
    ensures |bs| == 0 ==> t.avgPerSensor == 0
    ensures |bs| > 0 ==> 2 * t.totalCount - |bs| < 2 * |bs| * t.avgPerSensor <= 2 * t.totalCount + |bs|
  {
    var total := SumOf(bs, Total);
    DayTotals(total, |bs|, if |bs| > 0 then RoundDiv(total, |bs|) else 0)
  }

  /** The change from yesterday's total to today's, in hundredths of a percent; 0 when yesterday had none. */
  function ChangePercent(today: int, yesterday: int): (c: int)
    ensures yesterday <= 0 ==> c == 0
    ensures yesterday > 0 ==>
      20000 * (today - yesterday) - yesterday < 2 * yesterday * c <= 20000 * (today - yesterday) + yesterday
  {
    if yesterday > 0 then RoundDiv(10000 * (today - yesterday), yesterday) else 0
  }

  /** The change has the sign of the difference, and never falls below -100% for counts that are not negative. */
  lemma ChangePercentSign(today: int, yesterday: int)
    requires yesterday > 0
    ensures today == yesterday ==> ChangePercent(today, yesterday) == 0
    ensures today > yesterday ==> ChangePercent(today, yesterday) >= 0
    ensures today < yesterday ==> ChangePercent(today, yesterday) <= 0
    ensures today >= 0 ==> ChangePercent(today, yesterday) >= -10000
  {
    var a := 10000 * (today - yesterday);
    assert ChangePercent(today, yesterday) == RoundDiv(a, yesterday);
    if today == yesterday {
      RoundDivBetween(a, yesterday, 0, 0);
    } else if today > yesterday {
      MulMonotone(a, 1, yesterday);
      RoundDivBetween(a, yesterday, 0, a);
    } else if today >= 0 {
      assert yesterday * -10000 <= a;
      RoundDivBetween(a, yesterday, -10000, 0);
    } else {
      MulMonotone(-a, 1, yesterday);
      RoundDivBetween(a, yesterday, a, 0);
    }
  }

  /** One element of `sensor_details`; `avgCount` is in hundredths. */
  datatype SensorDetail = SensorDetail(sensorId: string, totalCount: int, dataPoints: nat, avgCount: int)

  function DetailTotal(d: SensorDetail): int
  {
    d.totalCount
  }

  function Detail(b: Bucket): (d: SensorDetail)
    requires b.points > 0
    ensures d.sensorId == b.key.sensorId && d.totalCount == b.total && d.dataPoints == b.points
    ensures 200 * b.total - b.points < 2 * b.points * d.avgCount <= 200 * b.total + b.points
  {
    SensorDetail(b.key.sensorId, b.total, b.points, RoundDiv(100 * b.total, b.points))
  }

  function Details(bs: seq<Bucket>): (ds: seq<SensorDetail>)
    requires forall b :: b in bs ==> b.points > 0
    ensures |ds| == |bs| && forall i :: 0 <= i < |bs| ==> ds[i] == Detail(bs[i])
    ensures SumOf(ds, DetailTotal) == SumOf(bs, Total)
  {
    if bs == [] then []
    else
      var ds := [Detail(bs[0])] + Details(bs[1..]);
      assert ds[1..] == Details(bs[1..]);
      ds
  }

  datatype Summary = Summary(today: DayTotals, yesterday: DayTotals, changePercent: int, sensorDetails: seq<SensorDetail>)

  /** The per-sensor buckets of one window, in the order of `$group`'s output. */
  function SensorGroups(selected: seq<Reading>): (bs: seq<Bucket>)
    ensures DistinctKeys(bs) && |bs| == |ReadingKeys(selected, PerSensor)|
    ensures KeySet(bs) == ReadingKeys(selected, PerSensor)
    ensures forall b :: b in bs ==> ExactAt(b, selected, PerSensor) && b.points > 0
    ensures SumOf(bs, Total) == SumOf(selected, CountOf)
  {
    var bs := Group(selected, PerSensor);
    DistinctKeysCount(bs);
    forall b | b in bs ensures ExactAt(b, selected, PerSensor) && b.points > 0 {
      var i :| 0 <= i < |bs| && bs[i] == b;
      ExactBucketBounds(b, selected, PerSensor);
    }
    bs
  }

  /**
   * `GET /analytics/summary`: today's and yesterday's totals and numbers of
   * sensors, their rounded averages per sensor, the change between the two
   * totals, and today's totals per sensor, which add up to today's total.
   */
  function GetAnalyticsSummary(readings: seq<Reading>, sensorId: Option<string>, now: int): (r: Summary)
    ensures var today, yesterday := Select(readings, TodayFilter(sensorId, now)), Select(readings, YesterdayFilter(sensorId, now));
      && r.today.totalCount == SumOf(today, CountOf)
      && r.yesterday.totalCount == SumOf(yesterday, CountOf)
      && r.today.sensorCount == |ReadingKeys(today, PerSensor)|
      && r.yesterday.sensorCount == |ReadingKeys(yesterday, PerSensor)|
      && r.changePercent == ChangePercent(r.today.totalCount, r.yesterday.totalCount)
      && |r.sensorDetails| == r.today.sensorCount
      && SumOf(r.sensorDetails, DetailTotal) == r.today.totalCount
    ensures var todayGroups := SensorGroups(Select(readings, TodayFilter(sensorId, now)));
      && r.today == DayTotalsOf(todayGroups)
      && r.yesterday == DayTotalsOf(SensorGroups(Select(readings, YesterdayFilter(sensorId, now))))
      && r.sensorDetails == Details(todayGroups)
  {
    var todayGroups := SensorGroups(Select(readings, TodayFilter(sensorId, now)));
    var yesterdayGroups := SensorGroups(Select(readings, YesterdayFilter(sensorId, now)));
    var today, yesterday := DayTotalsOf(todayGroups), DayTotalsOf(yesterdayGroups);
    Summary(today, yesterday, ChangePercent(today.totalCount, yesterday.totalCount), Details(todayGroups))
  }

  /**
   * Each sensor seen today has exactly one detail, and its detail holds the
   * sum and the number of that sensor's counts today.
   */
  lemma SummaryDetails(readings: seq<Reading>, sensorId: Option<string>, now: int)
    ensures var today := Select(readings, TodayFilter(sensorId, now));
      var ds := GetAnalyticsSummary(readings, sensorId, now).sensorDetails;
      && (forall i, j :: 0 <= i < j < |ds| ==> ds[i].sensorId != ds[j].sensorId)
      && (forall x :: x in today ==> exists i :: 0 <= i < |ds| && ds[i].sensorId == x.sensorId)
      && (forall i :: 0 <= i < |ds| ==>
            var cs := CountsOf(today, PerSensor, Key(ds[i].sensorId, 0));
            cs != [] && ds[i].totalCount == SumOf(cs, Itself) && ds[i].dataPoints == |cs|)
  {
    var today := Select(readings, TodayFilter(sensorId, now));
    var bs := SensorGroups(today);
    var ds := Details(bs);
    forall i | 0 <= i < |ds|
      ensures bs[i].key == Key(ds[i].sensorId, 0) && ExactAt(bs[i], today, PerSensor)
    {
      assert bs[i] in bs;
      assert bs[i].key in KeySet(bs);
    }
    forall i, j | 0 <= i < j < |ds| ensures ds[i].sensorId != ds[j].sensorId {
      assert bs[i].key != bs[j].key;
    }
    forall x | x in today ensures exists i :: 0 <= i < |ds| && ds[i].sensorId == x.sensorId {
      assert KeyOf(PerSensor, x) in KeySet(bs);
      var b :| b in bs && b.key == KeyOf(PerSensor, x);
      var i :| 0 <= i < |bs| && bs[i] == b;
      assert ds[i].sensorId == x.sensorId;
    }
  }

  /** With valid readings the totals are not negative, so the change never drops below -100%. */
  lemma SummaryChangeBounded(readings: seq<Reading>, sensorId: Option<string>, now: int)
    requires AllValid(readings)
    ensures var r := GetAnalyticsSummary(readings, sensorId, now);
      r.today.totalCount >= 0 && r.yesterday.totalCount >= 0 && r.changePercent >= -10000
  {
    var today := Select(readings, TodayFilter(sensorId, now));
    var yesterday := Select(readings, YesterdayFilter(sensorId, now));
    SumOfNonNegative(today, CountOf);
    SumOfNonNegative(yesterday, CountOf);
    var r := GetAnalyticsSummary(readings, sensorId, now);
    if r.yesterday.totalCount > 0 {
      ChangePercentSign(r.today.totalCount, r.yesterday.totalCount);
    }
  }
}
