/**
 * Instants are integer milliseconds since 1970-01-01T00:00:00Z. The store's
 * date operators (`$year`, `$month`, `$dayOfMonth`, `$hour`, `$dateToString`)
 * decompose an instant in UTC; this module does the same with integer
 * arithmetic on epoch buckets.
 */
module Calendar {
  import opened Numbers

  const MINUTE_MS: int := 60 * 1000
  const HOUR_MS: int := 60 * MINUTE_MS
  const DAY_MS: int := 24 * HOUR_MS

  /** The epoch bucket of an instant: floor division, so instants before 1970 fall into earlier buckets. */
  function MinuteOf(t: int): int { t / MINUTE_MS }
  function HourOf(t: int): int { t / HOUR_MS }
  function DayOf(t: int): int { t / DAY_MS }

  /** Each bucket is the half-open interval of instants that start at its first millisecond. */
  lemma BucketBounds(t: int)
    ensures DayOf(t) * DAY_MS <= t < DayOf(t) * DAY_MS + DAY_MS
    ensures HourOf(t) * HOUR_MS <= t < HourOf(t) * HOUR_MS + HOUR_MS
    ensures MinuteOf(t) * MINUTE_MS <= t < MinuteOf(t) * MINUTE_MS + MINUTE_MS
  {
  }

  /** An instant lies at or after midnight of day `d` exactly when its day is `d` or later. */
  lemma DayStart(t: int, d: int)
    ensures t >= d * DAY_MS <==> DayOf(t) >= d
  {
    BucketBounds(t);
    if DayOf(t) >= d {
      MulMonotone(DAY_MS, d, DayOf(t));
    } else {
      MulMonotone(DAY_MS, DayOf(t) + 1, d);
    }
  }

  /** A proleptic Gregorian calendar date. */
  datatype Date = Date(year: int, month: int, day: int)

  /**
   * The UTC calendar date of the day that lies `days` days after 1970-01-01.
   * Days are counted from 0000-03-01 so that a leap day is always the last
   * day of its year, then split into 400-year eras of 146097 days.
   */
  function CivilFromDays(days: int): (d: Date)
    ensures 1 <= d.month <= 12 && 1 <= d.day <= 31
  {
    var shifted := days + 719468;
    EraDate(shifted / 146097, shifted % 146097)
  }

  /**
   * The date of day `dayOfEra` of era `era`: an era splits into four
   * centuries, the last one a day longer.
   */
  function EraDate(era: int, dayOfEra: int): (d: Date)
    requires 0 <= dayOfEra < 146097
    ensures 1 <= d.month <= 12 && 1 <= d.day <= 31
  {
    var century := if dayOfEra / 36524 < 3 then dayOfEra / 36524 else 3;
    CenturyDate(400 * era + 100 * century, dayOfEra - 36524 * century)
  }

  /**
   * The date of day `dayOfCentury` of the century starting with the
   * March-based year `year`: a century splits into four-year blocks, a block
   * into years, the last one a day longer.
   */
  function CenturyDate(year: int, dayOfCentury: int): (d: Date)
    requires 0 <= dayOfCentury <= 36524
    ensures 1 <= d.month <= 12 && 1 <= d.day <= 31
  {
    var block := dayOfCentury / 1461;
    var dayOfBlock := dayOfCentury % 1461;
    var yearOfBlock := if dayOfBlock / 365 < 3 then dayOfBlock / 365 else 3;
    YearDate(year + 4 * block + yearOfBlock, dayOfBlock - 365 * yearOfBlock)
  }

  /**
   * The date of day `dayOfYear` of the March-based year `year`: months of
   * 31, 30, 31, 30, 31, 31, 30, 31, 30, 31, 31 and 28 or 29 days, from
   * March; January and February belong to the next calendar year.
   */
  function YearDate(year: int, dayOfYear: int): (d: Date)
    requires 0 <= dayOfYear <= 365
    ensures 1 <= d.month <= 12 && 1 <= d.day <= 31
  {
    MonthDayBounds(dayOfYear);
    var shiftedMonth := (5 * dayOfYear + 2) / 153;
    var day := dayOfYear - (153 * shiftedMonth + 2) / 5 + 1;
    var month := if shiftedMonth < 10 then shiftedMonth + 3 else shiftedMonth - 9;
    Date(if month <= 2 then year + 1 else year, month, day)
  }

  /** Day 0 of a March-based year falls in month 0 (March); day 365 (a leap day) in month 11 (February). */
  lemma MonthDayBounds(dayOfYear: int)
    requires 0 <= dayOfYear <= 365
    ensures 0 <= (5 * dayOfYear + 2) / 153 <= 11
    ensures 1 <= dayOfYear - (153 * ((5 * dayOfYear + 2) / 153) + 2) / 5 + 1 <= 31
  {
    var m := (5 * dayOfYear + 2) / 153;
    assert 153 * m <= 5 * dayOfYear + 2 < 153 * m + 153;
  }

  /** The March-based year of a date: January and February count with the year before. */
  function MarchYear(d: Date): int
  {
    if d.month <= 2 then d.year - 1 else d.year
  }

  /** The day of its March-based year on which a date falls. */
  function DayOfMarchYear(d: Date): int
  {
    var shiftedMonth := if d.month > 2 then d.month - 3 else d.month + 9;
    (153 * shiftedMonth + 2) / 5 + d.day - 1
  }

  /**
   * The inverse count: the number of days from 1970-01-01 to the date `d`,
   * through the same March-based years and 400-year eras.
   */
  function DaysFromCivil(d: Date): int
  {
    var year := MarchYear(d);
    var era := year / 400;
    var yearOfEra := year - 400 * era;
    146097 * era + 365 * yearOfEra + yearOfEra / 4 - yearOfEra / 100 + DayOfMarchYear(d) - 719468
  }

  /** A March-based year and a day within it are read back from the date they give. */
  lemma YearDateInverse(year: int, dayOfYear: int)
    requires 0 <= dayOfYear <= 365
    ensures MarchYear(YearDate(year, dayOfYear)) == year
    ensures DayOfMarchYear(YearDate(year, dayOfYear)) == dayOfYear
  {
    MonthDayBounds(dayOfYear);
  }

  /** Counting the days up to the date of a day of an era gives that day back. */
  lemma EraDateInverse(era: int, dayOfEra: int)
    requires 0 <= dayOfEra < 146097
    ensures DaysFromCivil(EraDate(era, dayOfEra)) == 146097 * era + dayOfEra - 719468
  {
    var century, block, yearOfBlock, dayOfYear := EraParts(era, dayOfEra);
    var yearOfEra := 100 * century + 4 * block + yearOfBlock;
    YearDateInverse(400 * era + yearOfEra, dayOfYear);
    DivUnique(yearOfEra, 4, 25 * century + block);
    DivUnique(yearOfEra, 100, century);
    DaysFromCivilOf(EraDate(era, dayOfEra), era, yearOfEra);
  }

  /** The century, four-year block, year and day within the year that a day of an era falls on. */
  lemma EraParts(era: int, dayOfEra: int) returns (century: int, block: int, yearOfBlock: int, dayOfYear: int)
    requires 0 <= dayOfEra < 146097
    ensures 0 <= century <= 3 && 0 <= block <= 24 && 0 <= yearOfBlock <= 3 && 0 <= dayOfYear <= 365
    ensures dayOfEra == 36524 * century + 1461 * block + 365 * yearOfBlock + dayOfYear
    ensures EraDate(era, dayOfEra) == YearDate(400 * era + 100 * century + 4 * block + yearOfBlock, dayOfYear)
  {
    century := CenturyOfEra(dayOfEra);
    var year, dayOfCentury := 400 * era + 100 * century, dayOfEra - 36524 * century;
    assert EraDate(era, dayOfEra) == CenturyDate(year, dayOfCentury);
    block, yearOfBlock, dayOfYear := CenturyParts(year, dayOfCentury);
  }

  /** The century of its era that a day falls in; the last century takes the era's final day. */
  lemma CenturyOfEra(dayOfEra: int) returns (century: int)
    requires 0 <= dayOfEra < 146097
    ensures century == if dayOfEra / 36524 < 3 then dayOfEra / 36524 else 3
    ensures 0 <= century <= 3 && 0 <= dayOfEra - 36524 * century <= 36524
  {
    var q := dayOfEra / 36524;
    assert 36524 * q <= dayOfEra < 36524 * q + 36524;
    if q < 3 {
      century := q;
    } else {
      century := 3;
      MulMonotone(36524, 3, q);
    }
  }

  /** The four-year block, year and day within the year that a day of a century falls on. */
  lemma CenturyParts(year: int, dayOfCentury: int) returns (block: int, yearOfBlock: int, dayOfYear: int)
    requires 0 <= dayOfCentury <= 36524
    ensures 0 <= block <= 24 && 0 <= yearOfBlock <= 3 && 0 <= dayOfYear <= 365
    ensures dayOfCentury == 1461 * block + 365 * yearOfBlock + dayOfYear
    ensures CenturyDate(year, dayOfCentury) == YearDate(year + 4 * block + yearOfBlock, dayOfYear)
  {
    block := dayOfCentury / 1461;
    var dayOfBlock := dayOfCentury % 1461;
    yearOfBlock := if dayOfBlock / 365 < 3 then dayOfBlock / 365 else 3;
    dayOfYear := dayOfBlock - 365 * yearOfBlock;
  }

  /** The day count of a date whose March-based year is year `yearOfEra` of era `era`. */
  lemma DaysFromCivilOf(d: Date, era: int, yearOfEra: int)
    requires 0 <= yearOfEra < 400 && MarchYear(d) == 400 * era + yearOfEra
    ensures DaysFromCivil(d) ==
      146097 * era + 365 * yearOfEra + yearOfEra / 4 - yearOfEra / 100 + DayOfMarchYear(d) - 719468
  {
    DivUnique(400 * era + yearOfEra, 400, era);
  }

  /** Counting the days up to the date of a day gives that day back, so distinct days have distinct dates. */
  lemma CivilRoundTrip(days: int)
    ensures DaysFromCivil(CivilFromDays(days)) == days
  {
    var shifted := days + 719468;
    EraDateInverse(shifted / 146097, shifted % 146097);
  }

  /** The epoch is the first of January 1970. */
  lemma EpochIsNewYear1970()
    ensures CivilFromDays(0) == Date(1970, 1, 1)
  {
    assert 719468 / 146097 == 4 && 719468 % 146097 == 135080;
    assert EraDate(4, 135080) == CenturyDate(1900, 25508);
    assert CenturyDate(1900, 25508) == YearDate(1969, 306);
  }

  /** `YYYY-MM-DD` with month and day padded to two digits. */
  function DateLabel(d: Date): string
  {
    IntToString(d.year) + "-" + Pad2(Nat(d.month)) + "-" + Pad2(Nat(d.day))
  }

  function Nat(i: int): nat { if i < 0 then 0 else i }

  /** The label of a day bucket, `YYYY-MM-DD`. */
  function DayLabel(day: int): string
  {
    DateLabel(CivilFromDays(day))
  }

  /** The label of an hour bucket, `YYYY-MM-DD HH:00`. */
  function HourLabel(hour: int): string
  {
    DayLabel(hour / 24) + " " + Pad2(hour % 24) + ":00"
  }

  /** The label of a minute bucket, `YYYY-MM-DD HH:MM` (the `%Y-%m-%d %H:%M` format). */
  function MinuteLabel(minute: int): string
  {
    DayLabel(minute / 1440) + " " + Pad2(minute / 60 % 24) + ":" + Pad2(minute % 60)
  }

  /** For a four-digit year, a day label is ten characters whose fields read back as the date. */
  lemma DayLabelFields(day: int)
    requires 1000 <= CivilFromDays(day).year <= 9999
    ensures var s, d := DayLabel(day), CivilFromDays(day);
      && |s| == 10 && s[4] == '-' && s[7] == '-'
      && AllDigits(s[..4]) && AllDigits(s[5..7]) && AllDigits(s[8..])
      && DigitsValue(s[..4]) == d.year
      && DigitsValue(s[5..7]) == d.month
      && DigitsValue(s[8..]) == d.day
  {
    var d := CivilFromDays(day);
    var s := DayLabel(day);
    FourDigits(d.year);
    Pad2RoundTrip(d.month);
    Pad2RoundTrip(d.day);
    var y, m, dd := NatToString(d.year), Pad2(d.month), Pad2(d.day);
    assert s == y + "-" + m + "-" + dd;
    assert s[..4] == y;
    assert s[5..7] == m;
    assert s[8..] == dd;
  }

  /** An hour label is its day's label, a space, the two-digit UTC hour and `:00`. */
  lemma HourLabelFields(hour: int)
    requires 1000 <= CivilFromDays(hour / 24).year <= 9999
    ensures var s := HourLabel(hour);
      && |s| == 16 && s[..10] == DayLabel(hour / 24) && s[10] == ' '
      && AllDigits(s[11..13]) && DigitsValue(s[11..13]) == hour % 24
      && s[13..] == ":00"
  {
    DayLabelFields(hour / 24);
    Pad2RoundTrip(hour % 24);
    var s := HourLabel(hour);
    var p := Pad2(hour % 24);
    assert s == DayLabel(hour / 24) + " " + p + ":00";
    assert s[11..13] == p;
  }

  /** A minute label is its day's label, a space, and the two-digit UTC hour and minute around a colon. */
  lemma MinuteLabelFields(minute: int)
    requires 1000 <= CivilFromDays(minute / 1440).year <= 9999
    ensures var s := MinuteLabel(minute);
      && |s| == 16 && s[..10] == DayLabel(minute / 1440) && s[10] == ' ' && s[13] == ':'
      && AllDigits(s[11..13]) && DigitsValue(s[11..13]) == minute / 60 % 24
      && AllDigits(s[14..]) && DigitsValue(s[14..]) == minute % 60
  {
    DayLabelFields(minute / 1440);
    Pad2RoundTrip(minute / 60 % 24);
    Pad2RoundTrip(minute % 60);
    var s := MinuteLabel(minute);
    var h, m := Pad2(minute / 60 % 24), Pad2(minute % 60);
    assert s == DayLabel(minute / 1440) + " " + h + ":" + m;
    assert s[11..13] == h;
    assert s[14..] == m;
  }

  /** Minute, hour of the day and day of a minute bucket recompose it. */
  lemma MinuteParts(minute: int)
    ensures minute / 60 / 24 == minute / 1440
    ensures minute == 1440 * (minute / 1440) + 60 * (minute / 60 % 24) + minute % 60
  {
    var h := minute / 60;
    assert minute == 60 * h + minute % 60;
    assert h == 24 * (h / 24) + h % 24;
    DivUnique(minute, 1440, h / 24);
  }

  /** For four-digit years, two minute buckets have the same label exactly when they are the same minute. */
  lemma MinuteLabelInjective(a: int, b: int)
    requires 1000 <= CivilFromDays(a / 1440).year <= 9999
    requires 1000 <= CivilFromDays(b / 1440).year <= 9999
    ensures MinuteLabel(a) == MinuteLabel(b) <==> a == b
  {
    if MinuteLabel(a) == MinuteLabel(b) {
      MinuteLabelFields(a);
      MinuteLabelFields(b);
      DayLabelFields(a / 1440);
      DayLabelFields(b / 1440);
      var da, db := CivilFromDays(a / 1440), CivilFromDays(b / 1440);
      assert DayLabel(a / 1440) == DayLabel(b / 1440);
      assert da == db;
      CivilRoundTrip(a / 1440);
      CivilRoundTrip(b / 1440);
      MinuteParts(a);
      MinuteParts(b);
    }
  }
}
