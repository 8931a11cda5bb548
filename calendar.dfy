/**
 * Timestamps are integers counting milliseconds since 1970-01-01T00:00:00Z.
 * Calendar days and months are derived from them in UTC with the proleptic
 * Gregorian calendar.
 */
module Calendar {

  const MsPerDay: int := 86_400_000

  /** The calendar day (days since 1970-01-01) a timestamp falls on. */
  function Day(t: int): (d: int)
    ensures d * MsPerDay <= t < (d + 1) * MsPerDay
  {
    t / MsPerDay
  }

  /** Milliseconds elapsed since the start of the timestamp's day. */
  function TimeOfDay(t: int): (r: int)
    ensures 0 <= r < MsPerDay
    ensures Day(t) * MsPerDay + r == t
  {
    t % MsPerDay
  }

  /** A day is determined by any timestamp that falls on it. */
  lemma DayOf(d: int, r: int)
    requires 0 <= r < MsPerDay
    ensures Day(d * MsPerDay + r) == d
  {
  }

  /** Moving a timestamp by whole days moves its day by as many. */
  lemma DayShift(t: int, k: int)
    ensures Day(t + k * MsPerDay) == Day(t) + k
    ensures TimeOfDay(t + k * MsPerDay) == TimeOfDay(t)
  {
    DayOf(Day(t) + k, TimeOfDay(t));
    assert t + k * MsPerDay == (Day(t) + k) * MsPerDay + TimeOfDay(t);
  }

  datatype CivilDate = CivilDate(year: int, month: int, day: int)

  /** A timestamp falls on day `d` exactly when it lies in `d`'s span of milliseconds. */
  lemma DayIff(t: int, d: int)
    ensures Day(t) == d <==> d * MsPerDay <= t < d * MsPerDay + MsPerDay
  {
    if d * MsPerDay <= t < d * MsPerDay + MsPerDay {
      DayOf(d, t - d * MsPerDay);
    }
  }

  /** The civil date (month 1..12) of a day number. */
  function CivilFromDays(z: int): CivilDate
  {
    var z' := z + 719468;
    var era := z' / 146097;
    var doe := z' - era * 146097;
    var yoe := (doe - doe / 1460 + doe / 36524 - doe / 146096) / 365;
    var doy := doe - (365 * yoe + yoe / 4 - yoe / 100);
    var mp := (5 * doy + 2) / 153;
    var d := doy - (153 * mp + 2) / 5 + 1;
    var m := if mp < 10 then mp + 3 else mp - 9;
    CivilDate(if m <= 2 then yoe + era * 400 + 1 else yoe + era * 400, m, d)
  }

  /** The day number of a civil date (month 1..12). */
  function DaysFromCivil(y: int, m: int, d: int): int
  {
    var y' := if m <= 2 then y - 1 else y;
    var era := y' / 400;
    var yoe := y' - era * 400;
    var mp := if m > 2 then m - 3 else m + 9;
    var doy := (153 * mp + 2) / 5 + d - 1;
    var doe := yoe * 365 + yoe / 4 - yoe / 100 + doy;
    era * 146097 + doe - 719468
  }

  /** Midnight (UTC) at the start of a day number. */
  function Midnight(d: int): (t: int)
    ensures Day(t) == d && TimeOfDay(t) == 0
  {
    DayOf(d, 0);
    d * MsPerDay
  }

  /** `Date.getMonth()`: the month index 0..11 of a timestamp. */
  function Month(t: int): int
  {
    CivilFromDays(Day(t)).month - 1
  }

  /** `Date.getFullYear()`. */
  function Year(t: int): int
  {
    CivilFromDays(Day(t)).year
  }

  /** `DaysFromCivil` inverts `CivilFromDays` on the first of January of any year. */
  lemma Jan1RoundTrip(y: int)
    ensures CivilFromDays(DaysFromCivil(y, 1, 1)) == CivilDate(y, 1, 1)
  {
    var era := (y - 1) / 400;
    var yoe := y - 1 - era * 400;
    var doe := yoe * 365 + yoe / 4 - yoe / 100 + 306;
    Jan1OfEra(yoe);
    assert (153 * 10 + 2) / 5 == 306 && (5 * 306 + 2) / 153 == 10;
    assert DaysFromCivil(y, 1, 1) + 719468 == era * 146097 + doe;
    assert (era * 146097 + doe) / 146097 == era;
    assert doe - (365 * yoe + yoe / 4 - yoe / 100) == 306;
  }

  /** Within one 400-year era, the day of the era of March-based year `yoe`'s
    * January 1 (day 306 of that year) maps back to `yoe`. */
  lemma Jan1OfEra(yoe: int)
    requires 0 <= yoe < 400
    ensures var doe := yoe * 365 + yoe / 4 - yoe / 100 + 306;
      && 0 <= doe < 146097
      && (doe - doe / 1460 + doe / 36524 - doe / 146096) / 365 == yoe
  {
    // Split the year of the era as 100 * c + 4 * v + w.
    var c := yoe / 100;
    var v := (yoe - 100 * c) / 4;
    var w := yoe - 100 * c - 4 * v;
    assert yoe / 4 == 25 * c + v;
    var doe := 36524 * c + 1461 * v + 365 * w + 306;
    assert doe / 146096 == 0 && doe / 36524 == c;
    var k := doe / 1460;
    assert k == 25 * c + v || k == 25 * c + v + 1;
    assert (doe - k + c) / 365 == yoe;
  }

  /** Day 19737 is 2024-01-15. */
  lemma DayOfJan15In2024()
    ensures CivilFromDays(19737) == CivilDate(2024, 1, 15)
  {
    assert (19737 + 719468) / 146097 == 5;
    var doe := 8720;
    assert (doe - doe / 1460 + doe / 36524 - doe / 146096) / 365 == 23;
    assert doe - (365 * 23 + 23 / 4 - 23 / 100) == 320;
    assert (5 * 320 + 2) / 153 == 10;
    assert 320 - (153 * 10 + 2) / 5 + 1 == 15;
  }

  /** Day 20103 is 2025-01-15. */
  lemma DayOfJan15In2025()
    ensures CivilFromDays(20103) == CivilDate(2025, 1, 15)
  {
    assert (20103 + 719468) / 146097 == 5;
    var doe := 9086;
    assert (doe - doe / 1460 + doe / 36524 - doe / 146096) / 365 == 24;
    assert doe - (365 * 24 + 24 / 4 - 24 / 100) == 320;
    assert (5 * 320 + 2) / 153 == 10;
    assert 320 - (153 * 10 + 2) / 5 + 1 == 15;
  }
}
