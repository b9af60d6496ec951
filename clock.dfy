/**
 * Clock arithmetic shared by the pages: the 12-hour rendering of an hour,
 * the 12-hour to 24-hour conversion, and the instant `new Date(y, m, d, h, mi)`
 * stands for, in milliseconds (the viewer's time zone is taken to be UTC).
 */
module Clock {
  import opened Wrappers

  /** `hour % 12 || 12`. */
  function Hour12(hour: nat): nat {
    if hour % 12 == 0 then 12 else hour % 12
  }

  /** `hour < 12 ? "AM" : "PM"` (equally `hour >= 12 ? "PM" : "AM"`). */
  function Meridiem(hour: int): string {
    if hour < 12 then "AM" else "PM"
  }

  /**
   * The conversion back to a 24-hour hour: 12 AM is hour 0, and a PM hour
   * other than 12 gains 12. Any other suffix (or none) leaves the hour alone.
   */
  function To24Hour(hour: int, ampm: Option<string>): int {
    if ampm == Some("AM") && hour == 12 then 0
    else if ampm == Some("PM") && hour != 12 then hour + 12
    else hour
  }

  /** The 12-hour rendering of any 24-hour hour converts back to that hour. */
  lemma TwelveHourRoundTrip(hour: nat)
    requires hour < 24
    ensures 1 <= Hour12(hour) <= 12
    ensures To24Hour(Hour12(hour), Some(Meridiem(hour))) == hour
  {
  }

  const MsPerMinute: int := 60000
  const MsPerDay: int := 86400000

  /** The largest distance from the epoch a `Date` may have, in milliseconds. */
  const MaxTimeValue: int := 8640000000000000

  /** A Gregorian leap year: divisible by 4, and by 400 when divisible by 100. */
  predicate LeapYear(year: int) {
    year % 4 == 0 && (year % 100 != 0 || year % 400 == 0)
  }

  /** The length of month `month` (1..12) of `year`, as a calendar gives it. */
  function DaysInMonth(year: int, month: int): (n: int)
    requires 1 <= month <= 12
    ensures 28 <= n <= 31
  {
    if month == 2 then (if LeapYear(year) then 29 else 28)
    else if month == 4 || month == 6 || month == 9 || month == 11 then 30
    else 31
  }

  /**
   * Days from 0000-03-01 to the first of March of `y`: the calendar counted
   * in 400-year eras of 146097 days, each year starting in March so that
   * the leap day comes last.
   */
  function MarchYearStart(y: int): int {
    y / 400 * 146097 + EraDays(y % 400)
  }

  /** Days from 1970-01-01 to the given proleptic Gregorian date (`month` in 1..12). */
  function DaysFromCivil(year: int, month: int, day: int): int
    requires 1 <= month <= 12
  {
    var y := if month <= 2 then year - 1 else year;
    var mp := if month > 2 then month - 3 else month + 9;
    var doy := (153 * mp + 2) / 5 + day - 1;
    MarchYearStart(y) + doy - 719468
  }

  /**
   * `MakeDate(MakeDay(year, monthIndex, day), MakeTime(hour, minute, 0, 0))`
   * for the arguments of `new Date(year, monthIndex, day, hour, minute)`:
   * a year in 0..99 means 1900 plus that year, a month index outside 0..11
   * carries into the year, and days, hours and minutes carry as plain
   * arithmetic. The result is not yet range-checked.
   */
  function TimeValue(year: int, monthIndex: int, day: int, hour: int, minute: int): int {
    var fullYear := if 0 <= year <= 99 then 1900 + year else year;
    var y := fullYear + monthIndex / 12;
    var m := monthIndex % 12;
    var days := DaysFromCivil(y, m + 1, 1) + day - 1;
    days * 86400000 + hour * 3600000 + minute * 60000
  }

  /** `TimeClip`: an instant beyond the representable range is an invalid date (None). */
  function TimeClip(t: int): (r: Option<int>)
    ensures r.Some? <==> -MaxTimeValue <= t <= MaxTimeValue
    ensures r.Some? ==> r.value == t
  {
    if -MaxTimeValue <= t <= MaxTimeValue then Some(t) else None
  }

  /** `new Date(year, monthIndex, day, hour, minute).getTime()`, None for an invalid date. */
  function DateValue(year: int, monthIndex: int, day: int, hour: int, minute: int): Option<int> {
    TimeClip(TimeValue(year, monthIndex, day, hour, minute))
  }

  /** Midnight of 1 January 1970 is instant 0, whether the year is written 1970 or 70. */
  lemma Epoch()
    ensures DateValue(1970, 0, 1, 0, 0) == Some(0)
    ensures DateValue(70, 0, 1, 0, 0) == Some(0)
  {
    assert DaysFromCivil(1970, 1, 1) == 0;
  }

  /** 15 March 2024 at 14:30 is instant 1710513000000. */
  lemma DateExample()
    ensures DateValue(2024, 2, 15, 14, 30) == Some(1710513000000)
  {
    assert DaysFromCivil(2024, 3, 1) == 19783;
  }

  /** Minutes, hours and days carry: 60 minutes are the next hour, 24 hours the next day. */
  lemma ClockCarries(year: int, monthIndex: int, day: int, hour: int, minute: int)
    ensures TimeValue(year, monthIndex, day, hour, minute + 1) == TimeValue(year, monthIndex, day, hour, minute) + MsPerMinute
    ensures TimeValue(year, monthIndex, day, hour, 60) == TimeValue(year, monthIndex, day, hour + 1, 0)
    ensures TimeValue(year, monthIndex, day, 24, minute) == TimeValue(year, monthIndex, day + 1, 0, minute)
  {
  }

  /** Month index 12 is January of the next year. */
  lemma MonthCarriesForward(year: int, day: int, hour: int, minute: int)
    requires year >= 100
    ensures TimeValue(year, 12, day, hour, minute) == TimeValue(year + 1, 0, day, hour, minute)
  {
    assert 12 / 12 == 1 && 12 % 12 == 0;
    assert 0 / 12 == 0 && 0 % 12 == 0;
  }

  /** Month index -1 is December of the previous year. */
  lemma MonthCarriesBackward(year: int, day: int, hour: int, minute: int)
    requires year >= 101
    ensures TimeValue(year, -1, day, hour, minute) == TimeValue(year - 1, 11, day, hour, minute)
  {
    assert -1 / 12 == -1 && -1 % 12 == 11;
    assert 11 / 12 == 0 && 11 % 12 == 11;
  }

  /** Days in the first `yoe` March-based years of an era. */
  function EraDays(yoe: int): int {
    yoe * 365 + yoe / 4 - yoe / 100
  }

  /** Within an era, a year is one day longer when the next count is a multiple of 4 but not of 100. */
  lemma EraYearLength(yoe: int)
    requires 0 <= yoe < 399
    ensures EraDays(yoe + 1) - EraDays(yoe) == if (yoe + 1) % 4 == 0 && (yoe + 1) % 100 != 0 then 366 else 365
  {
    assert (yoe + 1) / 4 - yoe / 4 == if (yoe + 1) % 4 == 0 then 1 else 0;
    assert (yoe + 1) / 100 - yoe / 100 == if (yoe + 1) % 100 == 0 then 1 else 0;
  }

  /** Adding whole multiples of 4 or of 100 leaves the remainder unchanged. */
  lemma ShiftMod4(q: int, r: int)
    ensures (4 * q + r) % 4 == r % 4
  {
  }

  lemma ShiftMod100(q: int, r: int)
    ensures (100 * q + r) % 100 == r % 100
  {
  }

  /** Divisibility by 4 and 100 depends only on the position within the 400-year era. */
  lemma EraResidues(y: int)
    ensures (y + 1) % 4 == (y % 400 + 1) % 4
    ensures (y + 1) % 100 == (y % 400 + 1) % 100
  {
    var k := y / 400;
    var r := y % 400 + 1;
    assert y + 1 == 400 * k + r;
    ShiftMod4(100 * k, r);
    ShiftMod100(4 * k, r);
  }

  /** A March-based year lasts 366 days when the February closing it is a leap one. */
  lemma MarchYearLength(y: int)
    ensures MarchYearStart(y + 1) - MarchYearStart(y) == if LeapYear(y + 1) then 366 else 365
  {
    var yoe := y % 400;
    EraResidues(y);
    assert MarchYearStart(y) == y / 400 * 146097 + EraDays(yoe);
    if yoe == 399 {
      assert (y + 1) / 400 == y / 400 + 1 && (y + 1) % 400 == 0;
      assert EraDays(399) == 145731;
      assert MarchYearStart(y + 1) == (y / 400 + 1) * 146097 + EraDays(0);
    } else {
      assert (y + 1) / 400 == y / 400 && (y + 1) % 400 == yoe + 1;
      assert MarchYearStart(y + 1) == y / 400 * 146097 + EraDays(yoe + 1);
      EraYearLength(yoe);
    }
  }

  /** The day after the last of a month is the first of the next month. */
  lemma MonthLength(year: int, month: int)
    requires 1 <= month <= 11
    ensures DaysFromCivil(year, month, 1) + DaysInMonth(year, month) == DaysFromCivil(year, month + 1, 1)
  {
    if month == 2 {
      MarchYearLength(year - 1);
    }
  }

  /** December has 31 days, after which the next year begins. */
  lemma DecemberLength(year: int)
    ensures DaysFromCivil(year, 12, 1) + 31 == DaysFromCivil(year + 1, 1, 1)
  {
  }

  /** For a year from 100 on and a month index within the year, `TimeValue` is plain day arithmetic. */
  lemma TimeValueOfMonth(year: int, monthIndex: int, day: int, hour: int, minute: int)
    requires year >= 100 && 0 <= monthIndex <= 11
    ensures TimeValue(year, monthIndex, day, hour, minute)
         == (DaysFromCivil(year, monthIndex + 1, 1) + day - 1) * 86400000 + hour * 3600000 + minute * 60000
  {
    assert monthIndex / 12 == 0 && monthIndex % 12 == monthIndex;
  }

  /** The last day of January to November is followed by the first of the next month. */
  lemma RollWithinYear(year: int, monthIndex: int, hour: int, minute: int)
    requires year >= 100 && 0 <= monthIndex < 11
    ensures TimeValue(year, monthIndex, DaysInMonth(year, monthIndex + 1) + 1, hour, minute)
         == TimeValue(year, monthIndex + 1, 1, hour, minute)
  {
    TimeValueOfMonth(year, monthIndex, DaysInMonth(year, monthIndex + 1) + 1, hour, minute);
    MonthLength(year, monthIndex + 1);
    TimeValueOfMonth(year, monthIndex + 1, 1, hour, minute);
  }

  /** 31 December is followed by 1 January of the next year. */
  lemma RollIntoNextYear(year: int, hour: int, minute: int)
    requires year >= 100
    ensures TimeValue(year, 11, 32, hour, minute) == TimeValue(year, 12, 1, hour, minute)
    ensures TimeValue(year, 11, 32, hour, minute) == TimeValue(year + 1, 0, 1, hour, minute)
  {
    TimeValueOfMonth(year, 11, 32, hour, minute);
    DecemberLength(year);
    MonthCarriesForward(year, 1, hour, minute);
    TimeValueOfMonth(year + 1, 0, 1, hour, minute);
  }

  /**
   * In instants: the last day of every month is followed by the first of
   * the next, at the same hour and minute (years from 100 on, where the
   * two-digit rule does not apply).
   */
  lemma MonthRollsOver(year: int, monthIndex: int, hour: int, minute: int)
    requires year >= 100 && 0 <= monthIndex <= 11
    ensures TimeValue(year, monthIndex, DaysInMonth(year, monthIndex + 1) + 1, hour, minute)
         == TimeValue(year, monthIndex + 1, 1, hour, minute)
  {
    if monthIndex < 11 {
      RollWithinYear(year, monthIndex, hour, minute);
    } else {
      RollIntoNextYear(year, hour, minute);
    }
  }
}
