/** Calendar arithmetic on day numbers, as the application performs it with
    JavaScript `Date` objects read in UTC: the weekday, and the daily, weekly
    and monthly steps of a recurring series. */
module Dates {
  import opened Domain

  /** `getDay()`: 0 for Sunday, 1 for Monday, ..., 6 for Saturday.
      1970-01-01 (day 0) was a Thursday, so 1970-01-04 (day 3) a Sunday. */
  function Weekday(d: Day): (w: int)
    ensures 0 <= w < 7
    ensures d == 3 ==> w == 0
  {
    (d + 4) % 7
  }

  /** Monday to Friday: the only days a recurring series books. */
  predicate IsSchoolDay(d: Day)
  {
    1 <= Weekday(d) <= 5
  }

  /** Moving by whole weeks keeps the weekday. */
  lemma {:induction false} WeekdayAfterWeeks(d: Day, k: int)
    ensures Weekday(d + 7 * k) == Weekday(d)
  {
    var q := (d + 4) / 7;
    assert d + 4 == 7 * q + Weekday(d);
    assert d + 7 * k + 4 == 7 * (q + k) + Weekday(d);
  }

  /** The year and month (1 for January) that contain day `d` in the
      proleptic Gregorian calendar. */
  function CivilYearMonth(d: Day): (int, int)
  {
    var z := d + 719468;
    var era := z / 146097;                 // 400-year eras since 0000-03-01
    var doe := z - era * 146097;           // day of the era
    var yoe := (doe - doe / 1460 + doe / 36524 - doe / 146096) / 365;
    var doy := doe - (365 * yoe + yoe / 4 - yoe / 100);  // day of a March-based year
    var mp := (5 * doy + 2) / 153;         // month counted from March
    var m := if mp < 10 then mp + 3 else mp - 9;
    (yoe + era * 400 + (if m <= 2 then 1 else 0), m)
  }

  predicate IsLeapYear(y: int)
  {
    y % 4 == 0 && (y % 100 != 0 || y % 400 == 0)
  }

  function DaysInMonth(y: int, m: int): (n: int)
    ensures 28 <= n <= 31
    ensures m == 2 ==> (n == 29 <==> IsLeapYear(y))
  {
    if m == 2 then (if IsLeapYear(y) then 29 else 28)
    else if m == 4 || m == 6 || m == 9 || m == 11 then 30
    else 31
  }

  /** `setMonth(getMonth() + 1)`: the same day of the next month, where a day
      of the month that the next month lacks runs over into the month after
      (31 January becomes 2 or 3 March). Either way the date moves forward by
      the length of its current month. */
  function NextMonth(d: Day): (r: Day)
    ensures d + 28 <= r <= d + 31
  {
    var (y, m) := CivilYearMonth(d);
    d + DaysInMonth(y, m)
  }

  /** One step of a recurring series. */
  function Step(d: Day, f: Frequency): (r: Day)
    ensures d < r
  {
    match f
    case Daily => d + 1
    case Weekly => d + 7
    case Monthly => NextMonth(d)
  }

  /** 31 January 2024 (day 19753) steps to 2 March 2024 (day 19784): February
      2024 has no 31st, so the two extra days run into March. */
  lemma MonthlyStepOverflows()
    ensures CivilYearMonth(19753) == (2024, 1)
    ensures CivilYearMonth(19783) == (2024, 3)
    ensures Step(19753, Monthly) == 19784
  {
    // 31 January 2024: day 8736 of the era that began on 1 March 2000
    assert 739221 / 146097 == 5;
    assert (8736 - 8736 / 1460 + 8736 / 36524 - 8736 / 146096) / 365 == 23;
    assert 8736 - (365 * 23 + 23 / 4 - 23 / 100) == 336;
    assert (5 * 336 + 2) / 153 == 10;
    // 1 March 2024: the first day of a March-based year
    assert 739251 / 146097 == 5;
    assert (8766 - 8766 / 1460 + 8766 / 36524 - 8766 / 146096) / 365 == 24;
    assert 8766 - (365 * 24 + 24 / 4 - 24 / 100) == 0;
    assert (5 * 0 + 2) / 153 == 0;
  }
}
