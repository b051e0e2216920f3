/** The part of Python's datetime that the scheduler relies on: proleptic Gregorian
    dates between 1/1/1 and 31/12/9999, their ordinal (date.toordinal, 1/1/1 is day 1),
    the Monday-first weekday (date.weekday), the step date + timedelta(days=1) and
    datetime.isoformat for whole minutes. */
module Dates {
  import opened Results
  import opened Text

  /** A (day, month, year) triple; the triple a malformed text would denote is not Valid. */
  datatype Date = Date(day: int, month: int, year: int)

  /** A 24-hour clock time of day. */
  datatype Time = Time(hour: int, minute: int)

  /** A naive local date and time, as datetime.datetime holds it (seconds are always 0 here). */
  datatype LocalDateTime = LocalDateTime(date: Date, time: Time)

  const MinYear := 1
  const MaxYear := 9999

  /** date.max */
  const MaxDate := Date(31, 12, 9999)

  /** date.max.toordinal() */
  const MaxOrdinal := 3652059

  predicate IsLeap(year: int) {
    year % 4 == 0 && (year % 100 != 0 || year % 400 == 0)
  }

  function DaysInYear(year: int): int {
    if IsLeap(year) then 366 else 365
  }

  function DaysInMonth(month: int, year: int): int
    requires 1 <= month <= 12
  {
    if month == 2 then (if IsLeap(year) then 29 else 28)
    else if month == 4 || month == 6 || month == 9 || month == 11 then 30
    else 31
  }

  /** Days in the months before `month` (datetime._days_before_month). */
  function DaysBeforeMonth(month: int, year: int): int
    requires 1 <= month <= 12
  {
    var common :=
      if month == 1 then 0 else if month == 2 then 31 else if month == 3 then 59
      else if month == 4 then 90 else if month == 5 then 120 else if month == 6 then 151
      else if month == 7 then 181 else if month == 8 then 212 else if month == 9 then 243
      else if month == 10 then 273 else if month == 11 then 304 else 334;
    common + (if month > 2 && IsLeap(year) then 1 else 0)
  }

  /** Days in the years before `year`, counted year by year. */
  function DaysBeforeYear(year: int): int
    requires year >= 1
  {
    if year == 1 then 0 else DaysBeforeYear(year - 1) + DaysInYear(year - 1)
  }

  /** Python's closed form for the same count (datetime._days_before_year). */
  function DaysBeforeYearFormula(year: int): int
    requires year >= 1
  {
    var y := year - 1;
    y * 365 + y / 4 - y / 100 + y / 400
  }

  predicate Valid(d: Date) {
    MinYear <= d.year <= MaxYear && 1 <= d.month <= 12 && 1 <= d.day <= DaysInMonth(d.month, d.year)
  }

  predicate ValidTime(t: Time) {
    0 <= t.hour <= 23 && 0 <= t.minute <= 59
  }

  function Ordinal(d: Date): int
    requires Valid(d)
  {
    DaysBeforeYear(d.year) + DaysBeforeMonth(d.month, d.year) + d.day
  }

  /** Weekday of the date with ordinal n: 0 is Monday, 6 is Sunday (ordinal 1 is a Monday). */
  function WeekdayOfOrdinal(n: int): (w: int)
    ensures 0 <= w <= 6
  {
    (n + 6) % 7
  }

  function Weekday(d: Date): int
    requires Valid(d)
  {
    WeekdayOfOrdinal(Ordinal(d))
  }

  /** Moving from y to y + 1 adds one to y / n exactly when y + 1 is a multiple of n
      (one lemma per divisor the calendar uses, so the arithmetic stays linear). */
  lemma QuotientStep4(y: int)
    requires y >= 0
    ensures (y + 1) / 4 == y / 4 + (if (y + 1) % 4 == 0 then 1 else 0)
  {
    assert y == 4 * (y / 4) + y % 4;
    assert y + 1 == 4 * ((y + 1) / 4) + (y + 1) % 4;
  }

  lemma QuotientStep100(y: int)
    requires y >= 0
    ensures (y + 1) / 100 == y / 100 + (if (y + 1) % 100 == 0 then 1 else 0)
  {
    assert y == 100 * (y / 100) + y % 100;
    assert y + 1 == 100 * ((y + 1) / 100) + (y + 1) % 100;
  }

  lemma QuotientStep400(y: int)
    requires y >= 0
    ensures (y + 1) / 400 == y / 400 + (if (y + 1) % 400 == 0 then 1 else 0)
  {
    assert y == 400 * (y / 400) + y % 400;
    assert y + 1 == 400 * ((y + 1) / 400) + (y + 1) % 400;
  }

  /** Python's closed form grows by the length of each year ... */
  lemma FormulaStep(year: int)
    requires year >= 1
    ensures DaysBeforeYearFormula(year + 1) == DaysBeforeYearFormula(year) + DaysInYear(year)
  {
    var y := year - 1;
    QuotientStep4(y);
    QuotientStep100(y);
    QuotientStep400(y);
    var a := if year % 4 == 0 then 1 else 0;
    var b := if year % 100 == 0 then 1 else 0;
    var c := if year % 400 == 0 then 1 else 0;
    assert DaysBeforeYearFormula(year + 1) == y * 365 + 365 + (y / 4 + a) - (y / 100 + b) + (y / 400 + c);
    assert DaysInYear(year) == 365 + a - b + c;
  }

  /** ... so it counts the same days as the year-by-year sum. */
  lemma {:induction false} DaysBeforeYearClosedForm(year: int)
    requires year >= 1
    ensures DaysBeforeYear(year) == DaysBeforeYearFormula(year)
    decreases year
  {
    if year > 1 {
      DaysBeforeYearClosedForm(year - 1);
      FormulaStep(year - 1);
    }
  }

  lemma {:induction false} DaysBeforeYearMonotone(a: int, b: int)
    requires 1 <= a <= b
    ensures DaysBeforeYear(a) + 365 * (b - a) <= DaysBeforeYear(b)
    decreases b - a
  {
    if a < b {
      DaysBeforeYearMonotone(a, b - 1);
    }
  }

  /** The days of a month end where the next month (or the next year) begins. */
  lemma MonthStep(month: int, year: int)
    requires 1 <= month <= 12
    ensures month < 12 ==> DaysBeforeMonth(month, year) + DaysInMonth(month, year) == DaysBeforeMonth(month + 1, year)
    ensures month == 12 ==> DaysBeforeMonth(month, year) + DaysInMonth(month, year) == DaysInYear(year)
    ensures DaysBeforeMonth(month, year) + DaysInMonth(month, year) <= DaysInYear(year)
  {
  }

  /** Every valid date has an ordinal between 1 and that of date.max. */
  lemma OrdinalBounds(d: Date)
    requires Valid(d)
    ensures 1 <= Ordinal(d) <= MaxOrdinal
  {
    MonthStep(d.month, d.year);
    DaysBeforeYearMonotone(1, d.year);
    DaysBeforeYearMonotone(d.year + 1, MaxYear + 1);
    DaysBeforeYearClosedForm(MaxYear + 1);
  }

  /** 31/12/9999 has the last ordinal and is a Friday. */
  lemma OrdinalEnd()
    ensures Ordinal(MaxDate) == MaxOrdinal && Weekday(MaxDate) == 4
  {
    DaysBeforeYearClosedForm(MaxYear);
  }

  /** 14/10/2026 is a Wednesday. */
  lemma WeekdayExample()
    ensures Weekday(Date(14, 10, 2026)) == 2
  {
    DaysBeforeYearClosedForm(2026);
    assert DaysBeforeYearFormula(2026) == 739616;
    assert Ordinal(Date(14, 10, 2026)) == 739616 + 273 + 14;
  }

  /** From each valid date to the next the weekday advances by one, Sunday wrapping to Monday. */
  lemma WeekdayAdvances(d: Date)
    requires Valid(d)
    ensures NextDay(d).Some? ==> Weekday(NextDay(d).value) == (Weekday(d) + 1) % 7
  {
    WeekdayStep(Ordinal(d));
  }

  lemma WeekdayStep(o: int)
    ensures WeekdayOfOrdinal(o + 1) == (WeekdayOfOrdinal(o) + 1) % 7
  {
    var w := WeekdayOfOrdinal(o);
    var q := (o + 6) / 7;
    assert o + 6 == 7 * q + w;
    if w < 6 {
      assert o + 7 == 7 * q + (w + 1);
    } else {
      assert o + 7 == 7 * (q + 1);
    }
  }

  /** date + timedelta(days=1): the next day, or None where Python raises OverflowError. */
  function NextDay(d: Date): (r: Option<Date>)
    requires Valid(d)
    ensures r.None? <==> d == MaxDate
    ensures r.Some? ==> Valid(r.value) && Ordinal(r.value) == Ordinal(d) + 1
  {
    MonthStep(d.month, d.year);
    if d.day < DaysInMonth(d.month, d.year) then Some(Date(d.day + 1, d.month, d.year))
    else if d.month < 12 then Some(Date(1, d.month + 1, d.year))
    else if d.year < MaxYear then Some(Date(1, 1, d.year + 1))
    else None
  }

  lemma LastDayOrdinal(d: Date)
    requires Valid(d) && NextDay(d).None?
    ensures Ordinal(d) == MaxOrdinal
  {
    assert d == MaxDate;
    DaysBeforeYearClosedForm(MaxYear);
  }

  /** date + timedelta(days=n), one day at a time. */
  function AddDays(d: Date, n: nat): (r: Option<Date>)
    requires Valid(d)
    ensures r.Some? ==> Valid(r.value) && Ordinal(r.value) == Ordinal(d) + n
    decreases n
  {
    if n == 0 then Some(d)
    else match NextDay(d)
      case None => None
      case Some(e) => AddDays(e, n - 1)
  }

  /** Adding n days stays inside the datetime range exactly when the ordinal does. */
  lemma {:induction false} AddDaysInRange(d: Date, n: nat)
    requires Valid(d)
    ensures AddDays(d, n).Some? <==> Ordinal(d) + n <= MaxOrdinal
    decreases n
  {
    if n == 0 {
      OrdinalBounds(d);
    } else {
      match NextDay(d)
      case None =>
        LastDayOrdinal(d);
      case Some(e) =>
        assert AddDays(d, n) == AddDays(e, n - 1);
        assert Ordinal(e) == Ordinal(d) + 1;
        AddDaysInRange(e, n - 1);
    }
  }

  /** How many days forward from ordinal o the next day with weekday `target` lies. */
  function DistanceTo(o: int, target: int): int {
    (target - WeekdayOfOrdinal(o)) % 7
  }

  /** Walking DistanceTo(o, target) days from o reaches the target weekday, within six days,
      and passes no earlier day with that weekday. */
  lemma DistanceReachesTarget(o: int, target: int)
    requires 0 <= target <= 6
    ensures 0 <= DistanceTo(o, target) <= 6
    ensures WeekdayOfOrdinal(o + DistanceTo(o, target)) == target
    ensures forall n :: o <= n < o + DistanceTo(o, target) ==> WeekdayOfOrdinal(n) != target
  {
    var w := WeekdayOfOrdinal(o);
    var q := (o + 6) / 7;
    assert o + 6 == 7 * q + w;
    forall n | o <= n < o + DistanceTo(o, target)
      ensures WeekdayOfOrdinal(n) != target
    {
      assert n + 6 == 7 * q + w + (n - o);
    }
  }

  /** datetime.isoformat() of a value with zero seconds: YYYY-MM-DDTHH:MM:SS. */
  function IsoFormat(dt: LocalDateTime): (s: string)
    requires Valid(dt.date) && ValidTime(dt.time)
    ensures |s| == 19
  {
    Digits(dt.date.year, 4) + "-" + Digits(dt.date.month, 2) + "-" + Digits(dt.date.day, 2) + "T" +
    Digits(dt.time.hour, 2) + ":" + Digits(dt.time.minute, 2) + ":00"
  }

  /** Reads back a YYYY-MM-DDTHH:MM:00 text; None if it is not one or names no valid instant. */
  function ParseIso(s: string): Option<LocalDateTime>
  {
    if |s| != 19 || s[4] != '-' || s[7] != '-' || s[10] != 'T' || s[13] != ':' || s[16..] != ":00" then None
    else match (ParseDigits(s[0..4]), ParseDigits(s[5..7]), ParseDigits(s[8..10]), ParseDigits(s[11..13]), ParseDigits(s[14..16]))
      case (Some(y), Some(mo), Some(d), Some(h), Some(mi)) =>
        if Valid(Date(d, mo, y)) && ValidTime(Time(h, mi)) then Some(LocalDateTime(Date(d, mo, y), Time(h, mi))) else None
      case _ => None
  }

  lemma IsoRoundTrip(dt: LocalDateTime)
    requires Valid(dt.date) && ValidTime(dt.time)
    ensures ParseIso(IsoFormat(dt)) == Some(dt)
  {
    var s := IsoFormat(dt);
    assert s[0..4] == Digits(dt.date.year, 4);
    assert s[5..7] == Digits(dt.date.month, 2);
    assert s[8..10] == Digits(dt.date.day, 2);
    assert s[11..13] == Digits(dt.time.hour, 2);
    assert s[14..16] == Digits(dt.time.minute, 2);
    assert s[16..] == ":00";
    DigitsRoundTrip(dt.date.year, 4);
    DigitsRoundTrip(dt.date.month, 2);
    DigitsRoundTrip(dt.date.day, 2);
    DigitsRoundTrip(dt.time.hour, 2);
    DigitsRoundTrip(dt.time.minute, 2);
  }
}
