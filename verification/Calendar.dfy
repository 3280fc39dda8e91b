/** The calendar arithmetic behind `older_than:` and `newer_than:`.

    A `DateTime` is a UTC instant as Python's `datetime` holds it: a valid date
    between the years 1 and 9999 and a time of day in microseconds. */
module Calendar {
  import opened Wrappers

  const MINYEAR: int := 1
  const MAXYEAR: int := 9999
  const MICROS_PER_DAY: int := 86_400_000_000

  datatype Unit = Days | Weeks | Months | Years

  predicate IsLeap(year: int) {
    year % 4 == 0 && (year % 100 != 0 || year % 400 == 0)
  }

  /** `calendar.monthrange(year, month)[1]`. */
  function DaysInMonth(year: int, month: int): (days: int)
    ensures 28 <= days <= 31
  {
    if month == 2 then (if IsLeap(year) then 29 else 28)
    else if month == 4 || month == 6 || month == 9 || month == 11 then 30
    else 31
  }

  datatype Stamp = Stamp(year: int, month: int, day: int, micros: int) {

    predicate Valid() {
      && MINYEAR <= year <= MAXYEAR
      && 1 <= month <= 12
      && 1 <= day <= DaysInMonth(year, month)
      && 0 <= micros < MICROS_PER_DAY
    }

    /** Chronological order. */
    predicate AtMost(that: Stamp) {
      || year < that.year
      || (year == that.year && month < that.month)
      || (year == that.year && month == that.month && day < that.day)
      || (year == that.year && month == that.month && day == that.day && micros <= that.micros)
    }

    /** Months since the start of year 0, the coordinate `_shift_months` works in. */
    function MonthIndex(): int {
      year * 12 + (month - 1)
    }
  }

  type DateTime = s: Stamp | s.Valid() witness Stamp(1, 1, 1, 0)

  const MIN_DATETIME: DateTime := Stamp(1, 1, 1, 0)

  /** The instant exactly one day earlier; `None` where Python raises `OverflowError`. */
  function DayBefore(when: DateTime): Option<DateTime> {
    if when.day > 1 then Some(when.(day := when.day - 1))
    else if when.month > 1 then
      Some(when.(month := when.month - 1, day := DaysInMonth(when.year, when.month - 1)))
    else if when.year > MINYEAR then Some(when.(year := when.year - 1, month := 12, day := 31))
    else None
  }

  /** `when - timedelta(days=amount)`: one day earlier, `amount` times. */
  function MinusDays(when: DateTime, amount: nat): Option<DateTime> {
    if amount == 0 then Some(when)
    else
      match MinusDays(when, amount - 1)
      case None => None
      case Some(later) => DayBefore(later)
  }

  function ShiftMonths(when: DateTime, months: nat): DateTime {
    var total := when.MonthIndex() - months;
    if total < MINYEAR * 12 then MIN_DATETIME
    else
      var year, month := total / 12, total % 12 + 1;
      var last := DaysInMonth(year, month);
      Stamp(year, month, if when.day <= last then when.day else last, when.micros)
  }

  /** `_shift_back`: the `except` clause turns a failed subtraction into the
      first instant of the calendar. */
  function ShiftBack(when: DateTime, amount: nat, unit: Unit): DateTime {
    match unit
    case Days => OrMin(MinusDays(when, amount))
    case Weeks => OrMin(MinusDays(when, amount * 7))
    case Months => ShiftMonths(when, amount)
    case Years => ShiftMonths(when, amount * 12)
  }

  function OrMin(shifted: Option<DateTime>): DateTime {
    match shifted
    case None => MIN_DATETIME
    case Some(when) => when
  }

  /** `_utc_string` writes whole seconds. */
  function ToWire(when: DateTime): (wire: DateTime)
    ensures wire.AtMost(when)
    ensures when.micros - 1_000_000 < wire.micros && wire.micros % 1_000_000 == 0
  {
    when.(micros := when.micros - when.micros % 1_000_000)
  }

  // ---------------------------------------------------------------- properties

  lemma {:induction false} MinusDaysAntitone(when: DateTime, less: nat, more: nat)
    requires less <= more
    ensures OrMin(MinusDays(when, more)).AtMost(OrMin(MinusDays(when, less)))
    decreases more
  {
    if less < more {
      MinusDaysAntitone(when, less, more - 1);
      var later := MinusDays(when, more - 1);
      assert OrMin(MinusDays(when, more)).AtMost(OrMin(later));
    }
  }

  lemma ShiftMonthsAntitone(when: DateTime, less: nat, more: nat)
    requires less <= more
    ensures ShiftMonths(when, more).AtMost(ShiftMonths(when, less))
  {
    var small, large := when.MonthIndex() - more, when.MonthIndex() - less;
    if small < large && MINYEAR * 12 <= small {
      assert small / 12 < large / 12 || (small / 12 == large / 12 && small % 12 < large % 12);
    }
  }

  /** The further back the reader asks for, the earlier the instant; zero is `now` itself,
      so no answer is ever in the future. */
  lemma ShiftBackAntitone(when: DateTime, less: nat, more: nat, unit: Unit)
    requires less <= more
    ensures ShiftBack(when, more, unit).AtMost(ShiftBack(when, less, unit))
    ensures ShiftBack(when, 0, unit) == when
    ensures ShiftBack(when, more, unit).AtMost(when)
  {
    NoShift(when);
    hide MinusDays, ShiftMonths, OrMin;
    match unit
    case Days =>
      MinusDaysAntitone(when, less, more);
      MinusDaysAntitone(when, 0, more);
    case Weeks =>
      MinusDaysAntitone(when, less * 7, more * 7);
      MinusDaysAntitone(when, 0, more * 7);
    case Months =>
      ShiftMonthsAntitone(when, less, more);
      ShiftMonthsAntitone(when, 0, more);
    case Years =>
      ShiftMonthsAntitone(when, less * 12, more * 12);
      ShiftMonthsAntitone(when, 0, more * 12);
  }

  lemma NoShift(when: DateTime)
    ensures OrMin(MinusDays(when, 0)) == when && ShiftMonths(when, 0) == when
  {
  }

  /** Months and years land exactly that many calendar months earlier, on the same day
      of the month or on the last day of a shorter month, or on the first instant of
      the calendar when there is no such month. */
  lemma MonthsLandExactly(when: DateTime, amount: nat, unit: Unit)
    requires unit == Months || unit == Years
    ensures
      var back := ShiftBack(when, amount, unit);
      var target := when.MonthIndex() - (if unit == Years then 12 * amount else amount);
      if target < MINYEAR * 12 then back == MIN_DATETIME
      else
        && back.MonthIndex() == target
        && back.micros == when.micros
        && back.day <= when.day
        && (back.day != when.day ==>
              back.day == DaysInMonth(back.year, back.month) && when.day > back.day)
  {
  }

  /** Days are real days: as a count of days since the start of the calendar, going
      back `amount` days subtracts `amount`, and fails exactly when that is negative. */
  lemma {:induction false} DaysLandExactly(when: DateTime, amount: nat)
    ensures
      match MinusDays(when, amount)
      case Some(back) => Ordinal(back) == Ordinal(when) - amount && back.micros == when.micros
      case None => Ordinal(when) < amount
  {
    if amount > 0 {
      DaysLandExactly(when, amount - 1);
      var previous := MinusDays(when, amount - 1);
      if previous.Some? {
        DayBeforeOrdinal(previous.value);
      }
    }
  }

  function DaysBeforeYear(year: int): (days: nat)
    requires MINYEAR <= year
  {
    if year == MINYEAR then 0
    else DaysBeforeYear(year - 1) + (if IsLeap(year - 1) then 366 else 365)
  }

  function DaysBeforeMonth(year: int, month: int): (days: nat)
    requires 1 <= month <= 12
  {
    if month == 1 then 0 else DaysBeforeMonth(year, month - 1) + DaysInMonth(year, month - 1)
  }

  /** Days since 1 January of year 1. */
  function Ordinal(when: DateTime): nat {
    DaysBeforeYear(when.year) + DaysBeforeMonth(when.year, when.month) + (when.day - 1)
  }

  lemma DayBeforeOrdinal(when: DateTime)
    ensures
      match DayBefore(when)
      case Some(back) => Ordinal(back) == Ordinal(when) - 1 && back.micros == when.micros
      case None => Ordinal(when) == 0
  {
    if when.day == 1 && when.month == 1 && when.year > MINYEAR {
      DaysBeforeDecember(when.year - 1);
    }
  }

  lemma DaysBeforeDecember(year: int)
    ensures DaysBeforeMonth(year, 12) == if IsLeap(year) then 335 else 334
  {
    var february := DaysInMonth(year, 2);
    assert DaysBeforeMonth(year, 2) == 31;
    assert DaysBeforeMonth(year, 3) == 31 + february;
    assert DaysBeforeMonth(year, 5) == DaysBeforeMonth(year, 3) + 61;
    assert DaysBeforeMonth(year, 7) == DaysBeforeMonth(year, 5) + 61;
    assert DaysBeforeMonth(year, 9) == DaysBeforeMonth(year, 7) + 62;
    assert DaysBeforeMonth(year, 11) == DaysBeforeMonth(year, 9) + 61;
  }

  lemma ValidIs(s: Stamp)
    ensures s.Valid() <==>
              && 1 <= s.year <= 9999 && 1 <= s.month <= 12 && 0 <= s.micros < 86_400_000_000
              && 1 <= s.day <= MONTH_LENGTHS[s.month - 1] + if s.month == 2 && IsLeap(s.year) then 1 else 0
  {
  }

  const MONTH_LENGTHS: seq<int> := [31, 28, 31, 30, 31, 30, 31, 31, 30, 31, 30, 31]

  /** The lengths of the months, and the length of the years: one in four is a leap year,
      but for three centuries in four. */
  lemma YearsAndMonths(year: int, month: int)
    requires MINYEAR <= year && 1 <= month <= 12
    ensures DaysInMonth(year, month) == MONTH_LENGTHS[month - 1] + if month == 2 && IsLeap(year) then 1 else 0
    ensures DaysBeforeYear(year) == 365 * (year - 1) + (year - 1) / 4 - (year - 1) / 100 + (year - 1) / 400
  {
    LeapYears(year);
  }

  lemma {:induction false} LeapYears(year: int)
    requires MINYEAR <= year
    ensures DaysBeforeYear(year) == 365 * (year - 1) + (year - 1) / 4 - (year - 1) / 100 + (year - 1) / 400
  {
    if year > MINYEAR {
      LeapYears(year - 1);
      OneMoreOf(year - 1, 4);
      OneMoreOf(year - 1, 100);
      OneMoreOf(year - 1, 400);
      assert IsLeap(year - 1) <==> (year - 1) % 4 == 0 && ((year - 1) % 100 != 0 || (year - 1) % 400 == 0);
      CenturiesAreFourths(year - 1);
    }
  }

  lemma OneMoreOf(n: int, k: int)
    requires k == 4 || k == 100 || k == 400
    ensures n / k == (n - 1) / k + if n % k == 0 then 1 else 0
  {
  }

  lemma CenturiesAreFourths(n: int)
    ensures n % 400 == 0 ==> n % 100 == 0
    ensures n % 100 == 0 ==> n % 4 == 0
  {
  }

  /** Microseconds since the start of the calendar. */
  function Instant(when: DateTime): int {
    Ordinal(when) * MICROS_PER_DAY + when.micros
  }

  /** The order of the fields is the order of time. */
  lemma OrderIsTime(a: DateTime, b: DateTime)
    ensures a.AtMost(b) <==> Instant(a) <= Instant(b)
  {
    if a.AtMost(b) && a != b {
      LaterInTime(a, b);
    }
    if !a.AtMost(b) {
      LaterInTime(b, a);
    }
  }

  lemma LaterInTime(a: DateTime, b: DateTime)
    requires a.AtMost(b) && a != b
    ensures Instant(a) < Instant(b)
  {
    if a.year < b.year {
      DaysOfYear(a);
      YearsGrow(a.year + 1, b.year);
    } else if a.month < b.month {
      MonthsGrow(a.year, a.month + 1, b.month);
    }
    assert Ordinal(a) < Ordinal(b) || (Ordinal(a) == Ordinal(b) && a.micros < b.micros);
  }

  lemma {:induction false} MonthsGrow(year: int, less: int, more: int)
    requires 1 <= less <= more <= 12
    ensures DaysBeforeMonth(year, less) <= DaysBeforeMonth(year, more)
  {
    if less < more {
      MonthsGrow(year, less, more - 1);
    }
  }

  lemma {:induction false} YearsGrow(less: int, more: int)
    requires MINYEAR <= less <= more
    ensures DaysBeforeYear(less) <= DaysBeforeYear(more)
  {
    if less < more {
      YearsGrow(less, more - 1);
    }
  }

  /** Every day of a year comes before the next year. */
  lemma DaysOfYear(when: DateTime)
    ensures Ordinal(when) < DaysBeforeYear(when.year + 1)
  {
    DaysBeforeDecember(when.year);
    MonthsGrow(when.year, when.month, 12);
    if when.month < 12 {
      MonthsGrow(when.year, when.month + 1, 12);
    }
  }

  /** An age in days or weeks goes back exactly that many days, or to the first instant. */
  lemma AgesLandExactly(when: DateTime, amount: nat, unit: Unit)
    requires unit == Days || unit == Weeks
    ensures
      var days := if unit == Weeks then 7 * amount else amount;
      Instant(ShiftBack(when, amount, unit)) ==
        if Ordinal(when) < days then 0 else Instant(when) - days * MICROS_PER_DAY
  {
    DaysLandExactly(when, if unit == Weeks then amount * 7 else amount);
  }
}
