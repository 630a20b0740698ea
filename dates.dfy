/** Calendar dates as Python's `datetime.date` handles them: the proleptic
    Gregorian calendar over years 1 to 9999, day ordinals counted from
    0001-01-01 (ordinal 1), and `date + timedelta(days=n)`. */
module Dates {
  import opened Base

  datatype Date = Date(year: int, month: int, day: int)

  const MinYear := 1
  const MaxYear := 9999
  /** `date.max.toordinal()`: the ordinal of 9999-12-31. */
  const MaxOrdinal := 3652059

  predicate IsLeapYear(y: int) {
    y % 4 == 0 && (y % 100 != 0 || y % 400 == 0)
  }

  function DaysInYear(y: int): int {
    if IsLeapYear(y) then 366 else 365
  }

  function DaysInMonth(y: int, m: int): int
    requires 1 <= m <= 12
  {
    if m == 2 then (if IsLeapYear(y) then 29 else 28)
    else if m == 4 || m == 6 || m == 9 || m == 11 then 30
    else 31
  }

  /** A date `datetime.date` accepts. */
  predicate IsValid(d: Date) {
    MinYear <= d.year <= MaxYear && 1 <= d.month <= 12 && 1 <= d.day <= DaysInMonth(d.year, d.month)
  }

  type ValidDate = d: Date | IsValid(d) witness Date(1, 1, 1)

  /** Days in the years before `y` (Python's `_days_before_year`). */
  function DaysBeforeYear(y: int): int
    requires y >= 1
  {
    var y1 := y - 1;
    y1 * 365 + y1 / 4 - y1 / 100 + y1 / 400
  }

  /** Days in the months of `y` before `m` (Python's `_days_before_month`). */
  function DaysBeforeMonth(y: int, m: int): int
    requires 1 <= m <= 12
  {
    [0, 31, 59, 90, 120, 151, 181, 212, 243, 273, 304, 334][m - 1] + (if m > 2 && IsLeapYear(y) then 1 else 0)
  }

  /** `d.toordinal()`. */
  function Ordinal(d: ValidDate): int {
    DaysBeforeYear(d.year) + DaysBeforeMonth(d.year, d.month) + d.day
  }

  lemma {:induction false} DaysBeforeYearStep(y: int)
    requires y >= 1
    ensures DaysBeforeYear(y + 1) == DaysBeforeYear(y) + DaysInYear(y)
  {
    var y1 := y - 1;
    assert y / 4 - y1 / 4 == (if y % 4 == 0 then 1 else 0);
    assert y / 100 - y1 / 100 == (if y % 100 == 0 then 1 else 0);
    assert y / 400 - y1 / 400 == (if y % 400 == 0 then 1 else 0);
  }

  lemma {:induction false} DaysBeforeYearMonotone(a: int, b: int)
    requires 1 <= a <= b
    ensures DaysBeforeYear(a) + (if a < b then DaysInYear(a) else 0) <= DaysBeforeYear(b)
    decreases b - a
  {
    if a < b {
      DaysBeforeYearStep(a);
      if a + 1 < b {
        DaysBeforeYearMonotone(a + 1, b);
      }
    }
  }

  lemma {:induction false} DaysBeforeMonthStep(y: int, m: int)
    requires 1 <= m < 12
    ensures DaysBeforeMonth(y, m + 1) == DaysBeforeMonth(y, m) + DaysInMonth(y, m)
  {
  }

  lemma {:induction false} DaysBeforeMonthMonotone(y: int, a: int, b: int)
    requires 1 <= a < b <= 12
    ensures DaysBeforeMonth(y, a) + DaysInMonth(y, a) <= DaysBeforeMonth(y, b)
    decreases b - a
  {
    DaysBeforeMonthStep(y, a);
    if a + 1 < b {
      DaysBeforeMonthMonotone(y, a + 1, b);
    }
  }

  /** The day of the year of a valid date lies within its year. */
  lemma {:induction false} DayOfYearBounds(d: ValidDate)
    ensures 1 <= DaysBeforeMonth(d.year, d.month) + d.day <= DaysInYear(d.year)
    ensures DaysBeforeMonth(d.year, d.month) + d.day == DaysInYear(d.year) ==> d.month == 12 && d.day == 31
  {
    if d.month < 12 {
      DaysBeforeMonthMonotone(d.year, d.month, 12);
    }
  }

  /** Every valid date has an ordinal in `1..MaxOrdinal`, and only
      9999-12-31 reaches the top. */
  lemma {:induction false} OrdinalRange(d: ValidDate)
    ensures 1 <= Ordinal(d) <= MaxOrdinal
    ensures Ordinal(d) == MaxOrdinal ==> d == Date(MaxYear, 12, 31)
  {
    DayOfYearBounds(d);
    DaysBeforeYearStep(d.year);
    DaysBeforeYearMonotone(d.year + 1, MaxYear + 1);
    if d.year < MaxYear {
      DaysBeforeYearMonotone(d.year + 1, MaxYear);
      DaysBeforeYearStep(MaxYear);
    }
  }

  /** Distinct dates have distinct ordinals, so an ordinal names one date. */
  lemma {:induction false} OrdinalInjective(a: ValidDate, b: ValidDate)
    requires Ordinal(a) == Ordinal(b)
    ensures a == b
  {
    DayOfYearBounds(a);
    DayOfYearBounds(b);
    if a.year < b.year {
      DaysBeforeYearMonotone(a.year, b.year);
      assert false;
    } else if b.year < a.year {
      DaysBeforeYearMonotone(b.year, a.year);
      assert false;
    }
    if a.month < b.month {
      DaysBeforeMonthMonotone(a.year, a.month, b.month);
      assert false;
    } else if b.month < a.month {
      DaysBeforeMonthMonotone(a.year, b.month, a.month);
      assert false;
    }
  }

  /** The calendar day after `d` (year 10000 after the last valid date). */
  function NextDay(d: ValidDate): Date {
    if d.day < DaysInMonth(d.year, d.month) then Date(d.year, d.month, d.day + 1)
    else if d.month < 12 then Date(d.year, d.month + 1, 1)
    else Date(d.year + 1, 1, 1)
  }

  lemma {:induction false} NextDayOrdinal(d: ValidDate)
    requires d != Date(MaxYear, 12, 31)
    ensures IsValid(NextDay(d))
    ensures Ordinal(NextDay(d)) == Ordinal(d) + 1
  {
    if d.day == DaysInMonth(d.year, d.month) {
      if d.month < 12 {
        DaysBeforeMonthStep(d.year, d.month);
      } else {
        DaysBeforeYearStep(d.year);
      }
    }
  }

  /** The date `n` days after `d`, when it does not pass 9999-12-31. */
  function Advance(d: ValidDate, n: nat): (r: ValidDate)
    requires Ordinal(d) + n <= MaxOrdinal
    ensures Ordinal(r) == Ordinal(d) + n
    decreases n
  {
    if n == 0 then d
    else
      OrdinalRange(d);
      NextDayOrdinal(d);
      Advance(NextDay(d), n - 1)
  }

  /** `d + timedelta(days=n)`: `OverflowError` past 9999-12-31. */
  function AddDays(d: ValidDate, n: nat): (r: Result<ValidDate>)
    ensures r.Ok? <==> Ordinal(d) + n <= MaxOrdinal
    ensures r.Ok? ==> Ordinal(r.value) == Ordinal(d) + n
    ensures r.Err? ==> r.error == OverflowError
  {
    if Ordinal(d) + n <= MaxOrdinal then Ok(Advance(d, n)) else Err(OverflowError)
  }

  /** Adding days is additive: `(d + a) + b == d + (a + b)`. */
  lemma {:induction false} AddDaysCompose(d: ValidDate, a: nat, b: nat)
    requires AddDays(d, a).Ok?
    ensures AddDays(AddDays(d, a).value, b) == AddDays(d, a + b)
  {
    var m := AddDays(d, a).value;
    if Ordinal(d) + a + b <= MaxOrdinal {
      OrdinalInjective(Advance(m, b), Advance(d, a + b));
    }
  }
}
