/** The proleptic Gregorian calendar of Python's `datetime`: leap years,
    month lengths, the valid range of years 1..9999, day ordinals as
    `date.toordinal()` numbers them (0001-01-01 is day 1), and the
    zero-padded decimal fields `strftime` writes. */
module Calendar {
  import opened Py

  predicate IsLeap(y: int) {
    y % 4 == 0 && (y % 100 != 0 || y % 400 == 0)
  }

  function DaysInYear(y: int): int {
    if IsLeap(y) then 366 else 365
  }

  function DaysInMonth(y: int, m: int): int
    requires 1 <= m <= 12
  {
    if m == 2 then (if IsLeap(y) then 29 else 28)
    else if m == 4 || m == 6 || m == 9 || m == 11 then 30
    else 31
  }

  /** Days in the months of year `y` before month `m` (the table `datetime`
      keeps, with the leap day added after February). */
  function DaysBeforeMonth(y: int, m: int): int
    requires 1 <= m <= 12
  {
    [0, 31, 59, 90, 120, 151, 181, 212, 243, 273, 304, 334][m - 1]
    + (if m > 2 && IsLeap(y) then 1 else 0)
  }

  lemma DaysBeforeNextMonth(y: int, m: int)
    requires 1 <= m < 12
    ensures DaysBeforeMonth(y, m + 1) == DaysBeforeMonth(y, m) + DaysInMonth(y, m)
  {
  }

  lemma DaysBeforeDecember(y: int)
    ensures DaysBeforeMonth(y, 12) + DaysInMonth(y, 12) == DaysInYear(y)
  {
  }

  /** A calendar date and a time of day to the minute: what the scrapers
      parse and print. */
  datatype DateTime = DateTime(year: int, month: int, day: int, hour: int, minute: int)

  predicate ValidDate(y: int, m: int, d: int) {
    1 <= y <= 9999 && 1 <= m <= 12 && 1 <= d <= DaysInMonth(y, m)
  }

  /** No month has more than 31 days. */
  lemma ValidDateBounds(y: int, m: int, d: int)
    requires ValidDate(y, m, d)
    ensures 1 <= y <= 9999 && 1 <= m <= 12 && 1 <= d <= 31
  {
  }

  /** The values `datetime(year, month, day, hour, minute)` accepts. */
  predicate Valid(t: DateTime) {
    ValidDate(t.year, t.month, t.day) && 0 <= t.hour <= 23 && 0 <= t.minute <= 59
  }

  // ---------------------------------------------------------------- ordinals

  /** Days in the years `y0` up to but excluding `y`. */
  function DaysFrom(y0: int, y: int): nat
    decreases y - y0
  {
    if y0 >= y then 0 else DaysInYear(y0) + DaysFrom(y0 + 1, y)
  }

  /** `date(y, m, d).toordinal()`. */
  function ToOrdinal(y: int, m: int, d: int): int
    requires ValidDate(y, m, d)
  {
    DaysFrom(1, y) + DaysBeforeMonth(y, m) + d
  }

  /** The ordinal of 9999-12-31, the last day `datetime` can represent
      (`date.max.toordinal()`). */
  function MaxOrdinal(): int {
    3652059
  }

  /** Locates day `n` (counted from 1) of the years starting at `y`: the
      year it falls in and its day within that year. */
  function YearOf(n: int, y: int): (r: (int, int))
    requires n >= 1
    ensures r.0 >= y && 1 <= r.1 <= DaysInYear(r.0) && n == DaysFrom(y, r.0) + r.1
    decreases n
  {
    if n <= DaysInYear(y) then (y, n) else YearOf(n - DaysInYear(y), y + 1)
  }

  /** Locates day `k` of year `y`, counted from the first day of month `m`:
      the month it falls in and its day within that month. */
  function MonthOf(y: int, k: int, m: int): (r: (int, int))
    requires 1 <= m <= 12 && 1 <= k <= DaysInYear(y) - DaysBeforeMonth(y, m)
    ensures m <= r.0 <= 12 && 1 <= r.1 <= DaysInMonth(y, r.0)
    ensures k + DaysBeforeMonth(y, m) == DaysBeforeMonth(y, r.0) + r.1
    decreases 12 - m
  {
    if k <= DaysInMonth(y, m) then (m, k)
    else
      DaysBeforeDecember(y);
      DaysBeforeNextMonth(y, m);
      MonthOf(y, k - DaysInMonth(y, m), m + 1)
  }

  /** `date.fromordinal(n)` as (year, month, day). */
  function FromOrdinal(n: int): (r: (int, int, int))
    requires n >= 1
  {
    var (y, k) := YearOf(n, 1);
    var (m, d) := MonthOf(y, k, 1);
    (y, m, d)
  }

  lemma {:induction false} DaysFromSplit(a: int, b: int, c: int)
    requires a <= b <= c
    ensures DaysFrom(a, c) == DaysFrom(a, b) + DaysFrom(b, c)
    decreases b - a
  {
    if a < b {
      DaysFromSplit(a + 1, b, c);
    }
  }

  lemma {:induction false} YearOfDaysFrom(y0: int, y: int, k: int)
    requires y0 <= y && 1 <= k <= DaysInYear(y)
    ensures YearOf(DaysFrom(y0, y) + k, y0) == (y, k)
    decreases y - y0
  {
    if y0 < y {
      YearOfDaysFrom(y0 + 1, y, k);
    }
  }

  /** Day `d` of month `m` is within the year. */
  lemma DayWithinYear(y: int, m: int, d: int)
    requires 1 <= m <= 12 && 1 <= d <= DaysInMonth(y, m)
    ensures DaysBeforeMonth(y, m) + d <= DaysInYear(y)
  {
    DaysBeforeDecember(y);
    if m < 12 {
      DaysBeforeNextMonth(y, m);
      DaysBeforeMonotone(y, m + 1, 12);
    }
  }

  lemma {:induction false} MonthOfDaysBefore(y: int, m0: int, m: int, d: int)
    requires 1 <= m0 <= m <= 12 && 1 <= d <= DaysInMonth(y, m)
    ensures DaysBeforeMonth(y, m) + d - DaysBeforeMonth(y, m0) <= DaysInYear(y) - DaysBeforeMonth(y, m0)
    ensures MonthOf(y, DaysBeforeMonth(y, m) - DaysBeforeMonth(y, m0) + d, m0) == (m, d)
    decreases m - m0
  {
    DayWithinYear(y, m, d);
    if m0 < m {
      DaysBeforeNextMonth(y, m0);
      DaysBeforeMonotone(y, m0 + 1, m);
      MonthOfDaysBefore(y, m0 + 1, m, d);
    }
  }

  lemma DaysBeforeMonotone(y: int, a: int, b: int)
    requires 1 <= a <= b <= 12
    ensures DaysBeforeMonth(y, a) <= DaysBeforeMonth(y, b)
  {
  }

  /** The days before year `y`: 365 a year plus the leap days. */
  lemma {:induction false} DaysFromOne(y: int)
    requires y >= 1
    ensures DaysFrom(1, y) == 365 * (y - 1) + (y - 1) / 4 - (y - 1) / 100 + (y - 1) / 400
    decreases y
  {
    if y > 1 {
      var n := y - 1;
      DaysFromOne(n);
      DaysFromSplit(1, n, y);
      assert DaysFrom(n, y) == DaysInYear(n);
      LeapDay(n);
    }
  }

  /** Year `n` has a leap day exactly when the count of leap years up to it
      (multiples of 4, less those of 100, plus those of 400) goes up. */
  lemma LeapDay(n: int)
    requires n >= 1
    ensures DaysInYear(n) - 365 == (n / 4 - (n - 1) / 4) - (n / 100 - (n - 1) / 100) + (n / 400 - (n - 1) / 400)
  {
    QuotientSteps(n);
  }

  /** The counts of multiples of 4, 100 and 400 go up by one at each
      multiple. */
  lemma QuotientSteps(n: int)
    ensures n / 4 - (n - 1) / 4 == if n % 4 == 0 then 1 else 0
    ensures n / 100 - (n - 1) / 100 == if n % 100 == 0 then 1 else 0
    ensures n / 400 - (n - 1) / 400 == if n % 400 == 0 then 1 else 0
    ensures n % 400 == 0 ==> n % 100 == 0
    ensures n % 100 == 0 ==> n % 4 == 0
  {
  }

  /** The years 1 to 9999 have `MaxOrdinal()` days. */
  lemma MaxOrdinalDays()
    ensures DaysFrom(1, 10000) == MaxOrdinal()
  {
    DaysFromOne(10000);
  }

  /** Every valid date within `datetime`'s range has an ordinal between 1 and
      the last representable one. */
  lemma OrdinalInRange(y: int, m: int, d: int)
    requires ValidDate(y, m, d)
    ensures 1 <= ToOrdinal(y, m, d) <= MaxOrdinal()
  {
    DaysBeforeDecember(y);
    MonthOfDaysBefore(y, 1, m, d);
    DaysFromSplit(1, y, 10000);
    assert DaysFrom(y, 10000) == DaysInYear(y) + DaysFrom(y + 1, 10000);
    MaxOrdinalDays();
  }

  /** `date.fromordinal(date(y, m, d).toordinal()) == date(y, m, d)`. */
  lemma FromToOrdinal(y: int, m: int, d: int)
    requires ValidDate(y, m, d)
    ensures FromOrdinal(ToOrdinal(y, m, d)) == (y, m, d)
  {
    MonthOfDaysBefore(y, 1, m, d);
    YearOfDaysFrom(1, y, DaysBeforeMonth(y, m) + d);
  }

  /** `date.fromordinal(n).toordinal() == n`, and every ordinal up to the
      last representable one names a valid date. */
  lemma ToFromOrdinal(n: int)
    requires 1 <= n <= MaxOrdinal()
    ensures ValidDate(FromOrdinal(n).0, FromOrdinal(n).1, FromOrdinal(n).2)
    ensures ToOrdinal(FromOrdinal(n).0, FromOrdinal(n).1, FromOrdinal(n).2) == n
  {
    var (y, k) := YearOf(n, 1);
    MaxOrdinalDays();
    if y >= 10000 {
      DaysFromSplit(1, 10000, y);
    }
  }

  // ---------------------------------------------------------------- padding

  /** A number below 100 written with two digits (`%02d`). */
  function Pad2(v: nat): (s: string)
    requires v < 100
    ensures |s| == 2 && AllDigits(s) && DigitsValue(s) == v
  {
    var s := [DigitChar(v / 10), DigitChar(v % 10)];
    assert s[..1] == [DigitChar(v / 10)];
    assert s[..1][..0] == [];
    assert DigitsValue(s[..1]) == v / 10;
    assert DigitsValue(s) == 10 * (v / 10) + v % 10;
    s
  }

  /** A number below 10000 written with four digits (`%04d`). */
  function Pad4(v: nat): (s: string)
    requires v < 10000
    ensures |s| == 4 && AllDigits(s) && DigitsValue(s) == v
  {
    var s := Pad2(v / 100) + Pad2(v % 100);
    assert s[..3] == Pad2(v / 100) + [s[2]];
    assert s[..3][..2] == Pad2(v / 100);
    s
  }
}
