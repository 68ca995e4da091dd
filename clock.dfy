/**
 * Instants, durations and the time-ordered keys of the history buckets.
 *
 * An instant is a number of nanoseconds since 0000-01-01T00:00:00Z (UTC,
 * proleptic Gregorian calendar).  Go's zero time.Time (0001-01-01T00:00:00Z)
 * is `ZeroTime`.  Durations are nanoseconds, as Go's time.Duration.
 */
module Clock {
  import opened Wrappers
  import opened Keys

  const Second: int := 1_000_000_000
  const Minute: int := 60 * Second
  const Hour: int := 60 * Minute
  const Day: int := 24 * Hour

  /** Go's time.Time{}: year 0 is a leap year, so 366 days after the epoch. */
  const ZeroTime: int := 366 * Day
  /** 10000-01-01T00:00:00Z: the first instant whose RFC 3339 year has five digits. */
  const MaxInstant: int := 3_652_425 * Day

  /** The range of time.Duration (int64 nanoseconds). */
  const MinDuration: int := -0x8000_0000_0000_0000
  const MaxDuration: int := 0x7fff_ffff_ffff_ffff

  /** Instants whose RFC 3339 text is fixed-width: years 0000 to 9999. */
  predicate Formattable(t: int) {
    0 <= t < MaxInstant
  }

  /** t.Sub(u): the difference, saturated to the range of time.Duration. */
  function Sub(t: int, u: int): (d: int)
    ensures MinDuration <= d <= MaxDuration
    ensures MinDuration <= t - u <= MaxDuration ==> d == t - u
    ensures d < Hour <==> t - u < Hour
  {
    if t - u > MaxDuration then MaxDuration
    else if t - u < MinDuration then MinDuration
    else t - u
  }

  /**
   * Go's integer division a / b for b > 0: the quotient truncated toward
   * zero, so the remainder has the sign of a.
   */
  function Quo(a: int, b: int): (q: int)
    requires b > 0
    ensures a >= 0 ==> 0 <= q * b <= a < q * b + b
    ensures a < 0 ==> q * b - b < a <= q * b <= 0
  {
    if a >= 0 then DivBounds(a, b); a / b
    else DivBounds(-a, b); -((-a) / b)
  }

  lemma DivBounds(a: nat, b: int)
    requires b > 0
    ensures 0 <= (a / b) * b <= a < (a / b) * b + b
  {
    var q, r := a / b, a % b;
    assert a == q * b + r && 0 <= r < b;
  }

  /** d.Milliseconds() of a Duration: nanoseconds to whole milliseconds, truncated. */
  function Milliseconds(d: int): int {
    Quo(d, 1_000_000)
  }

  /** The decimal digit character of 0 <= n < 10. */
  function DigitChar(n: int): (c: char)
    requires 0 <= n < 10
    ensures '0' <= c <= '9'
  {
    ('0' as int + n) as char
  }

  function Pow10(w: nat): (p: nat)
    ensures p >= 1
  {
    if w == 0 then 1 else 10 * Pow10(w - 1)
  }

  /** The w-digit decimal numeral of n, with leading zeros. */
  function Digits(n: nat, w: nat): (s: Key)
    requires n < Pow10(w)
    ensures |s| == w
  {
    if w == 0 then [] else Digits(n / 10, w - 1) + [DigitChar(n % 10)]
  }

  /** Fixed-width numerals compare as the numbers they spell. */
  lemma {:induction false} DigitsOrder(n: nat, m: nat, w: nat)
    requires n < Pow10(w) && m < Pow10(w)
    ensures Less(Digits(n, w), Digits(m, w)) <==> n < m
  {
    if w > 0 {
      DigitsOrder(n / 10, m / 10, w - 1);
      DigitsInjective(n / 10, m / 10, w - 1);
      LessAppend(Digits(n / 10, w - 1), Digits(m / 10, w - 1), DigitChar(n % 10), DigitChar(m % 10));
    }
  }

  lemma {:induction false} DigitsInjective(n: nat, m: nat, w: nat)
    requires n < Pow10(w) && m < Pow10(w)
    ensures Digits(n, w) == Digits(m, w) <==> n == m
  {
    if w > 0 {
      DigitsInjective(n / 10, m / 10, w - 1);
      var a, b := Digits(n, w), Digits(m, w);
      if a == b {
        assert a[..w - 1] == Digits(n / 10, w - 1) && b[..w - 1] == Digits(m / 10, w - 1);
        assert a[w - 1] == DigitChar(n % 10) && b[w - 1] == DigitChar(m % 10);
      }
    }
  }

  lemma SecondsFit(t: int)
    requires Formattable(t)
    ensures t / Second < Pow10(12)
  {
    assert Pow10(12) == 1_000_000_000_000 by {
      assert Pow10(3) == 1000;
      assert Pow10(6) == 1000 * Pow10(3);
      assert Pow10(9) == 1000 * Pow10(6);
      assert Pow10(12) == 1000 * Pow10(9);
    }
  }

  /**
   * t.Format(time.RFC3339) of a UTC instant, as the store sees it: one key per
   * whole second, every key of the same width, byte order equal to time order.
   * The key spells the second count as twelve decimal digits rather than the
   * calendar layout; both have the properties proved below.
   */
  function TimeKey(t: int): (k: Key)
    requires Formattable(t)
    ensures |k| == 12
  {
    SecondsFit(t);
    Digits(t / Second, 12)
  }

  /** Byte order of history keys is chronological order at second resolution. */
  lemma TimeKeyOrder(t: int, u: int)
    requires Formattable(t) && Formattable(u)
    ensures Less(TimeKey(t), TimeKey(u)) <==> t / Second < u / Second
    ensures TimeKey(t) == TimeKey(u) <==> t / Second == u / Second
    ensures LessEq(TimeKey(t), TimeKey(u)) <==> t / Second <= u / Second
  {
    SecondsFit(t);
    SecondsFit(u);
    DigitsOrder(t / Second, u / Second, 12);
    DigitsInjective(t / Second, u / Second, 12);
  }

  lemma TimeKeyMonotone(t: int, u: int)
    requires Formattable(t) && Formattable(u) && t <= u
    ensures LessEq(TimeKey(t), TimeKey(u))
  {
    TimeKeyOrder(t, u);
  }

  // ---------------------------------------------------------------------------
  // time.Parse(time.DateOnly, s): "YYYY-MM-DD", midnight UTC.

  predicate IsDigit(c: char) {
    '0' <= c <= '9'
  }

  function DigitValue(c: char): (n: int)
    requires IsDigit(c)
    ensures 0 <= n < 10
  {
    c as int - '0' as int
  }

  predicate IsLeap(y: int) {
    y % 4 == 0 && (y % 100 != 0 || y % 400 == 0)
  }

  /** daysIn(month, year) of Go's time package. */
  function DaysIn(month: int, year: int): (n: int)
    requires 1 <= month <= 12
    ensures 28 <= n <= 31
  {
    if month == 2 then (if IsLeap(year) then 29 else 28)
    else if month == 4 || month == 6 || month == 9 || month == 11 then 30
    else 31
  }

  /** Days from 0000-01-01 to the first of January of year y. */
  function DaysBeforeYear(y: nat): nat {
    365 * y + (y + 3) / 4 - (y + 99) / 100 + (y + 399) / 400
  }

  /** Days from the first of January to the first of the given month. */
  function DaysBeforeMonth(month: int, year: int): (n: nat)
    requires 1 <= month <= 12
    ensures n + DaysIn(month, year) <= (if IsLeap(year) then 366 else 365)
  {
    var cumulative := [0, 31, 59, 90, 120, 151, 181, 212, 243, 273, 304, 334];
    cumulative[month - 1] + (if month > 2 && IsLeap(year) then 1 else 0)
  }

  /** Midnight UTC of a valid calendar date of the years 0000 to 9999. */
  function DateInstant(year: int, month: int, day: int): (t: int)
    requires 0 <= year <= 9999 && 1 <= month <= 12 && 1 <= day <= DaysIn(month, year)
    ensures Formattable(t) && t % Day == 0
  {
    var days := DaysBeforeYear(year) + DaysBeforeMonth(month, year) + day - 1;
    DaysBelowLimit(year, month, day);
    days * Day
  }

  /** Every date of the years 0000 to 9999 lies before 10000-01-01. */
  lemma DaysBelowLimit(year: int, month: int, day: int)
    requires 0 <= year <= 9999 && 1 <= month <= 12 && 1 <= day <= DaysIn(month, year)
    ensures 0 <= DaysBeforeYear(year) + DaysBeforeMonth(month, year) + day - 1 < 3_652_425
  {
    if year == 9999 {
      assert !IsLeap(year);
    } else {
      assert DaysBeforeYear(year) <= 3_651_695;
    }
  }

  /**
   * time.Parse(time.DateOnly, s): four year digits, a dash, two month digits,
   * a dash, two day digits and nothing else; the month must lie in 1..12 and
   * the day in 1..daysIn(month, year).  The result is midnight UTC.
   */
  function ParseDate(s: string): (r: Option<int>)
    ensures r.Some? ==> Formattable(r.value) && r.value % Day == 0
    ensures r.Some? ==> |s| == 10 && s[4] == '-' && s[7] == '-'
  {
    if |s| != 10 || s[4] != '-' || s[7] != '-' then None
    else if !(IsDigit(s[0]) && IsDigit(s[1]) && IsDigit(s[2]) && IsDigit(s[3])
              && IsDigit(s[5]) && IsDigit(s[6]) && IsDigit(s[8]) && IsDigit(s[9])) then None
    else
      var year := 1000 * DigitValue(s[0]) + 100 * DigitValue(s[1]) + 10 * DigitValue(s[2]) + DigitValue(s[3]);
      var month := 10 * DigitValue(s[5]) + DigitValue(s[6]);
      var day := 10 * DigitValue(s[8]) + DigitValue(s[9]);
      if month < 1 || 12 < month then None
      else if day < 1 || DaysIn(month, year) < day then None
      else Some(DateInstant(year, month, day))
  }
}
