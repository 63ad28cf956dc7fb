/**
 * Naive `datetime.datetime` values as Python keeps them: a civil date and a
 * time of day to the microsecond, no time zone. The clock readings
 * `datetime.utcnow()` and `datetime.now()` are parameters of the operations
 * that take them; this module gives the arithmetic and the text forms the
 * backup code uses: `isoformat()`, two `strftime` patterns and `- timedelta(hours=24)`.
 */
module DateTimes {
  import opened Wrappers

  datatype DateTime = DateTime(year: int, month: int, day: int,
                               hour: int, minute: int, second: int, microsecond: int)

  const MinYear := 1
  const MaxYear := 9999

  predicate IsLeapYear(y: int) {
    y % 4 == 0 && (y % 100 != 0 || y % 400 == 0)
  }

  function DaysInMonth(y: int, m: int): (n: int)
    requires 1 <= m <= 12
    ensures 28 <= n <= 31
  {
    if m == 2 then (if IsLeapYear(y) then 29 else 28)
    else if m == 4 || m == 6 || m == 9 || m == 11 then 30
    else 31
  }

  /** The values `datetime` can hold (years 1 to 9999). */
  predicate Valid(d: DateTime) {
    && MinYear <= d.year <= MaxYear
    && 1 <= d.month <= 12
    && 1 <= d.day <= DaysInMonth(d.year, d.month)
    && 0 <= d.hour < 24 && 0 <= d.minute < 60 && 0 <= d.second < 60
    && 0 <= d.microsecond < 1000000
  }

  /** Python's `a < b` on datetimes: lexicographic on the seven fields. */
  predicate Before(a: DateTime, b: DateTime) {
    if a.year != b.year then a.year < b.year
    else if a.month != b.month then a.month < b.month
    else if a.day != b.day then a.day < b.day
    else if a.hour != b.hour then a.hour < b.hour
    else if a.minute != b.minute then a.minute < b.minute
    else if a.second != b.second then a.second < b.second
    else a.microsecond < b.microsecond
  }

  /** Python's `a >= b`. */
  predicate AtOrAfter(a: DateTime, b: DateTime) {
    !Before(a, b)
  }

  predicate SameTimeOfDay(a: DateTime, b: DateTime) {
    a.hour == b.hour && a.minute == b.minute && a.second == b.second && a.microsecond == b.microsecond
  }

  /**
   * `d - timedelta(hours=24)`: the same time of day on the previous calendar
   * day. `None` stands for the OverflowError Python raises below 0001-01-01.
   */
  function MinusDay(d: DateTime): (r: Option<DateTime>)
    requires Valid(d)
    ensures r.None? <==> (d.year == MinYear && d.month == 1 && d.day == 1)
    ensures r.Some? ==> Valid(r.value) && Before(r.value, d) && SameTimeOfDay(r.value, d)
  {
    if d.day > 1 then Some(d.(day := d.day - 1))
    else if d.month > 1 then Some(d.(month := d.month - 1, day := DaysInMonth(d.year, d.month - 1)))
    else if d.year > MinYear then Some(d.(year := d.year - 1, month := 12, day := 31))
    else None
  }

  /** `d + timedelta(hours=24)`; `None` is the OverflowError above 9999-12-31. */
  function PlusDay(d: DateTime): (r: Option<DateTime>)
    requires Valid(d)
    ensures r.None? <==> (d.year == MaxYear && d.month == 12 && d.day == 31)
    ensures r.Some? ==> Valid(r.value) && Before(d, r.value) && SameTimeOfDay(r.value, d)
  {
    if d.day < DaysInMonth(d.year, d.month) then Some(d.(day := d.day + 1))
    else if d.month < 12 then Some(d.(month := d.month + 1, day := 1))
    else if d.year < MaxYear then Some(d.(year := d.year + 1, month := 1, day := 1))
    else None
  }

  /** Going back 24 hours and forward again gives the starting point, and vice versa. */
  lemma DayShiftRoundTrip(d: DateTime)
    requires Valid(d)
    ensures MinusDay(d).Some? ==> PlusDay(MinusDay(d).value) == Some(d)
    ensures PlusDay(d).Some? ==> MinusDay(PlusDay(d).value) == Some(d)
  {
  }

  // ---- text forms ----

  function DigitChar(n: nat): char
    requires n < 10
  {
    (48 + n) as char
  }

  /** The decimal digits of `n`, without leading zeros. */
  function Decimal(n: nat): (s: string)
    ensures |s| >= 1
  {
    if n < 10 then [DigitChar(n)] else Decimal(n / 10) + [DigitChar(n % 10)]
  }

  function Zeros(k: nat): (s: string)
    ensures |s| == k
  {
    if k == 0 then "" else "0" + Zeros(k - 1)
  }

  /** `%0<width>d`: the decimal digits of `n`, left-padded with zeros to `width`. */
  function ZeroPad(n: nat, width: nat): (s: string)
    ensures |s| >= width
  {
    var digits := Decimal(n);
    if |digits| >= width then digits else Zeros(width - |digits|) + digits
  }

  /** `d.isoformat()`: `YYYY-MM-DDTHH:MM:SS`, with `.ffffff` only when the microseconds are not zero. */
  function IsoFormat(d: DateTime): string
    requires Valid(d)
  {
    ZeroPad(d.year, 4) + "-" + ZeroPad(d.month, 2) + "-" + ZeroPad(d.day, 2) + "T" +
    ZeroPad(d.hour, 2) + ":" + ZeroPad(d.minute, 2) + ":" + ZeroPad(d.second, 2) +
    (if d.microsecond == 0 then "" else "." + ZeroPad(d.microsecond, 6))
  }

  /** `d.strftime('%Y%m%d_%H%M%S')`. */
  function CompactStamp(d: DateTime): string
    requires Valid(d)
  {
    ZeroPad(d.year, 4) + ZeroPad(d.month, 2) + ZeroPad(d.day, 2) + "_" +
    ZeroPad(d.hour, 2) + ZeroPad(d.minute, 2) + ZeroPad(d.second, 2)
  }

  /** `d.strftime('%Y-%m-%d %H:%M:%S')`. */
  function ReadableStamp(d: DateTime): string
    requires Valid(d)
  {
    ZeroPad(d.year, 4) + "-" + ZeroPad(d.month, 2) + "-" + ZeroPad(d.day, 2) + " " +
    ZeroPad(d.hour, 2) + ":" + ZeroPad(d.minute, 2) + ":" + ZeroPad(d.second, 2)
  }
}
