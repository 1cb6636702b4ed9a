/**
 * java.time.LocalDate and java.time.LocalTime, reduced to what the account and
 * treatment code uses: the date order (isBefore, SQL `<` on dates),
 * LocalDate.plusYears, and the time-of-day order (LocalTime.isAfter).
 */
module JavaTime {

  /** A proleptic ISO calendar date, as java.time.LocalDate. */
  datatype Date = Date(year: int, month: int, day: int)

  /** Year.isLeap: divisible by 4, and not by 100 unless by 400. */
  predicate IsLeap(year: int) {
    year % 4 == 0 && (year % 100 != 0 || year % 400 == 0)
  }

  function LengthOfMonth(year: int, month: int): (n: int)
    requires 1 <= month <= 12
    ensures 28 <= n <= 31
  {
    if month == 2 then (if IsLeap(year) then 29 else 28)
    else if month == 4 || month == 6 || month == 9 || month == 11 then 30
    else 31
  }

  /** A date that LocalDate.of would accept. */
  predicate IsValidDate(d: Date) {
    1 <= d.month <= 12 && 1 <= d.day <= LengthOfMonth(d.year, d.month)
  }

  /** Chronological order: LocalDate.isBefore, and SQL `<` on stored dates. */
  predicate Before(a: Date, b: Date) {
    a.year < b.year
    || (a.year == b.year && a.month < b.month)
    || (a.year == b.year && a.month == b.month && a.day < b.day)
  }

  /**
   * LocalDate.plusYears: the same month and day n years on, except that
   * 29 February becomes 28 February when the target year is not a leap year.
   */
  function PlusYears(d: Date, n: int): (r: Date)
    requires IsValidDate(d)
    ensures IsValidDate(r)
    ensures r.year == d.year + n && r.month == d.month
    ensures r.day == d.day || (d.month == 2 && d.day == 29 && r.day == 28 && !IsLeap(r.year))
  {
    var y := d.year + n;
    Date(y, d.month, if d.month == 2 && d.day == 29 && !IsLeap(y) then 28 else d.day)
  }

  /** A date moved any positive number of years on lies strictly after the original. */
  lemma PlusYearsIsLater(d: Date, n: int)
    requires IsValidDate(d) && n > 0
    ensures Before(d, PlusYears(d, n))
    ensures !Before(PlusYears(d, n), d)
  {
  }

  /** Before is a strict order. */
  lemma BeforeIsStrict(a: Date, b: Date, c: Date)
    ensures !Before(a, a)
    ensures Before(a, b) ==> !Before(b, a)
    ensures Before(a, b) && Before(b, c) ==> Before(a, c)
  {
  }

  /** A time of day, as java.time.LocalTime, counted in nanoseconds since midnight. */
  datatype Time = Time(nanoOfDay: int)

  /** LocalTime.isAfter */
  predicate IsAfter(a: Time, b: Time) {
    a.nanoOfDay > b.nanoOfDay
  }
}
