/**
 * The proleptic Gregorian calendar that Python's `datetime` checks against,
 * and the English month names `strftime("%B")` prints in the C locale.
 */
module Calendar {

  /** `datetime.MINYEAR` and `datetime.MAXYEAR`. */
  const MinYear := 1
  const MaxYear := 9999

  predicate IsLeapYear(y: int) {
    y % 4 == 0 && (y % 100 != 0 || y % 400 == 0)
  }

  function DaysInMonth(y: int, m: int): (r: nat)
    requires 1 <= m <= 12
    ensures 28 <= r <= 31
    ensures r == 29 <==> m == 2 && IsLeapYear(y)
    ensures r == 31 <==> m in {1, 3, 5, 7, 8, 10, 12}
    ensures r == 30 <==> m in {4, 6, 9, 11}
  {
    if m == 2 then (if IsLeapYear(y) then 29 else 28)
    else if m == 4 || m == 6 || m == 9 || m == 11 then 30
    else 31
  }

  /** The arguments `datetime(y, m, d)` accepts without `ValueError`. */
  predicate IsValidDate(y: int, m: int, d: int) {
    MinYear <= y <= MaxYear && 1 <= m <= 12 && 1 <= d <= DaysInMonth(y, m)
  }

  /** February 29th exists exactly in leap years. */
  lemma LeapDay(y: int)
    requires MinYear <= y <= MaxYear
    ensures IsValidDate(y, 2, 29) <==> IsLeapYear(y)
    ensures !IsValidDate(y, 2, 30)
  {
  }

  const MonthNames: seq<string> := [
    "January", "February", "March", "April", "May", "June",
    "July", "August", "September", "October", "November", "December"
  ]

  /** `strftime("%B")` of a date in month `m`. */
  function MonthName(m: int): (r: string)
    requires 1 <= m <= 12
    ensures r in MonthNames
  {
    MonthNames[m - 1]
  }

  /** Different months have different names. */
  lemma MonthNameInjective(m: int, n: int)
    requires 1 <= m <= 12 && 1 <= n <= 12
    ensures MonthName(m) == MonthName(n) <==> m == n
  {
  }
}
