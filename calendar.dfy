/** The calendar helpers of parsetime.go: the leap-year test, the
    cumulative days-before-month table and the length of a month. */
module Calendar {
  import opened Bytes

  /** Go's `%` on int: the remainder truncated toward zero, which has the
      sign of the dividend. */
  function GoRem(a: int, b: int): int
    requires b > 0
  {
    if a >= 0 then a % b else -((-a) % b)
  }

  /** A Go remainder by one of the divisors isLeap uses is zero exactly when
      the divisor divides the dividend. */
  lemma GoRemZero(a: int, b: int)
    requires b == 4 || b == 100 || b == 400
    ensures GoRem(a, b) == 0 <==> a % b == 0
  {
    if b == 4 {
      assert GoRem(a, 4) == 0 <==> a % 4 == 0;
    } else if b == 100 {
      assert GoRem(a, 100) == 0 <==> a % 100 == 0;
    } else {
      assert GoRem(a, 400) == 0 <==> a % 400 == 0;
    }
  }

  /** The Gregorian rule: divisible by 4, and not by 100 unless also by 400. */
  predicate GregorianLeap(year: int)
  {
    year % 4 == 0 && (year % 100 != 0 || year % 400 == 0)
  }

  /** isLeap, written with Go's truncated remainder: the Gregorian rule for
      every year, negative ones included. */
  predicate IsLeap(year: int): (r: bool)
    ensures r <==> GregorianLeap(year)
  {
    GoRemZero(year, 4);
    GoRemZero(year, 100);
    GoRemZero(year, 400);
    GoRem(year, 4) == 0 && (GoRem(year, 100) != 0 || GoRem(year, 400) == 0)
  }

  /** daysBefore[m]: the days of a non-leap year before month m begins;
      entry 12 counts the whole year. */
  const DaysBefore: seq<int> := [
    0,
    31,
    31 + 28,
    31 + 28 + 31,
    31 + 28 + 31 + 30,
    31 + 28 + 31 + 30 + 31,
    31 + 28 + 31 + 30 + 31 + 30,
    31 + 28 + 31 + 30 + 31 + 30 + 31,
    31 + 28 + 31 + 30 + 31 + 30 + 31 + 31,
    31 + 28 + 31 + 30 + 31 + 30 + 31 + 31 + 30,
    31 + 28 + 31 + 30 + 31 + 30 + 31 + 31 + 30 + 31,
    31 + 28 + 31 + 30 + 31 + 30 + 31 + 31 + 30 + 31 + 30,
    31 + 28 + 31 + 30 + 31 + 30 + 31 + 31 + 30 + 31 + 30 + 31
  ]

  /** The length of month m of the proleptic Gregorian calendar. */
  function MonthLength(m: int, leap: bool): (n: int)
    requires 1 <= m <= 12
    ensures 28 <= n <= 31
  {
    if m == 2 then (if leap then 29 else 28)
    else if m == 4 || m == 6 || m == 9 || m == 11 then 30
    else 31
  }

  /** The table starts at 0, ends at 365 and grows strictly; each step is the
      length of a month of a non-leap year. */
  lemma DaysBeforeShape()
    ensures |DaysBefore| == 13 && DaysBefore[0] == 0 && DaysBefore[12] == 365
    ensures forall m | 1 <= m <= 12 :: DaysBefore[m] - DaysBefore[m - 1] == MonthLength(m, false)
    ensures forall i, j | 0 <= i < j <= 12 :: DaysBefore[i] < DaysBefore[j]
  {
  }

  /** daysIn. Indexing daysBefore with a month outside 1..12 panics; February
      of a leap year is answered before the table is read. */
  function DaysIn(m: int, year: int): (r: Outcome<int>)
    ensures r.Panic? <==> !(1 <= m <= 12)
    ensures 1 <= m <= 12 ==> r == Ok(MonthLength(m, GregorianLeap(year)))
  {
    if m == 2 && IsLeap(year) then Ok(29)
    else if 0 <= m - 1 && m < |DaysBefore| then Ok(DaysBefore[m] - DaysBefore[m - 1])
    else Panic
  }
}
