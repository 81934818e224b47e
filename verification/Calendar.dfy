/** The proleptic Gregorian calendar, counted day by day from 1970-01-01, and
    Howard Hinnant's closed form for it (ran/collector/src/lib.rs:198-205). */
module Calendar {

  predicate IsLeap(y: int) {
    y % 4 == 0 && (y % 100 != 0 || y % 400 == 0)
  }

  function DaysInMonth(y: int, m: int): (n: nat)
    requires 1 <= m <= 12
    ensures 28 <= n <= 31
  {
    if m == 2 then (if IsLeap(y) then 29 else 28)
    else if m == 4 || m == 6 || m == 9 || m == 11 then 30
    else 31
  }

  function DaysInYear(y: int): nat {
    if IsLeap(y) then 366 else 365
  }

  datatype Date = Date(year: int, month: int, day: int)

  predicate ValidDate(d: Date) {
    1 <= d.month <= 12 && 1 <= d.day <= DaysInMonth(d.year, d.month)
  }

  // ----- The reference: add up whole years and whole months -----

  function DaysBeforeYear(y: int): int
    decreases if y < 1970 then 1970 - y else y - 1970
  {
    if y == 1970 then 0
    else if y < 1970 then DaysBeforeYear(y + 1) - DaysInYear(y)
    else DaysBeforeYear(y - 1) + DaysInYear(y - 1)
  }

  function DaysBeforeMonth(y: int, m: int): nat
    requires 1 <= m <= 12
  {
    if m == 1 then 0 else DaysBeforeMonth(y, m - 1) + DaysInMonth(y, m - 1)
  }

  /** Days from 1970-01-01 to `d`; negative before it. */
  function DayNumber(d: Date): int
    requires 1 <= d.month <= 12
  {
    DaysBeforeYear(d.year) + DaysBeforeMonth(d.year, d.month) + d.day - 1
  }

  // ----- The closed form the parser uses -----

  /** Years run from March, so `yAdj` is the year before for January and
      February. `/` is the source's `div_euclid`; every other dividend is
      non-negative. */
  function DaysFromMarchYear(yAdj: int, mo: int, da: int): int {
    var era := yAdj / 400;
    var yoe := yAdj - era * 400;
    var mp := (mo + 9) % 12;
    var doy := (153 * mp + 2) / 5 + da - 1;
    var doe := yoe * 365 + yoe / 4 - yoe / 100 + doy;
    era * 146_097 + doe - 719_468
  }

  function DaysFromCivil(y: int, mo: int, da: int): int {
    DaysFromMarchYear(if mo <= 2 then y - 1 else y, mo, da)
  }

  /** Days before 1 March of year `y`, relative to 1 March of year 0. */
  function MarchCount(y: int): int {
    365 * y + y / 4 - y / 100 + y / 400
  }

  lemma EraForm(y: int)
    ensures var yoe := y - y / 400 * 400;
      y / 400 * 146_097 + yoe * 365 + yoe / 4 - yoe / 100 == MarchCount(y)
  {
    var era := y / 400;
    var yoe := y - era * 400;
    assert y / 4 == era * 100 + yoe / 4;
    assert y / 100 == era * 4 + yoe / 100;
  }

  /** The leap rule is the step of the three quotients. */
  lemma QuotientStep(y: int)
    ensures (y + 1) / 4 - y / 4 == (if (y + 1) % 4 == 0 then 1 else 0)
    ensures (y + 1) / 100 - y / 100 == (if (y + 1) % 100 == 0 then 1 else 0)
    ensures (y + 1) / 400 - y / 400 == (if (y + 1) % 400 == 0 then 1 else 0)
    ensures MarchCount(y + 1) - MarchCount(y) == DaysInYear(y + 1)
  {
    Step4(y);
    Step100(y);
    Step400(y);
    CenturiesAreFourths(y + 1);
  }

  lemma Step4(y: int)
    ensures (y + 1) / 4 - y / 4 == (if (y + 1) % 4 == 0 then 1 else 0)
  {
  }

  lemma Step100(y: int)
    ensures (y + 1) / 100 - y / 100 == (if (y + 1) % 100 == 0 then 1 else 0)
  {
  }

  lemma Step400(y: int)
    ensures (y + 1) / 400 - y / 400 == (if (y + 1) % 400 == 0 then 1 else 0)
  {
  }

  lemma CenturiesAreFourths(y: int)
    ensures y % 100 == 0 ==> y % 4 == 0
    ensures y % 400 == 0 ==> y % 100 == 0
  {
  }

  /** 1 January of `y` falls 306 days after 1 March of the year before. */
  lemma {:induction false} YearsMatch(y: int)
    ensures MarchCount(y - 1) + 306 - 719_468 == DaysBeforeYear(y)
    decreases if y < 1970 then 1970 - y else y - 1970
  {
    if y < 1970 {
      YearsMatch(y + 1);
      QuotientStep(y - 1);
    } else if 1970 < y {
      YearsMatch(y - 1);
      QuotientStep(y - 2);
    }
  }

  lemma MonthsMatch(y: int, m: int)
    requires 1 <= m <= 12
    ensures (153 * ((m + 9) % 12) + 2) / 5
         == DaysBeforeMonth(y, m) + (if m <= 2 then 306 else -59 - (if IsLeap(y) then 1 else 0))
  {
    var l := if IsLeap(y) then 1 else 0;
    assert DaysBeforeMonth(y, 2) == 31;
    assert DaysBeforeMonth(y, 3) == 59 + l;
    assert DaysBeforeMonth(y, 4) == 90 + l;
    assert DaysBeforeMonth(y, 5) == 120 + l;
    assert DaysBeforeMonth(y, 6) == 151 + l;
    assert DaysBeforeMonth(y, 7) == 181 + l;
    assert DaysBeforeMonth(y, 8) == 212 + l;
    assert DaysBeforeMonth(y, 9) == 243 + l;
    assert DaysBeforeMonth(y, 10) == 273 + l;
    assert DaysBeforeMonth(y, 11) == 304 + l;
    assert DaysBeforeMonth(y, 12) == 334 + l;
  }

  /** The closed form is the count, for every year and month; a day past the
      end of its month (the parser lets 31 February through) counts on into
      the next. */
  lemma DaysFromCivilCounts(d: Date)
    requires 1 <= d.month <= 12
    ensures DaysFromCivil(d.year, d.month, d.day) == DayNumber(d)
  {
    MonthsMatch(d.year, d.month);
    YearsMatch(d.year);
    if d.month <= 2 {
      EraForm(d.year - 1);
    } else {
      EraForm(d.year);
      QuotientStep(d.year - 1);
    }
  }

  // ----- Every day once, in order -----

  function NextDate(d: Date): (n: Date)
    requires ValidDate(d)
    ensures ValidDate(n)
  {
    if d.day < DaysInMonth(d.year, d.month) then Date(d.year, d.month, d.day + 1)
    else if d.month < 12 then Date(d.year, d.month + 1, 1)
    else Date(d.year + 1, 1, 1)
  }

  function PreviousDate(d: Date): (p: Date)
    requires ValidDate(d)
    ensures ValidDate(p)
  {
    if 1 < d.day then Date(d.year, d.month, d.day - 1)
    else if 1 < d.month then Date(d.year, d.month - 1, DaysInMonth(d.year, d.month - 1))
    else Date(d.year - 1, 12, 31)
  }

  lemma YearLength(y: int)
    ensures DaysBeforeMonth(y, 12) + 31 == DaysInYear(y)
    ensures DaysBeforeYear(y + 1) == DaysBeforeYear(y) + DaysInYear(y)
  {
    MonthsMatch(y, 12);
  }

  lemma NextDayIsOneMore(d: Date)
    requires ValidDate(d)
    ensures DayNumber(NextDate(d)) == DayNumber(d) + 1
    ensures DayNumber(PreviousDate(d)) == DayNumber(d) - 1
  {
    YearLength(d.year);
    YearLength(d.year - 1);
  }

  predicate Earlier(a: Date, b: Date) {
    a.year < b.year || (a.year == b.year && (a.month < b.month || (a.month == b.month && a.day < b.day)))
  }

  lemma {:induction false} LaterYear(y: int, z: int)
    requires y < z
    ensures DaysBeforeYear(y) + DaysInYear(y) <= DaysBeforeYear(z)
    decreases z - y
  {
    YearLength(y);
    if y + 1 < z {
      LaterYear(y + 1, z);
    }
  }

  lemma {:induction false} LaterMonth(y: int, m: int, n: int)
    requires 1 <= m < n <= 12
    ensures DaysBeforeMonth(y, m) + DaysInMonth(y, m) <= DaysBeforeMonth(y, n)
    decreases n - m
  {
    if m + 1 < n {
      LaterMonth(y, m, n - 1);
    }
  }

  lemma WithinYear(d: Date)
    requires ValidDate(d)
    ensures DaysBeforeYear(d.year) <= DayNumber(d) < DaysBeforeYear(d.year) + DaysInYear(d.year)
  {
    YearLength(d.year);
    if d.month < 12 {
      LaterMonth(d.year, d.month, 12);
    }
  }

  /** Calendar order is the order of day numbers, so two dates never share one. */
  lemma DayNumberOrders(a: Date, b: Date)
    requires ValidDate(a) && ValidDate(b)
    ensures Earlier(a, b) <==> DayNumber(a) < DayNumber(b)
    ensures DayNumber(a) == DayNumber(b) ==> a == b
  {
    if Earlier(a, b) {
      EarlierIsLess(a, b);
    } else if Earlier(b, a) {
      EarlierIsLess(b, a);
    }
  }

  lemma EarlierIsLess(a: Date, b: Date)
    requires ValidDate(a) && ValidDate(b) && Earlier(a, b)
    ensures DayNumber(a) < DayNumber(b)
  {
    if a.year < b.year {
      WithinYear(a);
      WithinYear(b);
      LaterYear(a.year, b.year);
    } else if a.month < b.month {
      LaterMonth(a.year, a.month, b.month);
    }
  }

  /** The date `n` days after 1970-01-01: what a clock turns an instant into. */
  function DateOf(n: int): (d: Date)
    ensures ValidDate(d) && DayNumber(d) == n
    decreases if n < 0 then -n else n
  {
    if n == 0 then Date(1970, 1, 1)
    else if n < 0 then
      var next := DateOf(n + 1);
      NextDayIsOneMore(next);
      PreviousDate(next)
    else
      var previous := DateOf(n - 1);
      NextDayIsOneMore(previous);
      NextDate(previous)
  }

  /** Day numbers and valid dates are one and the same thing. */
  lemma DayNumberOfDate(d: Date)
    requires ValidDate(d)
    ensures DateOf(DayNumber(d)) == d
  {
    DayNumberOrders(DateOf(DayNumber(d)), d);
  }
}
