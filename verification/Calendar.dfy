/** The proleptic Gregorian calendar: day numbers since 0000-01-01 and their dates. */
module Calendar {

  predicate Leap(y: nat) {
    y % 4 == 0 && (y % 100 != 0 || y % 400 == 0)
  }

  function DaysInMonth(y: nat, m: nat): nat
    requires 1 <= m <= 12
  {
    if m == 2 then (if Leap(y) then 29 else 28)
    else if m == 4 || m == 6 || m == 9 || m == 11 then 30
    else 31
  }

  function DaysBeforeMonth(y: nat, m: nat): nat
    requires 1 <= m <= 13
  {
    if m == 1 then 0 else DaysBeforeMonth(y, m - 1) + DaysInMonth(y, m - 1)
  }

  function DaysInYear(y: nat): nat {
    DaysBeforeMonth(y, 13)
  }

  function DaysBeforeYear(y: nat): nat {
    if y == 0 then 0 else DaysBeforeYear(y - 1) + DaysInYear(y - 1)
  }

  datatype Date = Date(year: nat, month: nat, day: nat)

  predicate ValidDate(d: Date) {
    1 <= d.month <= 12 && 1 <= d.day <= DaysInMonth(d.year, d.month)
  }

  function DayNumber(d: Date): int
    requires ValidDate(d)
  {
    DaysBeforeYear(d.year) + DaysBeforeMonth(d.year, d.month) + d.day - 1
  }

  lemma MonthsMonotone(y: nat, m: nat, n: nat)
    requires 1 <= m <= n <= 13
    ensures DaysBeforeMonth(y, m) <= DaysBeforeMonth(y, n)
    decreases n
  {
    if m < n { MonthsMonotone(y, m, n - 1); }
  }

  lemma YearsMonotone(y: nat, z: nat)
    requires y <= z
    ensures DaysBeforeYear(y) <= DaysBeforeYear(z)
    decreases z
  {
    if y < z { YearsMonotone(y, z - 1); }
  }

  predicate DateBefore(c: Date, d: Date) {
    c.year < d.year || (c.year == d.year && (c.month < d.month || (c.month == d.month && c.day < d.day)))
  }

  lemma DayNumberMonotone(c: Date, d: Date)
    requires ValidDate(c) && ValidDate(d) && DateBefore(c, d)
    ensures DayNumber(c) < DayNumber(d)
  {
    if c.year < d.year {
      YearsMonotone(c.year + 1, d.year);
      MonthsMonotone(c.year, c.month + 1, 13);
    } else if c.month < d.month {
      MonthsMonotone(c.year, c.month + 1, d.month);
    }
  }

  // Counts months of one year off a day-of-year.
  function MonthFrom(y: nat, m: nat, rest: nat): Date
    requires 1 <= m <= 12
    decreases 12 - m
  {
    if m == 12 || rest < DaysInMonth(y, m) then Date(y, m, rest + 1)
    else MonthFrom(y, m + 1, rest - DaysInMonth(y, m))
  }

  lemma {:induction false} MonthFromInverse(y: nat, m: nat, rest: nat)
    requires 1 <= m <= 12
    requires DaysBeforeMonth(y, m) + rest < DaysInYear(y)
    ensures var d := MonthFrom(y, m, rest);
            ValidDate(d) && d.year == y && DaysBeforeMonth(y, d.month) + d.day - 1 == DaysBeforeMonth(y, m) + rest
    decreases 12 - m
  {
    assert DaysBeforeMonth(y, m + 1) == DaysBeforeMonth(y, m) + DaysInMonth(y, m);
    if m == 12 {
      assert rest < DaysInMonth(y, m);
    } else if rest >= DaysInMonth(y, m) {
      MonthFromInverse(y, m + 1, rest - DaysInMonth(y, m));
    }
  }

  lemma YearHasDays(y: nat)
    ensures DaysInYear(y) >= 31
  {
    assert DaysBeforeMonth(y, 2) == 31;
    MonthsMonotone(y, 2, 13);
  }

  // Counts years off a day number.
  function DateFrom(y: nat, rest: nat): Date
    decreases rest
  {
    if rest < DaysInYear(y) then MonthFrom(y, 1, rest)
    else YearHasDays(y); DateFrom(y + 1, rest - DaysInYear(y))
  }

  function DateOf(day: nat): Date { DateFrom(0, day) }

  lemma {:induction false} DateFromInverse(y: nat, rest: nat)
    ensures var d := DateFrom(y, rest); ValidDate(d) && DayNumber(d) == DaysBeforeYear(y) + rest
    decreases rest
  {
    if rest < DaysInYear(y) { MonthFromInverse(y, 1, rest); }
    else {
      YearHasDays(y);
      DateFromInverse(y + 1, rest - DaysInYear(y));
    }
  }

  // The calendar reading of a day number counts back to that number.
  lemma DateOfInverse(day: nat)
    ensures ValidDate(DateOf(day)) && DayNumber(DateOf(day)) == day
  {
    DateFromInverse(0, day);
  }

  // ---------- the Gregorian rule ----------

  lemma MonthLengths(y: nat, m: nat)
    requires 1 <= m <= 12
    ensures DaysInMonth(y, m) == [31, 28, 31, 30, 31, 30, 31, 31, 30, 31, 30, 31][m - 1] + if m == 2 && Leap(y) then 1 else 0
  {}

  lemma YearLength(y: nat)
    ensures DaysInYear(y) == if y % 4 == 0 && (y % 100 != 0 || y % 400 == 0) then 366 else 365
  {
    var leap := if Leap(y) then 1 else 0;
    assert DaysBeforeMonth(y, 2) == 31;
    assert DaysBeforeMonth(y, 3) == 59 + leap;
    assert DaysBeforeMonth(y, 4) == 90 + leap;
    assert DaysBeforeMonth(y, 5) == 120 + leap;
    assert DaysBeforeMonth(y, 6) == 151 + leap;
    assert DaysBeforeMonth(y, 7) == 181 + leap;
    assert DaysBeforeMonth(y, 8) == 212 + leap;
    assert DaysBeforeMonth(y, 9) == 243 + leap;
    assert DaysBeforeMonth(y, 10) == 273 + leap;
    assert DaysBeforeMonth(y, 11) == 304 + leap;
    assert DaysBeforeMonth(y, 12) == 334 + leap;
  }

  // Days up to a year by the Gregorian rule: a leap day every four years, none in a century
  // year, one in every fourth century.
  function Gregorian(y: nat): int { 365 * y + (y + 3) / 4 - (y + 99) / 100 + (y + 399) / 400 }

  lemma {:induction false} YearsClosed(y: nat)
    ensures DaysBeforeYear(y) == Gregorian(y)
  {
    if y > 0 {
      YearsClosed(y - 1);
      YearLength(y - 1);
      GregorianStep(y - 1);
    }
  }

  lemma GregorianStep(y: nat)
    ensures Gregorian(y + 1) == Gregorian(y) + if y % 4 == 0 && (y % 100 != 0 || y % 400 == 0) then 366 else 365
  {
    Fours(y);
    Centuries(y);
    FourthCenturies(y);
    Multiples(y);
    assert y + 1 + 3 == y + 4 && y + 1 + 99 == y + 100 && y + 1 + 399 == y + 400;
  }

  lemma Multiples(y: nat)
    ensures y % 400 == 0 ==> y % 100 == 0
    ensures y % 100 == 0 ==> y % 4 == 0
  {
    if y % 400 == 0 { assert y == 100 * (4 * (y / 400)); }
    if y % 100 == 0 { assert y == 4 * (25 * (y / 100)); }
  }

  lemma Fours(y: nat)
    ensures (y + 4) / 4 == (y + 3) / 4 + if y % 4 == 0 then 1 else 0
  {}

  lemma Centuries(y: nat)
    ensures (y + 100) / 100 == (y + 99) / 100 + if y % 100 == 0 then 1 else 0
  {}

  lemma FourthCenturies(y: nat)
    ensures (y + 400) / 400 == (y + 399) / 400 + if y % 400 == 0 then 1 else 0
  {}
}
