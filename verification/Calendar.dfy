/** Day numbers and dates: the days-to-date algorithm against the proleptic Gregorian calendar. */
module Calendar {

  datatype Date = Date(year: int, month: int, day: int)

  // ---- The calendar -----------------------------------------------------------------------------------------

  predicate Leap(y: int) {
    y % 4 == 0 && (y % 100 != 0 || y % 400 == 0)
  }

  function DaysIn(y: int, m: int): int {
    if m == 2 then (if Leap(y) then 29 else 28)
    else if m == 4 || m == 6 || m == 9 || m == 11 then 30
    else 31
  }

  predicate Valid(d: Date) {
    1 <= d.month <= 12 && 1 <= d.day <= DaysIn(d.year, d.month)
  }

  function NextDay(d: Date): Date {
    if d.day < DaysIn(d.year, d.month) then d.(day := d.day + 1)
    else if d.month < 12 then Date(d.year, d.month + 1, 1)
    else Date(d.year + 1, 1, 1)
  }

  /** Days from the epoch to the first of January. */
  function BeforeYear(y: int): int {
    365 * (y - 1) + (y - 1) / 4 - (y - 1) / 100 + (y - 1) / 400 - 719_162
  }

  function BeforeMonth(y: int, m: int): int
    requires 1 <= m <= 12
    decreases m
  {
    if m == 1 then 0 else BeforeMonth(y, m - 1) + DaysIn(y, m - 1)
  }

  /** The day number of a date, counted in whole years and months. */
  function Ordinal(d: Date): int
    requires 1 <= d.month <= 12
  {
    BeforeYear(d.year) + BeforeMonth(d.year, d.month) + d.day - 1
  }

  // ---- The algorithm -----------------------------------------------------------------------------------------

  function YearOfEra(doe: int): int {
    (doe - doe / 1460 + doe / 36_524 - doe / 146_096) / 365
  }

  /** Day `doy` of the year that starts on the first of March of `y`. */
  function MarchDate(y: int, doy: int): Date {
    var mp := (5 * doy + 2) / 153;
    var d := doy - (153 * mp + 2) / 5 + 1;
    var m := if mp < 10 then mp + 3 else mp - 9;
    Date(if m <= 2 then y + 1 else y, m, d)
  }

  /** Day `doe` of a 400-year era. */
  function EraDate(era: int, doe: int): Date {
    var yoe := YearOfEra(doe);
    MarchDate(yoe + era * 400, doe - (365 * yoe + yoe / 4 - yoe / 100))
  }

  /** `civil_from_days`. */
  function CivilFromDays(z: int): Date {
    EraDate((z + 719_468) / 146_097, (z + 719_468) % 146_097)
  }

  // ---- Inside an era -------------------------------------------------------------------------------------------

  /** A day of an era as century, four-year cycle, year and day of the year. */
  lemma Decompose(doe: int) returns (c: int, q: int, r: int, doy: int)
    requires 0 <= doe < 146_097
    ensures 0 <= c <= 3 && 0 <= q <= 24 && 0 <= r <= 3 && 0 <= doy <= 365
    ensures doe == 36_524 * c + 1461 * q + 365 * r + doy
    ensures doy == 365 ==> r == 3 && (q < 24 || c == 3)
  {
    c := if doe / 36_524 > 3 then 3 else doe / 36_524;
    var a := doe - 36_524 * c;
    q := a / 1461;
    var b := a - 1461 * q;
    r := if b / 365 > 3 then 3 else b / 365;
    doy := b - 365 * r;
  }

  /** The closed form finds the year of the era. */
  lemma YearOfEraIs(c: int, q: int, r: int, doy: int)
    requires 0 <= c <= 3 && 0 <= q <= 24 && 0 <= r <= 3 && 0 <= doy <= 365
    requires doy == 365 ==> r == 3 && (q < 24 || c == 3)
    ensures YearOfEra(36_524 * c + 1461 * q + 365 * r + doy) == 100 * c + 4 * q + r
  {
    var doe := 36_524 * c + 1461 * q + 365 * r + doy;
    Centuries(c, 1461 * q + 365 * r + doy);
    var w := 24 * c + q + 365 * r + doy;
    var e := if w >= 1460 then 1 else 0;
    assert doe == 1460 * (25 * c + q + e) + (w - 1460 * e);
    assert doe / 1460 == 25 * c + q + e;
    assert doe - doe / 1460 + doe / 36_524 - doe / 146_096 == 365 * (100 * c + 4 * q + r) + (doy - e);
    assert 0 <= doy - e < 365;
  }

  lemma Centuries(c: int, n: int)
    requires 0 <= c <= 3 && 0 <= n <= 36_524 && (n == 36_524 ==> c == 3)
    ensures (36_524 * c + n) / 36_524 - (36_524 * c + n) / 146_096 == c
  {
  }

  /** Every day of an era falls inside its year: March first to the end of February. */
  lemma DayOfYear(doe: int) returns (yoe: int, doy: int)
    requires 0 <= doe < 146_097
    ensures yoe == YearOfEra(doe) && 0 <= yoe < 400 && doy == doe - (365 * yoe + yoe / 4 - yoe / 100)
    ensures 0 <= doy <= 365 && (doy == 365 ==> Leap(yoe + 1))
  {
    var c, q, r;
    c, q, r, doy := Decompose(doe);
    YearOfEraIs(c, q, r, doy);
    yoe := 100 * c + 4 * q + r;
    assert yoe / 4 == 25 * c + q && yoe / 100 == c;
    if doy == 365 {
      assert yoe + 1 == 100 * c + 4 * (q + 1);
      assert q == 24 ==> yoe + 1 == 400;
    }
  }

  // ---- Inside a year ---------------------------------------------------------------------------------------------

  function MonthStart(mp: int): int {
    (153 * mp + 2) / 5
  }

  /** The length of the month that starts at `MonthStart(mp)`, February last. */
  function MonthLength(mp: int, leap: bool): int {
    if mp == 11 then (if leap then 29 else 28) else if mp == 1 || mp == 3 || mp == 6 || mp == 8 then 30 else 31
  }

  lemma MonthOf(doy: int, leap: bool)
    requires 0 <= doy <= 365 && (doy == 365 ==> leap)
    ensures var mp := (5 * doy + 2) / 153;
            0 <= mp <= 11 && MonthStart(mp) <= doy < MonthStart(mp) + MonthLength(mp, leap)
  {
  }

  lemma LeapShifts(era: int, y: int)
    ensures Leap(400 * era + y) <==> Leap(y)
  {
    Mod400(era, y);
    Mod100(4 * era, y);
    Mod4(100 * era, y);
  }

  lemma Mod400(x: int, y: int)
    ensures (400 * x + y) % 400 == y % 400
  {
  }

  lemma Mod100(x: int, y: int)
    ensures (100 * x + y) % 100 == y % 100
  {
  }

  lemma Mod4(x: int, y: int)
    ensures (4 * x + y) % 4 == y % 4
  {
  }

  lemma Months(y: int)
    ensures BeforeMonth(y, 1) == 0 && BeforeMonth(y, 2) == 31
    ensures var f := if Leap(y) then 60 else 59;
            && BeforeMonth(y, 3) == f && BeforeMonth(y, 4) == f + 31 && BeforeMonth(y, 5) == f + 61
            && BeforeMonth(y, 6) == f + 92 && BeforeMonth(y, 7) == f + 122 && BeforeMonth(y, 8) == f + 153
            && BeforeMonth(y, 9) == f + 184 && BeforeMonth(y, 10) == f + 214 && BeforeMonth(y, 11) == f + 245
            && BeforeMonth(y, 12) == f + 275
  {
  }

  /** Days in the first `y` years counted from March of year zero. */
  function MarchDays(y: int): int {
    365 * y + y / 4 - y / 100 + y / 400
  }

  lemma MarchYear(y: int)
    ensures BeforeYear(y + 1) == MarchDays(y) - 719_162
    ensures BeforeYear(y) + (if Leap(y) then 60 else 59) == MarchDays(y) - 719_468
  {
    assert y / 4 == (y - 1) / 4 + if y % 4 == 0 then 1 else 0;
    assert y / 100 == (y - 1) / 100 + if y % 100 == 0 then 1 else 0;
    assert y / 400 == (y - 1) / 400 + if y % 400 == 0 then 1 else 0;
  }

  lemma EraYears(era: int, yoe: int)
    requires 0 <= yoe < 400
    ensures MarchDays(yoe + era * 400) == 146_097 * era + 365 * yoe + yoe / 4 - yoe / 100
  {
    var y := yoe + era * 400;
    assert y / 4 == 100 * era + yoe / 4;
    assert y / 100 == 4 * era + yoe / 100;
    assert y / 400 == era;
  }

  lemma MarchDateCounts(y: int, doy: int)
    requires 0 <= doy <= 365 && (doy == 365 ==> Leap(y + 1))
    ensures var d := MarchDate(y, doy); Valid(d) && Ordinal(d) == MarchDays(y) - 719_468 + doy
  {
    var d, mp := MarchDate(y, doy), (5 * doy + 2) / 153;
    MonthOf(doy, Leap(y + 1));
    MarchYear(y);
    Months(d.year);
    assert d.month >= 3 ==> BeforeMonth(y, d.month) == (if Leap(y) then 60 else 59) + MonthStart(mp);
    assert d.month < 3 ==> BeforeMonth(y + 1, d.month) == MonthStart(mp) - 306;
  }

  // ---- The theorems ------------------------------------------------------------------------------------------------

  lemma EraDateCounts(era: int, doe: int)
    requires 0 <= doe < 146_097
    ensures Valid(EraDate(era, doe)) && Ordinal(EraDate(era, doe)) == 146_097 * era + doe - 719_468
  {
    var yoe, doy := DayOfYear(doe);
    var y := yoe + era * 400;
    assert EraDate(era, doe) == MarchDate(y, doy);
    LeapShifts(era, yoe + 1);
    assert y + 1 == 400 * era + (yoe + 1);
    EraYears(era, yoe);
    MarchDateCounts(y, doy);
  }

  /** Every day number maps to a valid date, and counting that date's days gives the number back. */
  lemma OrdinalOfCivil(z: int)
    ensures Valid(CivilFromDays(z)) && Ordinal(CivilFromDays(z)) == z
  {
    EraDateCounts((z + 719_468) / 146_097, (z + 719_468) % 146_097);
  }

  lemma YearsAreLongEnough(y: int, y': int)
    requires y < y'
    ensures BeforeYear(y) + (if Leap(y) then 366 else 365) <= BeforeYear(y')
  {
    MarchYear(y);
    assert BeforeYear(y + 1) == BeforeYear(y) + if Leap(y) then 366 else 365;
    assert (y' - 1) / 4 >= y / 4 && (y' - 1) / 400 >= y / 400;
    assert (y' - 1) / 100 - y / 100 <= y' - 1 - y;
  }

  lemma OrdinalWithinYear(d: Date)
    requires Valid(d)
    ensures 0 <= BeforeMonth(d.year, d.month) + d.day - 1 < if Leap(d.year) then 366 else 365
  {
    Months(d.year);
  }

  lemma MonthsAreLongEnough(y: int, m: int, m': int)
    requires 1 <= m < m' <= 12
    ensures BeforeMonth(y, m) + DaysIn(y, m) <= BeforeMonth(y, m')
  {
  }

  /** Distinct dates have distinct numbers. */
  lemma OrdinalInjective(a: Date, b: Date)
    requires Valid(a) && Valid(b) && Ordinal(a) == Ordinal(b)
    ensures a == b
  {
    OrdinalWithinYear(a);
    OrdinalWithinYear(b);
    if a.year < b.year { YearsAreLongEnough(a.year, b.year); }
    if b.year < a.year { YearsAreLongEnough(b.year, a.year); }
    if a.month < b.month { MonthsAreLongEnough(a.year, a.month, b.month); }
    if b.month < a.month { MonthsAreLongEnough(a.year, b.month, a.month); }
  }

  lemma OrdinalOfNext(d: Date)
    requires Valid(d)
    ensures Valid(NextDay(d)) && Ordinal(NextDay(d)) == Ordinal(d) + 1
  {
    if d.month == 12 {
      Months(d.year);
      MarchYear(d.year);
      assert BeforeMonth(d.year + 1, 1) == 0;
    }
  }

  /** The inverse: a valid date's number maps back to the date. */
  lemma CivilOfOrdinal(d: Date)
    requires Valid(d)
    ensures CivilFromDays(Ordinal(d)) == d
  {
    OrdinalOfCivil(Ordinal(d));
    OrdinalInjective(CivilFromDays(Ordinal(d)), d);
  }

  lemma NextIsUnique(a: Date, b: Date)
    requires Valid(a) && Valid(b) && Ordinal(b) == Ordinal(a) + 1
    ensures b == NextDay(a)
  {
    OrdinalOfNext(a);
    OrdinalInjective(b, NextDay(a));
  }

  /** The algorithm walks the calendar day by day, in both directions without end. */
  lemma CivilSteps(z: int)
    ensures CivilFromDays(z + 1) == NextDay(CivilFromDays(z))
  {
    OrdinalOfCivil(z);
    OrdinalOfCivil(z + 1);
    NextIsUnique(CivilFromDays(z), CivilFromDays(z + 1));
  }

  /** Day zero is the epoch. */
  lemma EpochIsDayZero()
    ensures CivilFromDays(0) == Date(1970, 1, 1)
  {
    assert 719_468 / 146_097 == 4 && 719_468 % 146_097 == 135_080;
    assert YearOfEra(135_080) == 369;
    assert EraDate(4, 135_080) == MarchDate(1969, 306);
  }
}
