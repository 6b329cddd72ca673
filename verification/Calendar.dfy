/** Calendar arithmetic: the two copies of `civil_from_days` and an independent
    day count built from month and year lengths alone (the leap-year rule of
    Appendix C of RFC 3339, extended to every integer year). */
module Calendar {

  datatype Date = Date(year: int, month: int, day: int)

  predicate Leap(y: int) {
    y % 4 == 0 && (y % 100 != 0 || y % 400 == 0)
  }

  function MonthLength(y: int, m: int): int
    requires 1 <= m <= 12
  {
    if m == 2 then (if Leap(y) then 29 else 28)
    else if m == 4 || m == 6 || m == 9 || m == 11 then 30
    else 31
  }

  function YearLength(y: int): int {
    if Leap(y) then 366 else 365
  }

  predicate ValidDate(d: Date) {
    1 <= d.month <= 12 && 1 <= d.day <= MonthLength(d.year, d.month)
  }

  /** The day after `d`. */
  function Next(d: Date): Date
    requires ValidDate(d)
  {
    if d.day < MonthLength(d.year, d.month) then Date(d.year, d.month, d.day + 1)
    else if d.month < 12 then Date(d.year, d.month + 1, 1)
    else Date(d.year + 1, 1, 1)
  }

  /** Days from 1970-01-01 to the first day of year `y`, one year at a time. */
  function DaysBeforeYear(y: int): int
    decreases if y >= 1970 then y - 1970 else 1970 - y
  {
    if y == 1970 then 0
    else if y > 1970 then DaysBeforeYear(y - 1) + YearLength(y - 1)
    else DaysBeforeYear(y + 1) - YearLength(y)
  }

  /** Days from the first day of year `y` to the first day of month `m`. */
  function DaysBeforeMonth(y: int, m: int): int
    requires 1 <= m <= 12
    decreases m
  {
    if m == 1 then 0 else DaysBeforeMonth(y, m - 1) + MonthLength(y, m - 1)
  }

  function DayCount(d: Date): int
    requires ValidDate(d)
  {
    DaysBeforeYear(d.year) + DaysBeforeMonth(d.year, d.month) + d.day - 1
  }

  // ---------------------------------------------------------------- the code

  /** Division that truncates toward zero, as Rust's `/` on `i64`. */
  function TruncDiv(a: int, b: int): int
    requires b > 0
  {
    if a >= 0 then a / b else -((-a) / b)
  }

  /** The tail shared by both copies: era and day of era to a civil date. */
  function YearOfEra(doe: int): int {
    (doe - doe / 1460 + doe / 36524 - doe / 146096) / 365
  }

  function FromEra(era: int, doe: int): Date {
    var yoe := YearOfEra(doe);
    var doy := doe - (365 * yoe + yoe / 4 - yoe / 100);
    FromYearDay(yoe + era * 400, doy)
  }

  /** `doy` counts from 1 March of year `y`. */
  function FromYearDay(y: int, doy: int): Date {
    var mp := (5 * doy + 2) / 153;
    var day := doy - (153 * mp + 2) / 5 + 1;
    var month := mp + if mp < 10 then 3 else -9;
    Date(y + (if month <= 2 then 1 else 0), month, day)
  }

  /** channel_ops: the era division truncates. */
  function CivilFromDays(days: int): Date {
    var z := days + 719468;
    var era := TruncDiv(if z >= 0 then z else z - 146096, 146097);
    FromEra(era, z - era * 146097)
  }

  /** api_user: the era division is Euclidean, after the same adjustment. */
  function CivilFromDaysEuclid(days: int): Date {
    var z := days + 719468;
    var era := (if z >= 0 then z else z - 146096) / 146097;
    FromEra(era, z - era * 146097)
  }

  // ------------------------------------------------- decomposition of an era

  /** A day of the 400-year era split into centuries, four-year groups, years
      and days; the last part of each level may be one day longer. */
  ghost predicate Split(doe: int, c: int, q: int, r: int, doy: int) {
    && 0 <= c <= 3 && 0 <= q <= 24 && 0 <= r <= 3 && 0 <= doy <= 365
    && doe == 36524 * c + 1461 * q + 365 * r + doy
    && (doy == 365 ==> r == 3 && (q == 24 ==> c == 3))
  }

  lemma SplitExists(doe: int) returns (c: int, q: int, r: int, doy: int)
    requires 0 <= doe < 146097
    ensures Split(doe, c, q, r, doy)
  {
    c := if doe / 36524 > 3 then 3 else doe / 36524;
    var e := doe - 36524 * c;
    q := if e / 1461 > 24 then 24 else e / 1461;
    var f := e - 1461 * q;
    r := if f / 365 > 3 then 3 else f / 365;
    doy := f - 365 * r;
  }

  lemma YearOfEraSplit(doe: int, c: int, q: int, r: int, doy: int)
    requires Split(doe, c, q, r, doy)
    ensures YearOfEra(doe) == 100 * c + 4 * q + r
  {
    var f := 365 * r + doy;
    var carry := 24 * c + q + f;
    assert doe == 1460 * (25 * c + q) + carry;
    assert doe / 1460 == 25 * c + q + (if carry >= 1460 then 1 else 0);
    var e := 1461 * q + f;
    assert doe / 36524 == c + (if e >= 36524 then 1 else 0);
    assert doe / 146096 == (if doe >= 146096 then 1 else 0);
  }

  /** The same formula one whole era too far: the year is still found. */
  lemma YearOfEraShifted(doe: int, c: int, q: int, r: int, doy: int)
    requires Split(doe, c, q, r, doy) && doe < 146096
    ensures YearOfEra(doe + 146097) == 400 + 100 * c + 4 * q + r
  {
    var f := 365 * r + doy;
    var carry := 97 + 24 * c + q + f;
    assert doe + 146097 == 1460 * (100 + 25 * c + q) + carry;
    assert (doe + 146097) / 1460 == 100 + 25 * c + q + (if carry >= 1460 then 1 else 0);
    var e := 1461 * q + f;
    assert doe + 146097 == 36524 * (4 + c) + e + 1;
    assert (doe + 146097) / 36524 == 4 + c + (if e + 1 >= 36524 then 1 else 0);
    assert (doe + 146097) / 146096 == 1 + (if doe >= 146095 then 1 else 0);
  }

  lemma LeapDays(yoe: int, c: int, q: int, r: int)
    requires yoe == 100 * c + 4 * q + r
    requires 0 <= c && 0 <= q <= 24 && 0 <= r <= 3
    ensures 365 * yoe + yoe / 4 - yoe / 100 == 36524 * c + 1461 * q + 365 * r
  {
    assert yoe / 4 == 25 * c + q;
    assert yoe / 100 == c;
  }

  // ------------------------------------------------ closed form of the count

  /** Days from 1 March of year 0 to 1 March of year `y`. */
  ghost function MarchDays(y: int): int {
    365 * y + y / 4 - y / 100 + y / 400
  }

  lemma MarchDaysStep(y: int)
    ensures MarchDays(y) == MarchDays(y - 1) + YearLength(y)
  {
    assert y / 4 - (y - 1) / 4 == if y % 4 == 0 then 1 else 0;
    assert y / 100 - (y - 1) / 100 == if y % 100 == 0 then 1 else 0;
    assert y / 400 - (y - 1) / 400 == if y % 400 == 0 then 1 else 0;
  }

  lemma {:induction false} YearClosedForm(y: int)
    ensures DaysBeforeYear(y) == MarchDays(y - 1) - 719468 + 306
    decreases if y >= 1970 then y - 1970 else 1970 - y
  {
    if y > 1970 {
      YearClosedForm(y - 1);
      MarchDaysStep(y - 1);
    } else if y < 1970 {
      YearClosedForm(y + 1);
      MarchDaysStep(y);
    }
  }

  lemma MonthTable(y: int)
    ensures DaysBeforeMonth(y, 1) == 0 && DaysBeforeMonth(y, 2) == 31
    ensures var feb := if Leap(y) then 60 else 59;
            && DaysBeforeMonth(y, 3) == feb && DaysBeforeMonth(y, 4) == feb + 31
            && DaysBeforeMonth(y, 5) == feb + 61 && DaysBeforeMonth(y, 6) == feb + 92
            && DaysBeforeMonth(y, 7) == feb + 122 && DaysBeforeMonth(y, 8) == feb + 153
            && DaysBeforeMonth(y, 9) == feb + 184 && DaysBeforeMonth(y, 10) == feb + 214
            && DaysBeforeMonth(y, 11) == feb + 245 && DaysBeforeMonth(y, 12) == feb + 275
  {
    assert DaysBeforeMonth(y, 3) == 31 + MonthLength(y, 2);
    assert DaysBeforeMonth(y, 6) == DaysBeforeMonth(y, 3) + 92;
    assert DaysBeforeMonth(y, 9) == DaysBeforeMonth(y, 6) + 92;
    assert DaysBeforeMonth(y, 12) == DaysBeforeMonth(y, 9) + 91;
  }

  /** The day of the March-based year on which its month `mp` starts. */
  ghost function MarchStart(mp: int): int {
    (153 * mp + 2) / 5
  }

  lemma MarchStarts()
    ensures MarchStart(0) == 0 && MarchStart(1) == 31 && MarchStart(2) == 61 && MarchStart(3) == 92
    ensures MarchStart(4) == 122 && MarchStart(5) == 153 && MarchStart(6) == 184 && MarchStart(7) == 214
    ensures MarchStart(8) == 245 && MarchStart(9) == 275 && MarchStart(10) == 306 && MarchStart(11) == 337
  {
  }

  lemma MarchMonth(doy: int)
    requires 0 <= doy <= 365
    ensures var mp := (5 * doy + 2) / 153;
            0 <= mp <= 11 && MarchStart(mp) <= doy && (mp < 11 ==> doy < MarchStart(mp + 1))
  {
  }

  /** From March to December the month lies in the year itself. */
  lemma EarlyMonths(y: int, mp: int, doy: int)
    requires 0 <= mp <= 9 && MarchStart(mp) <= doy < MarchStart(mp + 1)
    ensures ValidDate(Date(y, mp + 3, doy - MarchStart(mp) + 1))
    ensures DaysBeforeMonth(y, mp + 3) == (if Leap(y) then 60 else 59) + MarchStart(mp)
  {
    MarchStarts();
    MonthTable(y);
  }

  /** January and February lie in the next one. */
  lemma LateMonths(y: int, mp: int, doy: int)
    requires 10 <= mp <= 11 && MarchStart(mp) <= doy <= 365 && (mp < 11 ==> doy < MarchStart(11))
    requires doy == 365 ==> Leap(y + 1)
    ensures ValidDate(Date(y + 1, mp - 9, doy - MarchStart(mp) + 1))
    ensures DaysBeforeMonth(y + 1, mp - 9) == MarchStart(mp) - 306
  {
    MarchStarts();
    MonthTable(y + 1);
  }

  lemma FromYearDayCounts(y: int, doy: int)
    requires 0 <= doy <= 365 && (doy == 365 ==> Leap(y + 1))
    ensures ValidDate(FromYearDay(y, doy))
    ensures DayCount(FromYearDay(y, doy)) == MarchDays(y) - 719468 + doy
  {
    var mp := (5 * doy + 2) / 153;
    MarchMonth(doy);
    if mp < 10 {
      EarlyMonths(y, mp, doy);
      YearClosedForm(y);
      MarchDaysStep(y);
    } else {
      LateMonths(y, mp, doy);
      YearClosedForm(y + 1);
    }
  }

  /** A date lies in the span its year has in the count. */
  lemma YearBounds(d: Date)
    requires ValidDate(d)
    ensures MarchDays(d.year - 1) - 719162 <= DayCount(d) < MarchDays(d.year) - 719162
  {
    MonthTable(d.year);
    YearClosedForm(d.year);
    MarchDaysStep(d.year);
  }

  lemma {:induction false} MarchDaysGrow(a: int, b: int)
    requires a <= b
    ensures MarchDays(a) <= MarchDays(b)
    decreases b - a
  {
    if a < b {
      MarchDaysGrow(a, b - 1);
      MarchDaysStep(b);
    }
  }

  /** Every day of an era lands on the date its day count says. */
  lemma FromEraCounts(era: int, doe: int)
    requires 0 <= doe < 146097
    ensures ValidDate(FromEra(era, doe))
    ensures DayCount(FromEra(era, doe)) == 146097 * era + doe - 719468
  {
    var c, q, r, doy := SplitExists(doe);
    FromEraIs(era, doe, c, q, r, doy);
    SplitCounts(era, doe, c, q, r, doy);
    if doy == 365 { LeapAtGroupEnd(era, c, q); }
    FromYearDayCounts(100 * c + 4 * q + r + era * 400, doy);
  }

  /** The division formula finds the year and day of a split. */
  lemma FromEraIs(era: int, doe: int, c: int, q: int, r: int, doy: int)
    requires 0 <= doe < 146097 && Split(doe, c, q, r, doy)
    ensures FromEra(era, doe) == FromYearDay(100 * c + 4 * q + r + era * 400, doy)
  {
    var yoe := 100 * c + 4 * q + r;
    DayOfEra(doe, c, q, r, doy);
    assert yoe == YearOfEra(doe) && doe - (365 * yoe + yoe / 4 - yoe / 100) == doy;
  }

  lemma DayOfEra(doe: int, c: int, q: int, r: int, doy: int)
    requires Split(doe, c, q, r, doy)
    ensures var yoe := 100 * c + 4 * q + r;
            YearOfEra(doe) == yoe && doe - (365 * yoe + yoe / 4 - yoe / 100) == doy
  {
    YearOfEraSplit(doe, c, q, r, doy);
    LeapDays(100 * c + 4 * q + r, c, q, r);
  }

  lemma SplitCounts(era: int, doe: int, c: int, q: int, r: int, doy: int)
    requires 0 <= doe < 146097 && Split(doe, c, q, r, doy)
    ensures MarchDays(100 * c + 4 * q + r + era * 400) + doy == 146097 * era + doe
  {
    var yoe := 100 * c + 4 * q + r;
    LeapDays(yoe, c, q, r);
    assert 0 <= yoe < 400;
    MarchDaysEra(yoe, era);
  }

  lemma MarchDaysEra(yoe: int, era: int)
    requires 0 <= yoe < 400
    ensures MarchDays(yoe + era * 400) == 146097 * era + 365 * yoe + yoe / 4 - yoe / 100
  {
    assert (yoe + era * 400) / 4 == yoe / 4 + era * 100;
    assert (yoe + era * 400) / 100 == yoe / 100 + era * 4;
    assert (yoe + era * 400) / 400 == era;
  }

  lemma LeapAtGroupEnd(era: int, c: int, q: int)
    requires 0 <= c <= 3 && 0 <= q <= 24 && (q == 24 ==> c == 3)
    ensures Leap(100 * c + 4 * q + 3 + era * 400 + 1)
  {
    var y := 100 * c + 4 * (q + 1) + era * 400;
    assert y % 4 == 0 by { assert y == 4 * (25 * c + q + 1 + era * 100); }
    if q == 24 {
      assert y % 400 == 0 by { assert y == 400 * (era + 1); }
    } else {
      assert y % 100 == 4 * (q + 1) by { assert y == 100 * (c + era * 4) + 4 * (q + 1); }
    }
  }

  lemma EraOfDays(days: int)
    ensures var z := days + 719468;
            var era := TruncDiv(if z >= 0 then z else z - 146096, 146097);
            era == z / 146097 && z - era * 146097 == z % 146097
  {
  }

  // ------------------------------------------------------------- main results

  /** Every integer day becomes a valid date, the one that many days from
      1970-01-01. */
  lemma CivilCountsBack(days: int)
    ensures ValidDate(CivilFromDays(days))
    ensures DayCount(CivilFromDays(days)) == days
  {
    var z := days + 719468;
    EraOfDays(days);
    FromEraCounts(z / 146097, z % 146097);
  }

  ghost predicate Before(a: Date, b: Date) {
    || a.year < b.year
    || (a.year == b.year && a.month < b.month)
    || (a.year == b.year && a.month == b.month && a.day < b.day)
  }

  lemma {:induction false} YearsOrdered(a: int, b: int)
    requires a <= b
    ensures DaysBeforeYear(a) <= DaysBeforeYear(b)
    ensures a < b ==> DaysBeforeYear(a) + YearLength(a) <= DaysBeforeYear(b)
    decreases b - a
  {
    if a < b {
      YearsOrdered(a, b - 1);
      YearClosedForm(b);
      YearClosedForm(b - 1);
      MarchDaysStep(b - 1);
    }
  }

  /** The day count orders valid dates exactly as year, month, day do. */
  lemma CountOrder(a: Date, b: Date)
    requires ValidDate(a) && ValidDate(b)
    ensures DayCount(a) < DayCount(b) <==> Before(a, b)
    ensures DayCount(a) == DayCount(b) <==> a == b
  {
    if Before(a, b) { CountBefore(a, b); }
    if Before(b, a) { CountBefore(b, a); }
  }

  lemma CountBefore(a: Date, b: Date)
    requires ValidDate(a) && ValidDate(b) && Before(a, b)
    ensures DayCount(a) < DayCount(b)
  {
    MonthTable(a.year);
    MonthTable(b.year);
    if a.year < b.year {
      YearsOrdered(a.year, b.year);
      assert DaysBeforeMonth(a.year, a.month) + a.day <= YearLength(a.year);
    }
  }

  /** The conversion inverts the count on every valid date. */
  lemma CivilInvertsCount(d: Date)
    requires ValidDate(d)
    ensures CivilFromDays(DayCount(d)) == d
  {
    CivilCountsBack(DayCount(d));
    CountOrder(CivilFromDays(DayCount(d)), d);
  }

  lemma CountOfNext(d: Date)
    requires ValidDate(d)
    ensures ValidDate(Next(d)) && DayCount(Next(d)) == DayCount(d) + 1
  {
    MonthTable(d.year);
    if d.month == 12 {
      YearClosedForm(d.year);
      YearClosedForm(d.year + 1);
      MarchDaysStep(d.year);
    }
  }

  lemma CivilEpoch()
    ensures CivilFromDays(0) == Date(1970, 1, 1)
  {
  }

  /** Successive days are successive dates, for every integer day. */
  lemma CivilSuccessor(days: int)
    ensures ValidDate(CivilFromDays(days))
    ensures CivilFromDays(days + 1) == Next(CivilFromDays(days))
  {
    var d := CivilOf(days);
    SuccessorDate(d);
  }

  lemma CivilOf(days: int) returns (d: Date)
    ensures d == CivilFromDays(days) && ValidDate(d) && DayCount(d) == days
  {
    CivilCountsBack(days);
    d := CivilFromDays(days);
  }

  lemma SuccessorDate(d: Date)
    requires ValidDate(d)
    ensures CivilFromDays(DayCount(d) + 1) == Next(d)
  {
    CountOfNext(d);
    CivilInvertsCount(Next(d));
  }

  /** The Euclidean copy is right exactly from 1 March of year 0 on, and before
      that only on the last day of each era; on every other earlier day it
      reports a later date. */
  lemma EuclidCopyExact(days: int)
    ensures var z := days + 719468;
            if z >= 0 || z % 146097 == 146096 then CivilFromDaysEuclid(days) == CivilFromDays(days)
            else Before(CivilFromDays(days), CivilFromDaysEuclid(days))
  {
    var z := days + 719468;
    if z >= 0 || z % 146097 == 146096 { EuclidAgrees(days); } else { EuclidIsLater(days); }
  }

  lemma EuclidAgrees(days: int)
    requires days + 719468 >= 0 || (days + 719468) % 146097 == 146096
    ensures CivilFromDaysEuclid(days) == CivilFromDays(days)
  {
    EraOfDays(days);
    if days + 719468 < 0 { LastDayOfEra(days + 719468); }
  }

  lemma EuclidIsLater(days: int)
    requires days + 719468 < 0 && (days + 719468) % 146097 != 146096
    ensures Before(CivilFromDays(days), CivilFromDaysEuclid(days))
  {
    var era, doe := (days + 719468) / 146097, (days + 719468) % 146097;
    TruncatingIs(days, era, doe);
    EuclideanIs(days, era, doe);
    ShiftedIsLater(era, doe);
  }

  lemma TruncatingIs(days: int, era: int, doe: int)
    requires days + 719468 == era * 146097 + doe && 0 <= doe < 146097
    ensures CivilFromDays(days) == FromEra(era, doe)
  {
    var z := days + 719468;
    assert TruncDiv(if z >= 0 then z else z - 146096, 146097) == era by {
      EraOfDays(days);
      assert z / 146097 == era;
    }
  }

  lemma EuclideanIs(days: int, era: int, doe: int)
    requires days + 719468 == era * 146097 + doe && 0 <= doe < 146096 && days + 719468 < 0
    ensures CivilFromDaysEuclid(days) == FromEra(era - 1, doe + 146097)
  {
    assert days + 719468 - 146096 == (era - 1) * 146097 + (doe + 1);
    assert (days + 719468 - 146096) / 146097 == era - 1;
  }

  lemma LastDayOfEra(z: int)
    requires z % 146097 == 146096
    ensures (z - 146096) / 146097 == z / 146097
  {
    assert z - 146096 == z / 146097 * 146097;
  }

  /** Counting a day from the era before makes it the next day of its year. */
  lemma ShiftedIsLater(era: int, doe: int)
    requires 0 <= doe < 146096
    ensures Before(FromEra(era, doe), FromEra(era - 1, doe + 146097))
  {
    var c, q, r, doy := SplitExists(doe);
    var y := 100 * c + 4 * q + r + era * 400;
    FromEraIs(era, doe, c, q, r, doy);
    FromEraShifted(era, doe, c, q, r, doy);
    YearDaysOrdered(y, doy);
  }

  lemma FromEraShifted(era: int, doe: int, c: int, q: int, r: int, doy: int)
    requires 0 <= doe < 146096 && Split(doe, c, q, r, doy)
    ensures FromEra(era - 1, doe + 146097) == FromYearDay(100 * c + 4 * q + r + era * 400, doy + 1)
  {
    YearOfEraShifted(doe, c, q, r, doy);
    LeapDays(100 * c + 4 * q + r + 400, c + 4, q, r);
  }

  lemma YearDaysOrdered(y: int, doy: int)
    requires 0 <= doy <= 365
    ensures Before(FromYearDay(y, doy), FromYearDay(y, doy + 1))
  {
  }
}
