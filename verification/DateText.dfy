/** The `YYYY-MM-DD` printer and the order of the strings it prints (the
    full-date of section 5.6 of RFC 3339). */
module DateText {
  import opened Text
  import opened Calendar

  function Decimal(n: nat): string {
    if n < 10 then [Digit(n)] else Decimal(n / 10) + [Digit(n % 10)]
  }

  function Zeros(k: nat): string {
    if k == 0 then "" else "0" + Zeros(k - 1)
  }

  function PadZeros(s: string, width: nat): string {
    if |s| < width then Zeros(width - |s|) + s else s
  }

  /** `{n:0width$}`: a minus sign counts toward the width. */
  function Padded(n: int, width: nat): string {
    if n >= 0 then PadZeros(Decimal(n), width)
    else "-" + PadZeros(Decimal(-n), if width == 0 then 0 else width - 1)
  }

  function MonthText(year: int, month: int): string {
    Padded(year, 4) + "-" + Padded(month, 2)
  }

  function Text3(year: int, month: int, day: int): string {
    MonthText(year, month) + "-" + Padded(day, 2)
  }

  /** api_user: `date_from_unix_days`. */
  function DateFromUnixDays(days: int): string {
    var d := CivilFromDaysEuclid(days);
    Text3(d.year, d.month, d.day)
  }

  // ----------------------------------------------------- fixed-width numerals

  ghost function Pow10(w: nat): nat {
    if w == 0 then 1 else 10 * Pow10(w - 1)
  }

  /** The `w` low decimal digits of `n`. */
  function Fixed(n: nat, w: nat): (s: string)
    ensures |s| == w
  {
    if w == 0 then "" else Fixed(n / 10, w - 1) + [Digit(n % 10)]
  }

  lemma {:induction false} FixedZero(w: nat)
    ensures Fixed(0, w) == Zeros(w) && |Zeros(w)| == w
  {
    if w > 0 {
      FixedZero(w - 1);
      ZerosEnd(w - 1);
    }
  }

  lemma {:induction false} ZerosEnd(k: nat)
    ensures Zeros(k) + "0" == "0" + Zeros(k)
  {
    if k > 0 {
      ZerosEnd(k - 1);
      assert Zeros(k) + "0" == "0" + (Zeros(k - 1) + "0");
    }
  }

  /** Padding a number that fits prints exactly its fixed-width digits. */
  lemma {:induction false} PaddedFits(n: nat, w: nat)
    requires w > 0 && n < Pow10(w)
    ensures |Decimal(n)| <= w
    ensures Padded(n, w) == Fixed(n, w)
    decreases w
  {
    if n < 10 {
      FixedZero(w - 1);
    } else {
      PaddedFits(n / 10, w - 1);
      var k := w - 1 - |Decimal(n / 10)|;
      assert Zeros(k) + Decimal(n) == (Zeros(k) + Decimal(n / 10)) + [Digit(n % 10)];
      assert k == 0 ==> Zeros(k) + Decimal(n / 10) == Decimal(n / 10);
      assert k == 0 ==> Zeros(k) + Decimal(n) == Decimal(n);
    }
  }

  lemma {:induction false} FixedOrder(a: nat, b: nat, w: nat)
    requires a < b < Pow10(w)
    ensures Less(Fixed(a, w), Fixed(b, w))
    decreases w
  {
    var da, db := [Digit(a % 10)], [Digit(b % 10)];
    if a / 10 < b / 10 {
      FixedOrder(a / 10, b / 10, w - 1);
      LessExtend(Fixed(a / 10, w - 1), Fixed(b / 10, w - 1), da, db);
    } else {
      LessPrefix(Fixed(a / 10, w - 1), da, db);
    }
  }

  // ------------------------------------------------------------ order of dates

  predicate Printable(d: Date) {
    0 <= d.year <= 9999 && 0 <= d.month <= 99 && 0 <= d.day <= 99
  }

  function TextOf(d: Date): string {
    Text3(d.year, d.month, d.day)
  }

  lemma TextFixed(d: Date)
    requires Printable(d)
    ensures TextOf(d) == Fixed(d.year, 4) + ("-" + (Fixed(d.month, 2) + ("-" + Fixed(d.day, 2))))
  {
    assert Pow10(2) == 100;
    assert Pow10(4) == 10000;
    PaddedFits(d.year, 4);
    PaddedFits(d.month, 2);
    PaddedFits(d.day, 2);
  }

  lemma TextBefore(a: Date, b: Date)
    requires Printable(a) && Printable(b) && Before(a, b)
    ensures Less(TextOf(a), TextOf(b))
  {
    TextFixed(a);
    TextFixed(b);
    assert Pow10(2) == 100;
    assert Pow10(4) == 10000;
    var da, db := Fixed(a.day, 2), Fixed(b.day, 2);
    var ma, mb := Fixed(a.month, 2), Fixed(b.month, 2);
    var ta, tb := ma + ("-" + da), mb + ("-" + db);
    if a.year < b.year {
      FixedOrder(a.year, b.year, 4);
      LessExtend(Fixed(a.year, 4), Fixed(b.year, 4), "-" + ta, "-" + tb);
    } else {
      if a.month < b.month {
        FixedOrder(a.month, b.month, 2);
        LessExtend(ma, mb, "-" + da, "-" + db);
      } else {
        FixedOrder(a.day, b.day, 2);
        LessPrefix("-", da, db);
        LessPrefix(ma, "-" + da, "-" + db);
      }
      LessPrefix("-", ta, tb);
      LessPrefix(Fixed(a.year, 4), "-" + ta, "-" + tb);
    }
  }

  /** On four-digit years the printed strings order as the dates do, and
      different dates print differently. */
  lemma TextOrder(a: Date, b: Date)
    requires Printable(a) && Printable(b)
    ensures Less(TextOf(a), TextOf(b)) <==> Before(a, b)
    ensures TextOf(a) == TextOf(b) <==> a == b
  {
    LessTotal(TextOf(a), TextOf(b));
    if Before(a, b) { TextBefore(a, b); }
    if Before(b, a) { TextBefore(b, a); }
  }

  /** The days whose year has at most four digits: 0000-03-01 is the first day
      the Euclidean copy converts in full, 9999-12-31 the last four-digit one. */
  predicate FourDigitDay(days: int) {
    -719468 <= days <= 2932896
  }

  /** A count in the range means a year of four digits. */
  lemma FourDigitYear(d: Date)
    requires ValidDate(d) && FourDigitDay(DayCount(d))
    ensures 0 <= d.year <= 9999
  {
    YearBounds(d);
    if d.year < 0 { MarchDaysGrow(d.year, -1); }
    if d.year > 9999 { MarchDaysGrow(9999, d.year - 1); }
  }

  /** Told by the date: from 0000-03-01 to 9999-12-31. */
  lemma FourDigitExact(d: Date)
    requires ValidDate(d)
    ensures FourDigitDay(DayCount(d)) <==> d.year <= 9999 && (d.year > 0 || (d.year == 0 && d.month >= 3))
  {
    YearBounds(d);
    if d.year < 0 { MarchDaysGrow(d.year, -1); }
    if d.year > 0 { MarchDaysGrow(0, d.year - 1); }
    if d.year > 9999 { MarchDaysGrow(9999, d.year - 1); } else { MarchDaysGrow(d.year, 9999); }
    if d.year == 0 { YearZero(d); }
  }

  lemma YearZero(d: Date)
    requires ValidDate(d) && d.year == 0
    ensures DayCount(d) >= -719468 <==> d.month >= 3
  {
    YearClosedForm(d.year);
    assert DaysBeforeYear(d.year) == -719528;
    MonthTable(d.year);
  }

  lemma DayIsPrintable(days: int) returns (d: Date)
    requires FourDigitDay(days)
    ensures d == CivilFromDays(days) && ValidDate(d) && DayCount(d) == days && Printable(d)
    ensures DateFromUnixDays(days) == TextOf(d)
  {
    d := CivilOf(days);
    FourDigitYear(d);
    EuclidCopyExact(days);
  }

  /** Printed days order exactly as the day numbers do. */
  lemma DayTextOrder(a: int, b: int)
    requires FourDigitDay(a) && FourDigitDay(b)
    ensures Less(DateFromUnixDays(a), DateFromUnixDays(b)) <==> a < b
    ensures DateFromUnixDays(a) == DateFromUnixDays(b) <==> a == b
  {
    var da := DayIsPrintable(a);
    var db := DayIsPrintable(b);
    TextOrder(da, db);
    CountOrder(da, db);
  }

  // ------------------------------------------------------------- month filter

  /** checkin: `date >= "{month}-01" && date <= "{month}-31"`. */
  predicate InMonthText(date: string, month: string) {
    LessEq(month + "-01", date) && LessEq(date, month + "-31")
  }

  lemma TwoDigits()
    ensures Padded(1, 2) == "01" && Padded(31, 2) == "31"
  {
    assert Decimal(31) == Decimal(3) + "1";
    assert Zeros(1) == "0";
  }

  /** Comparing strings selects exactly the days of the month, including in the
      months that have no 31st. */
  lemma MonthFilterExact(days: int, year: int, month: int)
    requires FourDigitDay(days) && 0 <= year <= 9999 && 1 <= month <= 12
    ensures InMonthText(DateFromUnixDays(days), MonthText(year, month))
            <==> var first := DayCount(Date(year, month, 1));
                 first <= days < first + MonthLength(year, month)
  {
    var d := DayIsPrintable(days);
    MonthOfText(d, year, month);
    MonthOfCount(d, year, month);
  }

  lemma MonthOfText(d: Date, year: int, month: int)
    requires Printable(d) && ValidDate(d) && 0 <= year <= 9999 && 1 <= month <= 12
    ensures InMonthText(TextOf(d), MonthText(year, month)) <==> d.year == year && d.month == month
  {
    TwoDigits();
    assert TextOf(Date(year, month, 1)) == MonthText(year, month) + "-01";
    assert TextOf(Date(year, month, 31)) == MonthText(year, month) + "-31";
    TextOrder(Date(year, month, 1), d);
    TextOrder(d, Date(year, month, 31));
  }

  lemma MonthOfCount(d: Date, year: int, month: int)
    requires ValidDate(d) && 1 <= month <= 12
    ensures var first := DayCount(Date(year, month, 1));
            d.year == year && d.month == month
            <==> first <= DayCount(d) < first + MonthLength(year, month)
  {
    CountOrder(Date(year, month, 1), d);
    CountOrder(d, Date(year, month, MonthLength(year, month)));
    CountOrder(Date(year, month, MonthLength(year, month)), d);
  }
}
