/**
 Calendar dates: the full-date form of section 5.6 of RFC 3339 with the month lengths of its
 section 5.7, day and month arithmetic as Go's time package promises it, and the order of dates
 as texts.
 */
module Calendar {
  import opened Wrappers
  import opened Text

  datatype Date = Date(year: int, month: int, day: int)

  predicate Leap(y: int) {
    y % 4 == 0 && (y % 100 != 0 || y % 400 == 0)
  }

  function DaysIn(y: int, m: int): (days: int)
    ensures 28 <= days <= 31
  {
    if m == 2 then if Leap(y) then 29 else 28
    else if m == 4 || m == 6 || m == 9 || m == 11 then 30 else 31
  }

  predicate Valid(d: Date) {
    1 <= d.month <= 12 && 1 <= d.day <= DaysIn(d.year, d.month)
  }

  predicate Before(a: Date, b: Date) {
    a.year < b.year || (a.year == b.year && (a.month < b.month || (a.month == b.month && a.day < b.day)))
  }

  // ---- days

  function NextDay(d: Date): (r: Date)
    requires Valid(d)
    ensures Valid(r) && Before(d, r)
  {
    if d.day < DaysIn(d.year, d.month) then d.(day := d.day + 1)
    else if d.month < 12 then Date(d.year, d.month + 1, 1)
    else Date(d.year + 1, 1, 1)
  }

  function PrevDay(d: Date): (r: Date)
    requires Valid(d)
    ensures Valid(r) && NextDay(r) == d
  {
    if d.day > 1 then d.(day := d.day - 1)
    else if d.month > 1 then Date(d.year, d.month - 1, DaysIn(d.year, d.month - 1))
    else Date(d.year - 1, 12, 31)
  }

  /** The date n days later, or -n days earlier. */
  function AddDays(d: Date, n: int): (r: Date)
    requires Valid(d)
    ensures Valid(r)
    ensures n > 0 ==> Before(d, r)
    decreases if n < 0 then -n else n
  {
    if n == 0 then d else if n > 0 then NextDay(AddDays(d, n - 1)) else PrevDay(AddDays(d, n + 1))
  }

  /** Days of the leap years before year y. */
  function LeapDays(y: int): int {
    (y - 1) / 4 - (y - 1) / 100 + (y - 1) / 400 + 1
  }

  /** Days of the months before month m. */
  function DaysBefore(y: int, m: int): int
    requires 1 <= m <= 12
  {
    [0, 31, 59, 90, 120, 151, 181, 212, 243, 273, 304, 334][m - 1] + if m > 2 && Leap(y) then 1 else 0
  }

  /** The number of a day, counted without gaps from the start of year 0. */
  function DayNumber(d: Date): int
    requires Valid(d)
  {
    365 * d.year + LeapDays(d.year) + DaysBefore(d.year, d.month) + d.day
  }

  lemma Quotient4(y: int)
    ensures y / 4 == (y - 1) / 4 + if y % 4 == 0 then 1 else 0
  {
  }

  lemma Quotient100(y: int)
    ensures y / 100 == (y - 1) / 100 + if y % 100 == 0 then 1 else 0
    ensures y % 100 == 0 ==> y % 4 == 0
  {
    if y % 100 == 0 { assert y == 4 * (25 * (y / 100)); }
  }

  lemma Quotient400(y: int)
    ensures y / 400 == (y - 1) / 400 + if y % 400 == 0 then 1 else 0
    ensures y % 400 == 0 ==> y % 100 == 0
  {
    if y % 400 == 0 { assert y == 100 * (4 * (y / 400)); }
  }

  lemma LeapDaysStep(y: int)
    ensures LeapDays(y + 1) == LeapDays(y) + if Leap(y) then 1 else 0
  {
    Quotient4(y);
    Quotient100(y);
    Quotient400(y);
  }

  /** The next day has the next number, across month ends and leap years. */
  lemma NextDayNumber(d: Date)
    requires Valid(d)
    ensures DayNumber(NextDay(d)) == DayNumber(d) + 1
  {
    if d.day == DaysIn(d.year, d.month) && d.month == 12 {
      LeapDaysStep(d.year);
    }
    hide LeapDays;
  }

  lemma {:induction false} AddDaysNumber(d: Date, n: nat)
    requires Valid(d)
    ensures DayNumber(AddDays(d, n)) == DayNumber(d) + n
  {
    if n > 0 {
      AddDaysNumber(d, n - 1);
      NextDayNumber(AddDays(d, n - 1));
    }
  }

  lemma {:induction false} AddDaysTwice(d: Date, m: nat, n: nat)
    requires Valid(d)
    ensures AddDays(AddDays(d, m), n) == AddDays(d, m + n)
  {
    if n > 0 { AddDaysTwice(d, m, n - 1); }
  }

  // ---- Go's time.Date and the month stepping of recurring payments

  /** time.Date: months outside 1 to 12 carry into the year, days outside the month into its neighbours. */
  function GoDate(y: int, m: int, d: int): (r: Date)
    ensures Valid(r)
  {
    AddDays(Date(y + (m - 1) / 12, (m - 1) % 12 + 1, 1), d - 1)
  }

  /** Time.AddDate. */
  function AddDate(d: Date, months: int, days: int): (r: Date)
    ensures Valid(r)
  {
    GoDate(d.year, d.month + months, d.day + days)
  }

  function Min(a: int, b: int): int {
    if a < b then a else b
  }

  /** addMonths. */
  function AddMonths(d: Date, months: int): (r: Date)
    ensures Valid(r)
  {
    var target := AddDate(GoDate(d.year, d.month, 1), months, 0);
    var lastDay := AddDate(target, 1, -1).day;
    GoDate(target.year, target.month, Min(d.day, lastDay))
  }

  /** Months counted from the start of year 0. */
  function MonthNumber(d: Date): int {
    12 * d.year + d.month - 1
  }

  lemma {:induction false} WithinMonth(y: int, m: int, n: nat)
    requires 1 <= m <= 12 && n < DaysIn(y, m)
    ensures AddDays(Date(y, m, 1), n) == Date(y, m, n + 1)
  {
    if n > 0 { WithinMonth(y, m, n - 1); }
  }

  lemma InMonth(y: int, m: int, d: int)
    requires 1 <= m <= 12 && 1 <= d <= DaysIn(y, m)
    ensures GoDate(y, m, d) == Date(y, m, d)
  {
    WithinMonth(y, m, d - 1);
  }

  /** Day zero of the following month is the last day of this one. */
  lemma LastDayOf(y: int, m: int)
    requires 1 <= m <= 12
    ensures GoDate(y, m + 1, 0) == Date(y, m, DaysIn(y, m))
  {
    var first := if m < 12 then Date(y, m + 1, 1) else Date(y + 1, 1, 1);
    assert GoDate(y, m + 1, 0) == AddDays(first, -1) == PrevDay(AddDays(first, 0));
  }

  /** The first of the month that many months on. */
  lemma FirstOfMonth(y: int, n: int)
    ensures var r := GoDate(y, n, 1);
            r.day == 1 && MonthNumber(r) == 12 * y + n - 1
  {
    assert n - 1 == 12 * ((n - 1) / 12) + (n - 1) % 12;
  }

  /** Month steps land in the month that many months on, on the same day or that month's last. */
  lemma AddMonthsClamps(d: Date, months: int)
    requires Valid(d)
    ensures var r := AddMonths(d, months);
            MonthNumber(r) == MonthNumber(d) + months && r.day == Min(d.day, DaysIn(r.year, r.month))
  {
    hide AddDays;
    hide GoDate;
    hide DaysIn;
    hide Leap;
    FirstOfMonth(d.year, d.month + months);
    InMonth(d.year, d.month, 1);
    var target := GoDate(d.year, d.month + months, 1);
    LastDayOf(target.year, target.month);
    InMonth(target.year, target.month, Min(d.day, DaysIn(target.year, target.month)));
  }

  lemma MonthOrder(a: Date, b: Date)
    requires Valid(a) && Valid(b) && MonthNumber(a) < MonthNumber(b)
    ensures Before(a, b)
  {
  }

  lemma MonthUnique(a: Date, b: Date)
    requires Valid(a) && Valid(b) && MonthNumber(a) == MonthNumber(b)
    ensures a.year == b.year && a.month == b.month
  {
  }

  // ---- dates as texts

  /** n with at least w decimal digits. */
  function Pad(n: nat, w: nat): (s: string)
    ensures AllDigits(s) && DigitsValue(s) == n
  {
    if w == 0 then if n == 0 then "" else Decimal(n)
    else
      var front := Pad(n / 10, w - 1);
      var s := front + [DigitChar(n % 10)];
      assert s[..|s| - 1] == front;
      s
  }

  function Pow10(w: nat): nat {
    if w == 0 then 1 else 10 * Pow10(w - 1)
  }

  lemma Powers()
    ensures Pow10(2) == 100 && Pow10(4) == 10_000
  {
    assert Pow10(2) == 10 * Pow10(1) && Pow10(1) == 10;
    assert Pow10(4) == 10 * Pow10(3) && Pow10(3) == 10 * Pow10(2);
  }

  lemma {:induction false} PadLength(n: nat, w: nat)
    requires n < Pow10(w)
    ensures |Pad(n, w)| == w
  {
    if w > 0 { PadLength(n / 10, w - 1); }
  }

  /** Format("2006-01-02"); years past 9999 take more digits. */
  function FormatDate(d: Date): string
    requires Valid(d) && d.year >= 0
  {
    Dash(Pad(d.year, 4), Dash(Pad(d.month, 2), Pad(d.day, 2)))
  }

  function Dash(x: string, rest: string): string {
    x + ("-" + rest)
  }

  /** Parse("2006-01-02"): four, two and two digits, naming a day that exists. */
  function ParseDate(s: string): (r: Option<Date>)
    ensures r.Some? ==> Valid(r.value) && 0 <= r.value.year <= 9999
  {
    if |s| != 10 || s[4] != '-' || s[7] != '-' || !AllDigits(s[..4]) || !AllDigits(s[5..7]) || !AllDigits(s[8..])
    then None
    else
      FourDigits(s[..4]);
      var d := Date(DigitsValue(s[..4]), DigitsValue(s[5..7]), DigitsValue(s[8..]));
      if Valid(d) then Some(d) else None
  }

  lemma {:induction false} DigitsBound(s: string)
    requires AllDigits(s)
    ensures DigitsValue(s) < Pow10(|s|)
  {
    if s != "" { DigitsBound(s[..|s| - 1]); }
  }

  lemma FourDigits(s: string)
    requires AllDigits(s) && |s| == 4
    ensures DigitsValue(s) <= 9999
  {
    DigitsBound(s);
    Powers();
  }

  lemma {:induction false} PadInverse(s: string)
    requires AllDigits(s)
    ensures Pad(DigitsValue(s), |s|) == s
  {
    if s != "" {
      var front, last := s[..|s| - 1], DigitValue(s[|s| - 1]);
      PadInverse(front);
      assert DigitsValue(s) / 10 == DigitsValue(front) && DigitsValue(s) % 10 == last;
      assert s == front + [s[|s| - 1]];
    }
  }

  lemma DateLengths(d: Date)
    requires Valid(d) && 0 <= d.year <= 9999
    ensures |Pad(d.year, 4)| == 4 && |Pad(d.month, 2)| == 2 && |Pad(d.day, 2)| == 2
  {
    hide Pad;
    Powers();
    hide Pow10;
    PadLength(d.year, 4);
    PadLength(d.month, 2);
    PadLength(d.day, 2);
  }

  lemma Slices(y: string, m: string, d: string)
    requires |y| == 4 && |m| == 2 && |d| == 2
    ensures var s := Dash(y, Dash(m, d));
            |s| == 10 && s[4] == '-' && s[7] == '-' && s[..4] == y && s[5..7] == m && s[8..] == d
  {
  }

  /** Formatting and parsing are inverse on the dates RFC 3339 can write. */
  lemma ParseFormat(d: Date)
    requires Valid(d) && 0 <= d.year <= 9999
    ensures ParseDate(FormatDate(d)) == Some(d)
  {
    DateLengths(d);
    hide DigitsValue;
    hide AllDigits;
    hide Pow10;
    var y, m, n := Pad(d.year, 4), Pad(d.month, 2), Pad(d.day, 2);
    hide Pad;
    hide Dash;
    Slices(y, m, n);
  }

  lemma FormatParse(s: string)
    requires ParseDate(s).Some?
    ensures FormatDate(ParseDate(s).value) == s
  {
    PadInverse(s[..4]);
    PadInverse(s[5..7]);
    PadInverse(s[8..]);
    assert s == Dash(s[..4], Dash(s[5..7], s[8..]));
  }

  lemma {:induction false} PadOrder(a: nat, b: nat, w: nat)
    requires a < Pow10(w) && b < Pow10(w)
    ensures LexLess(Pad(a, w), Pad(b, w)) <==> a < b
    ensures a == b <==> Pad(a, w) == Pad(b, w)
  {
    hide LexLess;
    hide DigitsValue;
    hide AllDigits;
    hide DigitChar;
    if w > 0 {
      PadOrder(a / 10, b / 10, w - 1);
      PadLength(a / 10, w - 1);
      PadLength(b / 10, w - 1);
      LastDigitOrder(Pad(a / 10, w - 1), a % 10, Pad(b / 10, w - 1), b % 10);
      hide Pow10;
    } else {
      LexIrreflexive("");
    }
  }

  lemma LastDigitOrder(x: string, m: nat, y: string, n: nat)
    requires |x| == |y| && m < 10 && n < 10
    ensures LexLess(x + [DigitChar(m)], y + [DigitChar(n)]) <==> if x == y then m < n else LexLess(x, y)
    ensures x + [DigitChar(m)] == y + [DigitChar(n)] <==> x == y && m == n
  {
    var c, d := [DigitChar(m)], [DigitChar(n)];
    assert c[1..] == "" && d[1..] == "";
    assert LexLess(c, d) <==> m < n;
    assert (x + c)[..|x|] == x && (y + d)[..|y|] == y;
    assert (x + c)[|x|] == DigitChar(m) && (y + d)[|y|] == DigitChar(n);
    hide LexLess;
    hide DigitChar;
    if x == y {
      LexAppend(x, c, d);
    } else {
      LexFront(x, y, c, d);
    }
  }

  /** Texts joined by a dash compare by their fronts, then by their rests. */
  lemma DashOrder(x: string, r: string, x': string, r': string)
    requires |x| == |x'|
    ensures LexLess(Dash(x, r), Dash(x', r')) <==> if x != x' then LexLess(x, x') else LexLess(r, r')
  {
    hide LexLess;
    if x != x' {
      LexFront(x, x', "-" + r, "-" + r');
    } else {
      LexAppend(x, "-" + r, "-" + r');
      LexAppend("-", r, r');
    }
  }

  /** Dates of four-digit years are ordered as their texts are. */
  lemma TextOrder(a: Date, b: Date)
    requires Valid(a) && Valid(b) && 0 <= a.year <= 9999 && 0 <= b.year <= 9999
    ensures LexLess(FormatDate(a), FormatDate(b)) <==> Before(a, b)
    ensures FormatDate(a) == FormatDate(b) <==> a == b
  {
    hide Pad;
    DateLengths(a);
    DateLengths(b);
    Powers();
    hide Pow10;
    PadOrder(a.year, b.year, 4);
    PadOrder(a.month, b.month, 2);
    PadOrder(a.day, b.day, 2);
    ParseFormat(a);
    ParseFormat(b);
    hide ParseDate;
    hide LexLess;
    hide Dash;
    DashOrder(Pad(a.year, 4), Dash(Pad(a.month, 2), Pad(a.day, 2)),
              Pad(b.year, 4), Dash(Pad(b.month, 2), Pad(b.day, 2)));
    DashOrder(Pad(a.month, 2), Pad(a.day, 2), Pad(b.month, 2), Pad(b.day, 2));
  }

  /** The month lengths of section 5.7 of RFC 3339. */
  lemma MonthLengths(y: int)
    ensures DaysIn(y, 1) == 31 && DaysIn(y, 3) == 31 && DaysIn(y, 4) == 30 && DaysIn(y, 5) == 31 && DaysIn(y, 6) == 30
    ensures DaysIn(y, 7) == 31 && DaysIn(y, 8) == 31 && DaysIn(y, 9) == 30 && DaysIn(y, 10) == 31
    ensures DaysIn(y, 11) == 30 && DaysIn(y, 12) == 31
    ensures DaysIn(y, 2) == if y % 4 == 0 && (y % 100 != 0 || y % 400 == 0) then 29 else 28
  {
  }

  /** The full-date form of section 5.6 of RFC 3339: year, month and day as digits with dashes between. */
  lemma FullDateForm(d: Date)
    requires Valid(d) && 0 <= d.year <= 9999
    ensures var s := FormatDate(d);
            && |s| == 10 && s[4] == '-' && s[7] == '-'
            && AllDigits(s[..4]) && DigitsValue(s[..4]) == d.year
            && AllDigits(s[5..7]) && DigitsValue(s[5..7]) == d.month
            && AllDigits(s[8..]) && DigitsValue(s[8..]) == d.day
  {
    DateLengths(d);
    hide DigitsValue;
    hide AllDigits;
    var y, m, n := Pad(d.year, 4), Pad(d.month, 2), Pad(d.day, 2);
    hide Pad;
    Slices(y, m, n);
  }
}
