/** Calendar dates as pandas handles them: a proleptic Gregorian
    `(year, month, day)` triple, its day number (what comparing two
    midnight timestamps and adding a `Timedelta(days=k)` work on), the
    `strftime("%d/%m/%Y")` text form, and the `split("/")` the dashboard
    applies to that text. */
module Calendar {
  import opened Seqs

  datatype Date = Date(year: int, month: int, day: int)

  predicate IsLeapYear(y: int)
  {
    y % 4 == 0 && (y % 100 != 0 || y % 400 == 0)
  }

  function DaysInMonth(y: int, m: int): int
    requires 1 <= m <= 12
  {
    if m == 2 then (if IsLeapYear(y) then 29 else 28)
    else if m == 4 || m == 6 || m == 9 || m == 11 then 30
    else 31
  }

  /** `a` is strictly earlier than `b` in calendar order. */
  predicate Before(a: Date, b: Date)
  {
    a.year < b.year
    || (a.year == b.year && a.month < b.month)
    || (a.year == b.year && a.month == b.month && a.day < b.day)
  }

  /** A real calendar date whose midnight a pandas `Timestamp` can hold:
      1677-09-22 through 2262-04-11 (`Timestamp.min` falls just after midnight
      on 1677-09-21); `to_datetime` rejects anything else. */
  predicate Supported(d: Date)
  {
    && 1 <= d.month <= 12
    && 1 <= d.day <= DaysInMonth(d.year, d.month)
    && !Before(d, Date(1677, 9, 22))
    && !Before(Date(2262, 4, 11), d)
  }

  /** Days since 1970-01-01. */
  type Day = int

  /** Days in the years 1 .. y-1. */
  function DaysBeforeYear(y: int): int
  {
    365 * (y - 1) + (y - 1) / 4 - (y - 1) / 100 + (y - 1) / 400
  }

  /** Days in the months 1 .. m-1 of year `y`. */
  function DaysBeforeMonth(y: int, m: int): (r: int)
    requires 1 <= m <= 12
    ensures r >= 0
    decreases m
  {
    if m == 1 then 0 else DaysBeforeMonth(y, m - 1) + DaysInMonth(y, m - 1)
  }

  /** 0001-01-01 is day -719162 counted from 1970-01-01. */
  const EpochOffset := 719162

  function DayNumber(d: Date): Day
    requires 1 <= d.month <= 12
  {
    DaysBeforeYear(d.year) + DaysBeforeMonth(d.year, d.month) + d.day - 1 - EpochOffset
  }

  lemma DivStep(x: int, k: int)
    requires k == 4 || k == 100 || k == 400
    ensures (x + 1) / k == x / k + (if (x + 1) % k == 0 then 1 else 0)
  {
  }

  /** Every fourth century year is a century year, and every century year a fourth year. */
  lemma ModChain(y: int)
    ensures y % 400 == 0 ==> y % 100 == 0
    ensures y % 100 == 0 ==> y % 4 == 0
  {
    if y % 400 == 0 {
      var q := y / 400;
      assert y == 400 * q;
      assert y / 100 == 4 * q;
    }
    if y % 100 == 0 {
      var q := y / 100;
      assert y == 100 * q;
      assert y / 4 == 25 * q;
    }
  }

  lemma DaysBeforeYearStep(y: int)
    requires y >= 1
    ensures DaysBeforeYear(y + 1) == DaysBeforeYear(y) + (if IsLeapYear(y) then 366 else 365)
  {
    DivStep(y - 1, 4);
    DivStep(y - 1, 100);
    DivStep(y - 1, 400);
    ModChain(y);
    var a, b, c := y % 4 == 0, y % 100 == 0, y % 400 == 0;
    assert IsLeapYear(y) == (a && (!b || c));
    assert DaysBeforeYear(y + 1) - DaysBeforeYear(y)
      == 365 + (if a then 1 else 0) - (if b then 1 else 0) + (if c then 1 else 0);
  }

  lemma {:induction false} DaysBeforeMonthBound(y: int, m: int)
    requires 1 <= m <= 12
    ensures DaysBeforeMonth(y, m) + DaysInMonth(y, m) <= (if IsLeapYear(y) then 366 else 365)
  {
    if m > 1 {
      DaysBeforeMonthBound(y, m - 1);
    }
  }

  lemma {:induction false} DaysBeforeMonthMono(y: int, m1: int, m2: int)
    requires 1 <= m1 < m2 <= 12
    ensures DaysBeforeMonth(y, m1) + DaysInMonth(y, m1) <= DaysBeforeMonth(y, m2)
  {
    if m1 < m2 - 1 {
      DaysBeforeMonthMono(y, m1, m2 - 1);
    }
  }

  lemma {:induction false} DaysBeforeYearMono(y1: int, y2: int)
    requires 1 <= y1 < y2
    ensures DaysBeforeYear(y1) + (if IsLeapYear(y1) then 366 else 365) <= DaysBeforeYear(y2)
    decreases y2 - y1
  {
    DaysBeforeYearStep(y1);
    if y1 < y2 - 1 {
      DaysBeforeYearMono(y1 + 1, y2);
    }
  }

  /** Day numbers are strictly increasing in calendar order, so comparing
      day numbers is comparing the dates (and equal day numbers mean the
      same date). */
  lemma DayNumberIncreasing(a: Date, b: Date)
    requires Supported(a) && Supported(b) && Before(a, b)
    ensures DayNumber(a) < DayNumber(b)
  {
    if a.year < b.year {
      EarlierYear(a, b);
    } else if a.month < b.month {
      DaysBeforeMonthMono(a.year, a.month, b.month);
    }
  }

  lemma EarlierYear(a: Date, b: Date)
    requires 1 <= a.year < b.year
    requires 1 <= a.month <= 12 && 1 <= b.month <= 12
    requires a.day <= DaysInMonth(a.year, a.month) && 1 <= b.day
    ensures DayNumber(a) < DayNumber(b)
  {
    DaysBeforeMonthBound(a.year, a.month);
    DaysBeforeYearMono(a.year, b.year);
    var ya, ma, yb, mb := DaysBeforeYear(a.year), DaysBeforeMonth(a.year, a.month), DaysBeforeYear(b.year), DaysBeforeMonth(b.year, b.month);
    assert ya + ma + a.day <= yb && mb >= 0;
  }

  lemma DayNumberOrder(a: Date, b: Date)
    requires Supported(a) && Supported(b)
    ensures Before(a, b) <==> DayNumber(a) < DayNumber(b)
    ensures a == b <==> DayNumber(a) == DayNumber(b)
  {
    if Before(a, b) {
      DayNumberIncreasing(a, b);
    } else if Before(b, a) {
      DayNumberIncreasing(b, a);
    }
  }

  // ---------------------------------------------------------------------
  // strftime("%d/%m/%Y")

  predicate IsDigit(c: char)
  {
    '0' as int <= c as int <= '9' as int
  }

  function Digit(n: int): (c: char)
    requires 0 <= n <= 9
    ensures IsDigit(c) && (c as int) - ('0' as int) == n
  {
    (('0' as int) + n) as char
  }

  /** A number below 100 written with two digits, zero-padded (`%d`, `%m`). */
  function Pad2(n: int): string
    requires 0 <= n < 100
  {
    [Digit(n / 10), Digit(n % 10)]
  }

  /** A number below 10000 written with four digits (`%Y`). */
  function Pad4(n: int): string
    requires 0 <= n < 10000
  {
    [Digit(n / 1000), Digit(n / 100 % 10), Digit(n / 10 % 10), Digit(n % 10)]
  }

  /** The text pandas writes for `d` with format `%d/%m/%Y`. */
  function FormatDate(d: Date): (r: string)
    requires Supported(d)
    ensures |r| == 10 && r[2] == '/' && r[5] == '/'
    ensures forall i :: 0 <= i < 10 && i != 2 && i != 5 ==> IsDigit(r[i])
  {
    Pad2(d.day) + "/" + Pad2(d.month) + "/" + Pad4(d.year)
  }

  // ---------------------------------------------------------------------
  // Reading the text back

  /** The fields of `s` between occurrences of `sep`, as JavaScript's `split` returns them. */
  function Split(s: string, sep: char): (r: seq<string>)
    ensures |r| >= 1
  {
    if s == [] then [[]]
    else if s[0] == sep then [[]] + Split(s[1..], sep)
    else var t := Split(s[1..], sep); [[s[0]] + t[0]] + t[1..]
  }

  /** The value of a string of decimal digits. */
  function DecimalValue(s: string): nat
    requires forall i :: 0 <= i < |s| ==> IsDigit(s[i])
  {
    if s == [] then 0
    else 10 * DecimalValue(s[..|s| - 1]) + DigitValue(s[|s| - 1])
  }

  function DigitValue(c: char): (n: nat)
    requires IsDigit(c)
    ensures n <= 9
  {
    (c as int) - ('0' as int)
  }

  lemma {:induction false} SplitNoSeparator(s: string, sep: char)
    requires sep !in s
    ensures Split(s, sep) == [s]
  {
    if s != [] {
      SplitNoSeparator(s[1..], sep);
      assert [s[0]] + s[1..] == s;
    }
  }

  /** Splitting at the first separator peels off the text before it. */
  lemma {:induction false} SplitFirst(a: string, sep: char, b: string)
    requires sep !in a
    ensures Split(a + [sep] + b, sep) == [a] + Split(b, sep)
  {
    if a == [] {
      assert a + [sep] + b == [sep] + b;
    } else {
      SplitFirst(a[1..], sep, b);
      assert (a + [sep] + b)[1..] == a[1..] + [sep] + b;
      assert (a + [sep] + b)[0] == a[0] != sep;
      assert [a[0]] + a[1..] == a;
    }
  }

  lemma Pad2Value(n: int)
    requires 0 <= n < 100
    ensures DecimalValue(Pad2(n)) == n
  {
    var s := Pad2(n);
    assert s[..1] == [Digit(n / 10)];
    assert s[..1][..0] == [];
    assert DecimalValue(s[..1]) == n / 10;
    assert DecimalValue(s) == 10 * (n / 10) + n % 10;
  }

  lemma DecimalValueSnoc(s: string, c: char)
    requires forall i :: 0 <= i < |s| ==> IsDigit(s[i])
    requires IsDigit(c)
    ensures DecimalValue(s + [c]) == 10 * DecimalValue(s) + DigitValue(c)
  {
    assert (s + [c])[..|s|] == s;
  }

  lemma Pad4Value(n: int)
    requires 0 <= n < 10000
    ensures DecimalValue(Pad4(n)) == n
  {
    var d1, d2, d3, d4 := Digit(n / 1000), Digit(n / 100 % 10), Digit(n / 10 % 10), Digit(n % 10);
    DecimalValueSnoc([], d1);
    assert [] + [d1] == [d1];
    DecimalValueSnoc([d1], d2);
    assert [d1] + [d2] == [d1, d2];
    DecimalValueSnoc([d1, d2], d3);
    assert [d1, d2] + [d3] == [d1, d2, d3];
    DecimalValueSnoc([d1, d2, d3], d4);
    assert [d1, d2, d3] + [d4] == Pad4(n);
    DivTen(n);
    LastDigit(n / 100);
    LastDigit(n / 10);
    LastDigit(n);
  }

  lemma DivTen(n: int)
    requires n >= 0
    ensures n / 1000 == n / 100 / 10 && n / 100 == n / 10 / 10
  {
  }

  lemma LastDigit(m: int)
    ensures 10 * (m / 10) + m % 10 == m
  {
  }

  /** Splitting a formatted date on `/` yields exactly three fields: the
      day, the month and the year, each of which reads back as its number. */
  lemma SplitFormatted(d: Date)
    requires Supported(d)
    ensures Split(FormatDate(d), '/') == [Pad2(d.day), Pad2(d.month), Pad4(d.year)]
    ensures DecimalValue(Split(FormatDate(d), '/')[0]) == d.day
    ensures DecimalValue(Split(FormatDate(d), '/')[1]) == d.month
    ensures DecimalValue(Split(FormatDate(d), '/')[2]) == d.year
  {
    var dd, mm, yyyy := Pad2(d.day), Pad2(d.month), Pad4(d.year);
    assert FormatDate(d) == dd + ['/'] + (mm + ['/'] + yyyy);
    SplitFirst(dd, '/', mm + ['/'] + yyyy);
    SplitFirst(mm, '/', yyyy);
    SplitNoSeparator(yyyy, '/');
    Pad2Value(d.day);
    Pad2Value(d.month);
    Pad4Value(d.year);
  }

  /** Reads a `dd/mm/yyyy` text back into a date. */
  function ParseDate(s: string): (r: Option<Date>)
  {
    var f := Split(s, '/');
    if |f| == 3 && (forall k :: 0 <= k < 3 ==> |f[k]| > 0 && forall i :: 0 <= i < |f[k]| ==> IsDigit(f[k][i]))
    then Some(Date(DecimalValue(f[2]), DecimalValue(f[1]), DecimalValue(f[0])))
    else None
  }

  /** Formatting loses nothing: the text reads back as the same date, so two
      different dates never share a formatted text. */
  lemma FormatDateRoundTrip(d: Date)
    requires Supported(d)
    ensures ParseDate(FormatDate(d)) == Some(d)
  {
    SplitFormatted(d);
  }

  lemma FormatDateInjective(a: Date, b: Date)
    requires Supported(a) && Supported(b) && FormatDate(a) == FormatDate(b)
    ensures a == b
  {
    FormatDateRoundTrip(a);
    FormatDateRoundTrip(b);
  }
}
