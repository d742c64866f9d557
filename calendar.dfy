/** Dates as day numbers counted from 1600-01-01 in the Gregorian calendar,
    and their ISO 8601 rendering yyyy-mm-dd (Date#to_s) and reading. */
module Calendar {
  import opened Common
  import opened Text

  predicate IsLeap(y: int) {
    (y % 4 == 0 && y % 100 != 0) || y % 400 == 0
  }

  function DaysInYear(y: int): int {
    if IsLeap(y) then 366 else 365
  }

  function DaysInMonth(y: int, m: int): int {
    if m == 2 then (if IsLeap(y) then 29 else 28)
    else if m == 4 || m == 6 || m == 9 || m == 11 then 30
    else 31
  }

  /** A calendar date y-m-d that exists, in year 1600 or later. */
  predicate IsCivil(y: int, m: int, d: int) {
    y >= 1600 && 1 <= m <= 12 && 1 <= d <= DaysInMonth(y, m)
  }

  /** Days from 1600-01-01 to January 1st of year y. */
  function DaysBeforeYear(y: int): nat
    requires y >= 1600
    decreases y
  {
    if y == 1600 then 0 else DaysBeforeYear(y - 1) + DaysInYear(y - 1)
  }

  /** Days from January 1st to the first of month m. */
  function DaysBeforeMonth(y: int, m: int): nat
    requires 1 <= m <= 13
    decreases m
  {
    if m == 1 then 0 else DaysBeforeMonth(y, m - 1) + DaysInMonth(y, m - 1)
  }

  /** The twelve months fill the year. */
  lemma MonthsFillYear(y: int)
    ensures DaysBeforeMonth(y, 13) == DaysInYear(y)
  {
  }

  /** The day number of a calendar date. */
  function DayOfCivil(y: int, m: int, d: int): int
    requires IsCivil(y, m, d)
  {
    DaysBeforeYear(y) + DaysBeforeMonth(y, m) + d - 1
  }

  datatype Civil = Civil(year: int, month: int, day: int)

  /** The year holding day n of the count that starts on January 1st of y,
      with the day's offset inside that year. */
  function YearFrom(n: nat, y: int): (r: (int, nat))
    requires y >= 1600
    ensures r.0 >= y && r.1 < DaysInYear(r.0)
    decreases n
  {
    if n < DaysInYear(y) then (y, n) else YearFrom(n - DaysInYear(y), y + 1)
  }

  /** The month holding offset r of year y, counting from month m, with the
      day of that month. */
  function MonthFrom(y: int, r: nat, m: int): (c: (int, int))
    requires 1 <= m <= 12 && DaysBeforeMonth(y, m) + r < DaysInYear(y)
    ensures m <= c.0 <= 12 && 1 <= c.1 <= DaysInMonth(y, c.0)
    decreases 12 - m
  {
    if r < DaysInMonth(y, m) || m == 12 then (m, r + 1)
    else MonthFrom(y, r - DaysInMonth(y, m), m + 1)
  }

  /** The calendar date of day number n. */
  function CivilOfDay(n: nat): (c: Civil)
    ensures IsCivil(c.year, c.month, c.day)
  {
    var (y, r) := YearFrom(n, 1600);
    var (m, d) := MonthFrom(y, r, 1);
    Civil(y, m, d)
  }

  lemma {:induction false} YearFromCount(n: nat, y: int)
    requires y >= 1600
    ensures var r := YearFrom(n, y); DaysBeforeYear(r.0) + r.1 == DaysBeforeYear(y) + n
    decreases n
  {
    if n >= DaysInYear(y) {
      YearFromCount(n - DaysInYear(y), y + 1);
    }
  }

  lemma {:induction false} MonthFromCount(y: int, r: nat, m: int)
    requires 1 <= m <= 12 && DaysBeforeMonth(y, m) + r < DaysInYear(y)
    ensures var c := MonthFrom(y, r, m); DaysBeforeMonth(y, c.0) + c.1 - 1 == DaysBeforeMonth(y, m) + r
    decreases 12 - m
  {
    if !(r < DaysInMonth(y, m) || m == 12) {
      MonthFromCount(y, r - DaysInMonth(y, m), m + 1);
    }
  }

  /** Counting the days of a calendar date gives the day number back. */
  lemma DayOfCivilOfDay(n: nat)
    ensures var c := CivilOfDay(n); DayOfCivil(c.year, c.month, c.day) == n
  {
    var (y, r) := YearFrom(n, 1600);
    YearFromCount(n, 1600);
    MonthsFillYear(y);
    MonthFromCount(y, r, 1);
  }

  lemma {:induction false} YearFromOf(y0: int, y: int, r: nat)
    requires 1600 <= y0 <= y && r < DaysInYear(y)
    ensures DaysBeforeYear(y) >= DaysBeforeYear(y0)
    ensures YearFrom(DaysBeforeYear(y) - DaysBeforeYear(y0) + r, y0) == (y, r)
    decreases y - y0
  {
    if y0 < y {
      YearFromOf(y0 + 1, y, r);
    }
  }

  lemma {:induction false} MonthFromOf(y: int, m0: int, m: int, d: int, r: nat)
    requires 1 <= m0 <= m <= 12 && 1 <= d <= DaysInMonth(y, m)
    requires DaysBeforeMonth(y, m0) + r == DaysBeforeMonth(y, m) + d - 1
    ensures DaysBeforeMonth(y, m0) + r < DaysInYear(y)
    ensures MonthFrom(y, r, m0) == (m, d)
    decreases m - m0
  {
    MonthsBelowYear(y, m);
    if m0 < m {
      var k := DaysInMonth(y, m0);
      MonthsMono(y, m0, m);
      assert DaysBeforeMonth(y, m0 + 1) == DaysBeforeMonth(y, m0) + k;
      assert r >= k;
      MonthFromOf(y, m0 + 1, m, d, r - k);
    }
  }

  /** Later months start later, by at least the length of the month between. */
  lemma {:induction false} MonthsMono(y: int, m0: int, m: int)
    requires 1 <= m0 <= m <= 13
    ensures DaysBeforeMonth(y, m) >= DaysBeforeMonth(y, m0) + (if m0 < m then DaysInMonth(y, m0) else 0)
    decreases m - m0
  {
    if m0 < m - 1 {
      MonthsMono(y, m0, m - 1);
    }
  }

  lemma {:induction false} MonthsBelowYear(y: int, m: int)
    requires 1 <= m <= 12
    ensures DaysBeforeMonth(y, m) + DaysInMonth(y, m) <= DaysInYear(y)
    decreases 12 - m
  {
    if m < 12 {
      MonthsBelowYear(y, m + 1);
    } else {
      MonthsFillYear(y);
    }
  }

  /** The calendar date of a date's day number is that date. */
  lemma CivilOfDayOfCivil(y: int, m: int, d: int)
    requires IsCivil(y, m, d)
    ensures DayOfCivil(y, m, d) >= 0
    ensures CivilOfDay(DayOfCivil(y, m, d)) == Civil(y, m, d)
  {
    MonthsBelowYear(y, m);
    MonthFromOf(y, 1, m, d, DaysBeforeMonth(y, m) + d - 1);
    YearFromOf(1600, y, DaysBeforeMonth(y, m) + d - 1);
  }

  function Pad2(n: int): string
    requires 0 <= n < 100
  {
    [DigitChar(n / 10), DigitChar(n % 10)]
  }

  /** Date#to_s of a day number: yyyy-mm-dd. */
  function RenderDate(n: nat): string {
    var c := CivilOfDay(n);
    NatToString(c.year) + "-" + Pad2(c.month) + "-" + Pad2(c.day)
  }

  /** yyyy-mm-dd (at least four year digits) of an existing date from
      1600 on; anything else is refused. */
  function ParseDate(s: string): (r: Option<int>)
    ensures r.Some? ==> r.value >= 0
  {
    if |s| >= 10 && s[|s| - 3] == '-' && s[|s| - 6] == '-' then
      var ys, ms, ds := s[..|s| - 6], s[|s| - 5..|s| - 3], s[|s| - 2..];
      if AllDigits(ys) && AllDigits(ms) && AllDigits(ds) then
        var y, m, d := DigitsValue(ys), DigitsValue(ms), DigitsValue(ds);
        if IsCivil(y, m, d) then
          CivilOfDayOfCivil(y, m, d);
          Some(DayOfCivil(y, m, d))
        else None
      else None
    else None
  }

  lemma Pad2Value(n: int)
    requires 0 <= n < 100
    ensures AllDigits(Pad2(n)) && DigitsValue(Pad2(n)) == n
  {
    var p := Pad2(n);
    assert p[..1] == [DigitChar(n / 10)] && p[..1][..0] == [];
    assert DigitsValue(p[..1]) == n / 10;
    assert DigitsValue(p) == DigitsValue(p[..1]) * 10 + n % 10;
  }

  /** Parsing a rendered date gives the day number back. */
  lemma DateRoundTrip(n: nat)
    ensures ParseDate(RenderDate(n)) == Some(n)
  {
    var c := CivilOfDay(n);
    var ys, ms, dd := NatToString(c.year), Pad2(c.month), Pad2(c.day);
    NatToStringLength(c.year);
    DateSlices(RenderDate(n), ys, ms, dd);
    DigitsValueOf(c.year);
    Pad2Value(c.month);
    Pad2Value(c.day);
    ParseParts(RenderDate(n), ys, ms, dd);
    DayOfCivilOfDay(n);
  }

  /** Where the three parts of a rendered date sit. */
  lemma DateSlices(s: string, ys: string, ms: string, dd: string)
    requires s == ys + "-" + ms + "-" + dd && |ms| == 2 && |dd| == 2
    ensures |s| == |ys| + 6 && s[|s| - 3] == '-' && s[|s| - 6] == '-'
    ensures s[..|s| - 6] == ys && s[|s| - 5..|s| - 3] == ms && s[|s| - 2..] == dd
  {
  }

  /** A string cut into year, month and day digits of an existing date parses to its day number. */
  lemma ParseParts(s: string, ys: string, ms: string, dd: string)
    requires |ys| >= 4 && |s| == |ys| + 6 && s[|s| - 3] == '-' && s[|s| - 6] == '-'
    requires s[..|s| - 6] == ys && s[|s| - 5..|s| - 3] == ms && s[|s| - 2..] == dd
    requires AllDigits(ys) && AllDigits(ms) && AllDigits(dd)
    requires IsCivil(DigitsValue(ys), DigitsValue(ms), DigitsValue(dd))
    ensures ParseDate(s) == Some(DayOfCivil(DigitsValue(ys), DigitsValue(ms), DigitsValue(dd)))
  {
  }

  /** Date#to_s writes no whitespace and starts with a digit; up to the
      year 9999 it is ten characters long, later years are longer. */
  lemma DateHasNoSpace(n: nat)
    ensures |RenderDate(n)| > 0 && IsDigit(RenderDate(n)[0])
    ensures forall k :: 0 <= k < |RenderDate(n)| ==> !IsSpace(RenderDate(n)[k])
    ensures CivilOfDay(n).year <= 9999 ==> |RenderDate(n)| == 10
    ensures CivilOfDay(n).year > 9999 ==> |RenderDate(n)| > 10
  {
    var c := CivilOfDay(n);
    var ys, ms, dd := NatToString(c.year), Pad2(c.month), Pad2(c.day);
    var t := RenderDate(n);
    assert t == ys + "-" + ms + "-" + dd;
    NatToStringLength(c.year);
    if c.year > 9999 {
      NatToStringLength(c.year / 10);
      assert |ys| == |NatToString(c.year / 10)| + 1;
    }
    assert t[0] == ys[0];
    Pad2Value(c.month);
    Pad2Value(c.day);
    forall k | 0 <= k < |t| ensures !IsSpace(t[k]) {
      if k < |ys| {
        assert t[k] == ys[k] && IsDigit(ys[k]);
      } else if |ys| < k < |ys| + 3 {
        assert t[k] == ms[k - |ys| - 1] && IsDigit(ms[k - |ys| - 1]);
      } else if |ys| + 3 < k {
        assert t[k] == dd[k - |ys| - 4] && IsDigit(dd[k - |ys| - 4]);
      }
    }
  }
}
