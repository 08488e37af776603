/** Text forms of an event timestamp (microseconds since 1970-01-01
    00:00:00): the `YYYY-MM-DD HH:MM:SS.ffffff` text the SQLite store holds
    and the CSV export copies, and the millisecond text the spreadsheet
    export writes. */
module Timestamps {
  import opened Text

  const MicrosPerSecond: nat := 1_000_000
  const SecondsPerDay: nat := 86_400

  /** The last `w` decimal digits of `n`, zero-padded (`%0wd` for `n < 10^w`). */
  function Digits(n: nat, w: nat): (r: string)
    ensures |r| == w
    ensures forall i :: 0 <= i < w ==> IsDigit(r[i])
  {
    if w == 0 then "" else Digits(n / 10, w - 1) + [DigitChar(n % 10)]
  }

  /** The `w`-digit field reads back as the remainder of `n` by `10^w`:
      nothing below the field's width is lost, nothing above it kept. */
  lemma {:induction false} DigitsValue(n: nat, w: nat)
    ensures ParseNat(Digits(n, w)) == n % Pow10(w)
  {
    if w > 0 {
      DigitsValue(n / 10, w - 1);
      var d := Digits(n, w);
      assert d[..|d| - 1] == Digits(n / 10, w - 1);
      assert DigitValue(d[|d| - 1]) == n % 10;
      ModByTenTimes(n, Pow10(w - 1));
    }
  }

  /** Six digits hold exactly the microseconds of one second. */
  lemma SixDigitsModulus()
    ensures Pow10(6) == MicrosPerSecond
  {
    assert Pow10(2) == 100;
    assert Pow10(4) == 10_000;
  }

  /** `n mod 10p` splits into the last digit and `(n / 10) mod p`. */
  lemma ModByTenTimes(n: nat, p: nat)
    requires p > 0
    ensures n % (10 * p) == 10 * ((n / 10) % p) + n % 10
  {
    var q := n / 10;
    var a := q / p;
    var c := 10 * (q % p) + n % 10;
    assert q == p * a + q % p;
    assert n == (10 * p) * a + c;
    ModOfSplit(n, 10 * p, a, c);
  }

  /** A remainder is fixed by any split `n = m*a + c` with `0 <= c < m`. */
  lemma ModOfSplit(n: int, m: int, a: int, c: int)
    requires m > 0 && n == m * a + c && 0 <= c < m
    ensures n % m == c
  {
    var a', c' := n / m, n % m;
    assert n == m * a' + c' && 0 <= c' < m;
    var k := a - a';
    assert m * a == m * a' + m * k;
    if k >= 1 {
      ProductAtLeast(m, k);
    } else if k <= -1 {
      ProductAtLeast(m, -k);
    }
  }

  lemma ProductAtLeast(m: int, k: int)
    requires m > 0 && k >= 1
    ensures m * k >= m
  {
    assert m * k == m + m * (k - 1);
    assert m * (k - 1) >= 0;
  }

  /** Dropping the last three digits of a six-digit field is integer
      division by 1000. */
  lemma DigitsDropThree(n: nat)
    ensures Digits(n, 6)[..3] == Digits(n / 1000, 3)
  {
    var d := Digits(n, 6);
    assert d[..5] == Digits(n / 10, 5);
    assert Digits(n / 10, 5)[..4] == Digits(n / 10 / 10, 4);
    assert Digits(n / 10 / 10, 4)[..3] == Digits(n / 10 / 10 / 10, 3);
    assert d[..3] == d[..5][..4][..3];
    assert n / 10 / 10 / 10 == n / 1000;
  }

  // ---------------------------------------------------------------------
  // The proleptic Gregorian calendar `datetime` uses
  // ---------------------------------------------------------------------

  predicate IsLeap(y: int) { y % 4 == 0 && (y % 100 != 0 || y % 400 == 0) }

  function YearLength(y: int): nat { if IsLeap(y) then 366 else 365 }

  function MonthLength(y: int, m: int): (n: nat)
    requires 1 <= m <= 12
    ensures 28 <= n <= 31
  {
    if m == 2 then (if IsLeap(y) then 29 else 28)
    else if m == 4 || m == 6 || m == 9 || m == 11 then 30
    else 31
  }

  /** Days in the months of year `y` before month `m`. */
  function DaysBeforeMonth(y: int, m: int): nat
    requires 1 <= m <= 13
  {
    if m == 1 then 0 else DaysBeforeMonth(y, m - 1) + MonthLength(y, m - 1)
  }

  /** The twelve months fill the year. */
  lemma MonthsFillYear(y: int)
    ensures DaysBeforeMonth(y, 13) == YearLength(y)
  {
    var f := if IsLeap(y) then 1 else 0;
    assert DaysBeforeMonth(y, 2) == 31;
    assert DaysBeforeMonth(y, 3) == 59 + f;
    assert DaysBeforeMonth(y, 5) == 120 + f;
    assert DaysBeforeMonth(y, 7) == 181 + f;
    assert DaysBeforeMonth(y, 9) == 243 + f;
    assert DaysBeforeMonth(y, 11) == 304 + f;
  }

  /** Days from 1970-01-01 to the first of January of `y`. */
  function DaysBeforeYear(y: int): nat
    requires y >= 1970
    decreases y - 1970
  {
    if y == 1970 then 0 else DaysBeforeYear(y - 1) + YearLength(y - 1)
  }

  /** The year holding the day `days` days after the first of January of
      `y`, and that day's index within its year. */
  function YearOf(y: int, days: nat): (r: (int, nat))
    requires y >= 1970
    ensures r.0 >= y && r.1 < YearLength(r.0)
    ensures DaysBeforeYear(r.0) + r.1 == DaysBeforeYear(y) + days
    decreases days
  {
    if days < YearLength(y) then (y, days) else YearOf(y + 1, days - YearLength(y))
  }

  /** The month of year `y`, from month `m` on, holding the day `rest`
      days after the first of month `m`, and that day's number within its
      month. */
  function MonthOf(y: int, m: int, rest: nat): (r: (int, int))
    requires 1 <= m <= 12
    requires DaysBeforeMonth(y, m) + rest < YearLength(y)
    ensures m <= r.0 <= 12 && 1 <= r.1 <= MonthLength(y, r.0)
    ensures DaysBeforeMonth(y, r.0) + r.1 - 1 == DaysBeforeMonth(y, m) + rest
    decreases 12 - m
  {
    if rest < MonthLength(y, m) then (m, rest + 1)
    else
      MonthsFillYear(y);
      MonthOf(y, m + 1, rest - MonthLength(y, m))
  }

  /** Civil date (year, month, day) of a day count since 1970-01-01: a
      valid date of the proleptic Gregorian calendar that counts back to
      exactly that many days. */
  function CivilFromDays(days: nat): (r: (int, int, int))
    ensures r.0 >= 1970 && 1 <= r.1 <= 12 && 1 <= r.2 <= MonthLength(r.0, r.1)
    ensures DaysBeforeYear(r.0) + DaysBeforeMonth(r.0, r.1) + r.2 - 1 == days
  {
    var yd := YearOf(1970, days);
    MonthsFillYear(yd.0);
    var md := MonthOf(yd.0, 1, yd.1);
    (yd.0, md.0, md.1)
  }

  /** Days before a year grow with the year. */
  lemma {:induction false} DaysBeforeYearGrows(y: int, z: int)
    requires 1970 <= y < z
    ensures DaysBeforeYear(y) + YearLength(y) <= DaysBeforeYear(z)
    decreases z - y
  {
    if z > y + 1 {
      DaysBeforeYearGrows(y, z - 1);
    }
  }

  /** Days before a month grow with the month. */
  lemma {:induction false} DaysBeforeMonthGrows(y: int, m: int, n: int)
    requires 1 <= m < n <= 13
    ensures DaysBeforeMonth(y, m) + MonthLength(y, m) <= DaysBeforeMonth(y, n)
    decreases n - m
  {
    if n > m + 1 {
      DaysBeforeMonthGrows(y, m, n - 1);
    }
  }

  /** Two valid dates that count the same number of days are the same
      date: the day count names one date only. */
  lemma CivilUnique(y: int, m: int, d: int, y': int, m': int, d': int)
    requires y >= 1970 && 1 <= m <= 12 && 1 <= d <= MonthLength(y, m)
    requires y' >= 1970 && 1 <= m' <= 12 && 1 <= d' <= MonthLength(y', m')
    requires DaysBeforeYear(y) + DaysBeforeMonth(y, m) + d == DaysBeforeYear(y') + DaysBeforeMonth(y', m') + d'
    ensures y == y' && m == m' && d == d'
  {
    DaysBeforeMonthGrows(y, m, 13);
    DaysBeforeMonthGrows(y', m', 13);
    MonthsFillYear(y);
    MonthsFillYear(y');
    if y < y' {
      DaysBeforeYearGrows(y, y');
    } else if y' < y {
      DaysBeforeYearGrows(y', y);
    }
    if m < m' {
      DaysBeforeMonthGrows(y, m, m');
    } else if m' < m {
      DaysBeforeMonthGrows(y, m', m);
    }
  }

  /** `YYYY-MM-DD HH:MM:SS`, the part of every timestamp text before the
      fraction of a second. */
  function SecondsText(t: nat): (r: string)
    ensures var sod := t / MicrosPerSecond % SecondsPerDay;
      && |r| >= 19
      && r[|r| - 9] == ' ' && r[|r| - 6] == ':' && r[|r| - 3] == ':'
      && AllDigits(r[|r| - 8..|r| - 6]) && AllDigits(r[|r| - 5..|r| - 3]) && AllDigits(r[|r| - 2..])
      && ParseNat(r[|r| - 8..|r| - 6]) * 3600 + ParseNat(r[|r| - 5..|r| - 3]) * 60 + ParseNat(r[|r| - 2..]) == sod
  {
    var secs := t / MicrosPerSecond;
    var days := secs / SecondsPerDay;
    var sod := secs % SecondsPerDay;
    var ymd := CivilFromDays(days);
    var date := Pad(ymd.0, 4) + "-" + Pad(ymd.1, 2) + "-" + Pad(ymd.2, 2);
    var hh, mm, ss := Digits(sod / 3600, 2), Digits(sod / 60 % 60, 2), Digits(sod % 60, 2);
    var r := date + " " + hh + ":" + mm + ":" + ss;
    ClockDigits(sod);
    ClockLayout(date, hh, mm, ss);
    r
  }

  /** Where the clock fields sit at the end of `date HH:MM:SS`. */
  lemma ClockLayout(date: string, hh: string, mm: string, ss: string)
    requires |hh| == 2 && |mm| == 2 && |ss| == 2
    ensures var r := date + " " + hh + ":" + mm + ":" + ss;
      && |r| == |date| + 9
      && r[|r| - 9] == ' ' && r[|r| - 6] == ':' && r[|r| - 3] == ':'
      && r[|r| - 8..|r| - 6] == hh && r[|r| - 5..|r| - 3] == mm && r[|r| - 2..] == ss
  {
  }

  /** Two-digit hours, minutes and seconds read back as the second of the
      day they were cut from. */
  lemma ClockDigits(sod: nat)
    requires sod < SecondsPerDay
    ensures ParseNat(Digits(sod / 3600, 2)) * 3600 + ParseNat(Digits(sod / 60 % 60, 2)) * 60
            + ParseNat(Digits(sod % 60, 2)) == sod
  {
    TwoDigits(sod / 3600);
    TwoDigits(sod / 60 % 60);
    TwoDigits(sod % 60);
    ClockSplit(sod);
  }

  /** A two-digit field reads back as its value. */
  lemma TwoDigits(n: nat)
    requires n < 100
    ensures ParseNat(Digits(n, 2)) == n
  {
    assert Pow10(2) == 100;
    DigitsValue(n, 2);
  }

  /** Hours, minutes and seconds recompose the second of the day. */
  lemma ClockSplit(sod: nat)
    ensures (sod / 3600) * 3600 + (sod / 60 % 60) * 60 + sod % 60 == sod
  {
    var q := sod / 60;
    assert sod == 60 * q + sod % 60;
    assert q == 60 * (q / 60) + q % 60;
    assert q / 60 == sod / 3600;
  }

  /** The stored text, `strftime('%Y-%m-%d %H:%M:%S.%f')`: six digits of
      microseconds after the seconds. */
  function StoredText(t: nat): (r: string)
    ensures |r| == |SecondsText(t)| + 7
    ensures r[..|SecondsText(t)|] == SecondsText(t) && r[|SecondsText(t)|] == '.'
    ensures forall i :: |SecondsText(t)| < i < |r| ==> IsDigit(r[i])
    ensures ParseNat(r[|SecondsText(t)| + 1..]) == t % MicrosPerSecond
  {
    var sec := SecondsText(t);
    var us := Digits(t % MicrosPerSecond, 6);
    DotJoin(sec, us);
    DigitsValue(t % MicrosPerSecond, 6);
    SixDigitsModulus();
    ModOfSplit(t % MicrosPerSecond, MicrosPerSecond, 0, t % MicrosPerSecond);
    sec + "." + us
  }

  /** The two sides of a dot-joined text are read back by position. */
  lemma DotJoin(a: string, b: string)
    ensures (a + "." + b)[..|a|] == a && (a + "." + b)[|a|] == '.'
    ensures (a + "." + b)[|a| + 1..] == b
  {
  }

  /** The spreadsheet's Time cell: the stored text with its last three
      characters cut off (`[:-3]`). Cutting text truncates to the
      millisecond: the result is the seconds text followed by the whole
      number of milliseconds, three digits, never rounded up. */
  function MillisText(t: nat): (r: string)
    ensures r == SecondsText(t) + "." + Digits(t % MicrosPerSecond / 1000, 3)
    ensures r <= StoredText(t) && |r| + 3 == |StoredText(t)|
  {
    var full := StoredText(t);
    var r := full[..|full| - 3];
    var sec := SecondsText(t);
    var us := Digits(t % MicrosPerSecond, 6);
    DigitsDropThree(t % MicrosPerSecond);
    assert full == sec + "." + us;
    assert r == sec + "." + us[..3];
    r
  }
}
