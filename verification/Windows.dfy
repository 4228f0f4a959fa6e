/** Budget windows and their lifetimes (internal/budget/budget.go). Instants are
    milliseconds since the Unix epoch, UTC. */
module Windows {
  import opened Money

  const HOUR_MS := 3_600_000
  const DAY_MS := 24 * HOUR_MS

  /** Days from 0000-01-01 to 1970-01-01 in the proleptic Gregorian calendar. */
  const EPOCH_DAY := 719_528

  predicate Leap(y: int) { y % 4 == 0 && (y % 100 != 0 || y % 400 == 0) }

  /** Length of month m, counted from January of year 0; negative months come before. */
  function MonthLength(m: int): (n: int)
    ensures 28 <= n <= 31
  {
    match m % 12
    case 1 => if Leap(m / 12) then 29 else 28
    case 3 => 30
    case 5 => 30
    case 8 => 30
    case 10 => 30
    case _ => 31
  }

  /** First day of month m. */
  function MonthStart(m: int): int
    decreases if m < 0 then -m else m
  {
    if m == 0 then 0
    else if m > 0 then MonthStart(m - 1) + MonthLength(m - 1)
    else MonthStart(m + 1) - MonthLength(m)
  }

  function MonthFrom(day: int, m: int): (r: int)
    ensures MonthStart(r) <= day < MonthStart(r) + MonthLength(r)
    decreases if day < MonthStart(m) then MonthStart(m) - day else day - MonthStart(m)
  {
    if day < MonthStart(m) then
      assert MonthStart(m - 1) == MonthStart(m) - MonthLength(m - 1);
      if MonthStart(m - 1) <= day then m - 1 else MonthFrom(day, m - 1)
    else if day < MonthStart(m) + MonthLength(m) then m
    else
      assert MonthStart(m + 1) == MonthStart(m) + MonthLength(m);
      MonthFrom(day, m + 1)
  }

  function DayOf(t: int): int { t / DAY_MS + EPOCH_DAY }

  function MonthOf(t: int): int { MonthFrom(DayOf(t), 0) }

  function DayOfMonth(t: int): (d: int)
    ensures 1 <= d <= 31
  {
    DayOf(t) - MonthStart(MonthOf(t)) + 1
  }

  function Zeros(n: nat): (s: string)
    ensures |s| == n && AllDigits(s)
  {
    if n == 0 then "" else "0" + Zeros(n - 1)
  }

  function Pad(n: nat, width: nat): (s: string)
    ensures AllDigits(s) && |s| >= width
  {
    var s := FormatNat(n);
    if |s| < width then Zeros(width - |s|) + s else s
  }

  /** The zero-padded number of a time layout; a minus sign precedes years before 0. */
  function PadSigned(n: int, width: nat): string {
    if n < 0 then "-" + Pad(-n, width) else Pad(n, width)
  }

  /** "2006-01" */
  function MonthText(t: int): string { PadSigned(MonthOf(t) / 12, 4) + "-" + Pad(MonthOf(t) % 12 + 1, 2) }

  /** "2006-01-02" */
  function DayText(t: int): string { MonthText(t) + "-" + Pad(DayOfMonth(t), 2) }

  function WindowKey(window: string, t: int): string {
    if window == "day" then DayText(t) else if window == "rolling" then "rolling" else MonthText(t)
  }

  function WindowTTL(window: string): int {
    if window == "day" then 48 * HOUR_MS
    else if window == "rolling" then 30 * 24 * HOUR_MS
    else 32 * 24 * HOUR_MS
  }

  predicate Sticky(window: string) { window != "rolling" }

  lemma {:induction false} ZerosValue(n: nat, s: string)
    requires AllDigits(s)
    ensures AllDigits(Zeros(n) + s) && DigitsValue(Zeros(n) + s) == DigitsValue(s)
    decreases n + |s|
  {
    var z := Zeros(n) + s;
    if s != "" {
      ZerosValue(n, s[..|s| - 1]);
      assert z[..|z| - 1] == Zeros(n) + s[..|s| - 1];
    } else if n > 0 {
      ZerosValue(n - 1, "");
      ZerosAllSame(n);
      assert z[..|z| - 1] == Zeros(n - 1) + "";
    }
  }

  lemma {:induction false} ZerosAllSame(n: nat)
    requires n > 0
    ensures Zeros(n) == Zeros(n - 1) + "0"
  {
    if n > 1 { ZerosAllSame(n - 1); }
  }

  lemma PadValue(n: nat, width: nat)
    ensures DigitsValue(Pad(n, width)) == n
    ensures n < 100 && width == 2 ==> |Pad(n, width)| == 2
  {
    var s := FormatNat(n);
    FormatNatValue(n);
    if |s| < width { ZerosValue(width - |s|, s); }
  }

  lemma LeadingMinus(n: int, width: nat)
    ensures PadSigned(n, width) != "" && (PadSigned(n, width)[0] == '-' <==> n < 0)
    ensures PadSigned(n, width)[if n < 0 then 1 else 0..] == Pad(if n < 0 then -n else n, width)
  {
    if n >= 0 { assert IsDigit(Pad(n, width)[0]); }
  }

  lemma PadSignedInjective(a: int, b: int, width: nat)
    requires PadSigned(a, width) == PadSigned(b, width)
    ensures a == b
  {
    LeadingMinus(a, width);
    LeadingMinus(b, width);
    PadValue(if a < 0 then -a else a, width);
    PadValue(if b < 0 then -b else b, width);
  }

  lemma SameMonthText(s: int, t: int)
    requires MonthText(s) == MonthText(t)
    ensures MonthOf(s) == MonthOf(t)
  {
    var a, b := MonthOf(s), MonthOf(t);
    PadValue(a % 12 + 1, 2);
    PadValue(b % 12 + 1, 2);
    SplitSuffix(PadSigned(a / 12, 4), Pad(a % 12 + 1, 2), PadSigned(b / 12, 4), Pad(b % 12 + 1, 2));
    PadSignedInjective(a / 12, b / 12, 4);
  }

  lemma SplitSuffix(x: string, p: string, y: string, q: string)
    requires x + "-" + p == y + "-" + q && |p| == |q|
    ensures x == y && p == q
  {
    var u, v := x + "-" + p, y + "-" + q;
    assert x == u[..|u| - |p| - 1] && y == v[..|v| - |q| - 1];
    assert p == u[|u| - |p|..] && q == v[|v| - |q|..];
  }

  lemma SameDayText(s: int, t: int)
    requires DayText(s) == DayText(t)
    ensures DayOf(s) == DayOf(t)
  {
    PadValue(DayOfMonth(s), 2);
    PadValue(DayOfMonth(t), 2);
    SplitSuffix(MonthText(s), Pad(DayOfMonth(s), 2), MonthText(t), Pad(DayOfMonth(t), 2));
    SameMonthText(s, t);
  }

  lemma SameKeySamePeriod(window: string, s: int, t: int)
    requires Sticky(window) && WindowKey(window, s) == WindowKey(window, t)
    ensures if window == "day" then DayOf(s) == DayOf(t) else MonthOf(s) == MonthOf(t)
  {
    if window == "day" { SameDayText(s, t); } else { SameMonthText(s, t); }
  }

  /** Which instants count against one window: those of one day, of one month, or all. */
  predicate SamePeriod(window: string, s: int, t: int) {
    if window == "day" then DayOf(s) == DayOf(t) else if window == "rolling" then true else MonthOf(s) == MonthOf(t)
  }

  /** Two instants print the same window exactly if they lie in the same period, so that
      a period has one cap and every new period a fresh one. */
  lemma WindowKeyIff(window: string, s: int, t: int)
    ensures WindowKey(window, s) == WindowKey(window, t) <==> SamePeriod(window, s, t)
  {
    if Sticky(window) && WindowKey(window, s) == WindowKey(window, t) { SameKeySamePeriod(window, s, t); }
  }

  lemma SamePeriodWithinTTL(window: string, s: int, t: int)
    requires Sticky(window)
    requires if window == "day" then DayOf(s) == DayOf(t) else MonthOf(s) == MonthOf(t)
    ensures DAY_MS - WindowTTL(window) < s - t < WindowTTL(window) - DAY_MS
  {
    DaysApart(s, t);
    if window != "day" { SameMonthDays(s, t); }
  }

  /** Two instants that print the same calendar window lie closer together than the
      window's counter lives, by a whole day. */
  lemma SameWindowWithinTTL(window: string, s: int, t: int)
    requires Sticky(window) && WindowKey(window, s) == WindowKey(window, t)
    ensures DAY_MS - WindowTTL(window) < s - t < WindowTTL(window) - DAY_MS
  {
    SameKeySamePeriod(window, s, t);
    SamePeriodWithinTTL(window, s, t);
  }

  // The calendar is the Gregorian one, and instants count from 1970.

  lemma LengthIn(y: nat, i: nat)
    requires i < 12
    ensures MonthLength(12 * y + i) == [31, if Leap(y) then 29 else 28, 31, 30, 31, 30, 31, 31, 30, 31, 30, 31][i]
  {
    assert (12 * y + i) % 12 == i && (12 * y + i) / 12 == y;
  }

  lemma ThreeMonths(m: nat)
    ensures MonthStart(m + 3) == MonthStart(m) + MonthLength(m) + MonthLength(m + 1) + MonthLength(m + 2)
  {
    assert MonthStart(m + 2) == MonthStart(m + 1) + MonthLength(m + 1);
    assert MonthStart(m + 1) == MonthStart(m) + MonthLength(m);
  }

  lemma HalfYear(y: nat, i: nat)
    requires i in {0, 6}
    ensures MonthStart(12 * y + i + 6) == MonthStart(12 * y + i) + if i == 6 then 184 else if Leap(y) then 182 else 181
  {
    ThreeMonths(12 * y + i);
    ThreeMonths(12 * y + i + 3);
    LengthIn(y, i);
    LengthIn(y, i + 1);
    LengthIn(y, i + 2);
    LengthIn(y, i + 3);
    LengthIn(y, i + 4);
    LengthIn(y, i + 5);
  }

  lemma YearLength(y: nat)
    ensures MonthStart(12 * y + 12) == MonthStart(12 * y) + if Leap(y) then 366 else 365
  {
    HalfYear(y, 0);
    HalfYear(y, 6);
  }

  /** The leap days before year y: every fourth year, not every hundredth, but every
      four-hundredth. */
  function LeapDays(y: nat): int { (y + 3) / 4 - (y + 99) / 100 + (y + 399) / 400 }

  lemma EveryFourth(y: nat)
    ensures (y + 4) / 4 == (y + 3) / 4 + if y % 4 == 0 then 1 else 0
  {
  }

  lemma EveryHundredth(y: nat)
    ensures (y + 100) / 100 == (y + 99) / 100 + if y % 100 == 0 then 1 else 0
    ensures y % 100 == 0 ==> y % 4 == 0
  {
    var q, r := y / 100, y % 100;
    assert y == 100 * q + r;
    assert (y + 100) / 100 == q + 1;
    assert r == 0 ==> y == 4 * (25 * q);
  }

  lemma EveryFourHundredth(y: nat)
    ensures (y + 400) / 400 == (y + 399) / 400 + if y % 400 == 0 then 1 else 0
    ensures y % 400 == 0 ==> y % 100 == 0
  {
    var q, r := y / 400, y % 400;
    assert y == 400 * q + r;
    assert (y + 400) / 400 == q + 1;
    assert r == 0 ==> y == 100 * (4 * q);
  }

  lemma LeapStep(y: nat)
    ensures LeapDays(y + 1) == LeapDays(y) + if Leap(y) then 1 else 0
  {
    EveryFourth(y);
    EveryHundredth(y);
    EveryFourHundredth(y);
  }

  lemma {:induction false} YearStart(y: nat)
    ensures MonthStart(12 * y) == 365 * y + LeapDays(y)
  {
    if y > 0 {
      YearStart(y - 1);
      YearLength(y - 1);
      LeapStep(y - 1);
      assert 12 * (y - 1) + 12 == 12 * y;
    }
  }

  lemma {:induction false} MonthStartMonotone(a: int, b: int)
    requires a <= b
    ensures MonthStart(a) + 28 * (b - a) <= MonthStart(b)
    decreases b - a
  {
    if a < b {
      MonthStartMonotone(a, b - 1);
      assert MonthStart(b) == MonthStart(b - 1) + MonthLength(b - 1);
    }
  }

  /** A day lies in exactly one month. */
  lemma MonthUnique(t: int, m: int)
    requires MonthStart(m) <= DayOf(t) < MonthStart(m) + MonthLength(m)
    ensures MonthOf(t) == m
  {
    var r := MonthOf(t);
    assert MonthStart(r + 1) == MonthStart(r) + MonthLength(r);
    assert MonthStart(m + 1) == MonthStart(m) + MonthLength(m);
    if r < m { MonthStartMonotone(r + 1, m); }
    if m < r { MonthStartMonotone(m + 1, r); }
  }

  /** Milliseconds from the epoch to the start of a day of a month of a year. */
  function Midnight(year: nat, month: nat, day: nat): int {
    (MonthStart(12 * year + month - 1) + day - 1 - EPOCH_DAY) * DAY_MS
  }

  /** Every instant of a calendar day is dated by its year, month and day. */
  lemma DateOf(year: nat, month: nat, day: nat, t: int)
    requires 1 <= month <= 12 && 1 <= day <= MonthLength(12 * year + month - 1)
    requires Midnight(year, month, day) <= t < Midnight(year, month, day) + DAY_MS
    ensures MonthOf(t) / 12 == year && MonthOf(t) % 12 + 1 == month && DayOfMonth(t) == day
    ensures WindowKey("month", t) == PadSigned(year, 4) + "-" + Pad(month, 2)
    ensures WindowKey("day", t) == WindowKey("month", t) + "-" + Pad(day, 2)
  {
    var m := 12 * year + month - 1;
    var d := MonthStart(m) + day - 1 - EPOCH_DAY;
    assert d * DAY_MS <= t < (d + 1) * DAY_MS;
    DayAt(t, d);
    MonthUnique(t, m);
    assert m / 12 == year && m % 12 == month - 1;
  }

  lemma DayAt(t: int, d: int)
    requires d * DAY_MS <= t < (d + 1) * DAY_MS
    ensures t / DAY_MS == d
  {
  }

  lemma Text1970()
    ensures PadSigned(1970, 4) == "1970" && Pad(1, 2) == "01"
  {
    assert FormatNat(1) == "1" && FormatNat(19) == "19";
    assert FormatNat(197) == "197" && FormatNat(1970) == "1970";
    assert Zeros(1) == "0" + Zeros(0) == "0";
  }

  lemma EpochMidnight(year: nat)
    requires year == 1970
    ensures Midnight(year, 1, 1) == 0
  {
    YearStart(year);
    assert LeapDays(year) == 493 - 20 + 5;
    assert MonthStart(12 * year) == 365 * year + 478 == EPOCH_DAY && 12 * year + 1 - 1 == 12 * year;
  }

  /** Instant 0 is midnight of the first of January 1970. */
  lemma EpochDate(year: nat, t: int)
    requires year == 1970 && t == 0
    ensures Midnight(year, 1, 1) == t && WindowKey("month", t) == "1970-01" && WindowKey("day", t) == "1970-01-01"
  {
    EpochMidnight(year);
    DateOf(year, 1, 1, t);
    Text1970();
  }

  lemma SameMonthDays(s: int, t: int)
    requires MonthOf(s) == MonthOf(t)
    ensures -31 < DayOf(s) - DayOf(t) < 31
  {
  }

  lemma DaysApart(s: int, t: int)
    ensures (DayOf(s) - DayOf(t) - 1) * DAY_MS < s - t < (DayOf(s) - DayOf(t) + 1) * DAY_MS
  {
    assert s == s / DAY_MS * DAY_MS + s % DAY_MS && t == t / DAY_MS * DAY_MS + t % DAY_MS;
  }
}
