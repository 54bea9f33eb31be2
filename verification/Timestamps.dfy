/** The one timestamp form a chain hash covers: YYYY-MM-DDTHH:MM:SS.ffffffZ, written and read. */
module Timestamps {
  import opened Basics
  import opened Text

  // ---- The calendar, as Go's time package has it ----

  predicate Leap(y: nat) {
    y % 4 == 0 && (y % 100 != 0 || y % 400 == 0)
  }

  function YearLength(y: nat): nat {
    if Leap(y) then 366 else 365
  }

  function MonthLength(y: nat, m: nat): nat
    requires 1 <= m <= 12
  {
    if m == 2 then (if Leap(y) then 29 else 28) else if m in {4, 6, 9, 11} then 30 else 31
  }

  function YearsBetween(a: nat, b: nat): nat
    requires a <= b
    decreases b - a
  {
    if a == b then 0 else YearLength(a) + YearsBetween(a + 1, b)
  }

  function MonthsBetween(y: nat, a: nat, b: nat): nat
    requires 1 <= a <= b <= 12
    decreases b - a
  {
    if a == b then 0 else MonthLength(y, a) + MonthsBetween(y, a + 1, b)
  }

  /** Days since the start of year 0. A day past the month's end counts into the next month. */
  function DaysOf(y: nat, m: nat, d: nat): nat
    requires 1 <= m <= 12 && 1 <= d
  {
    YearsBetween(0, y) + MonthsBetween(y, 1, m) + d - 1
  }

  datatype Date = Date(year: nat, month: nat, day: nat)

  predicate Real(date: Date) {
    1 <= date.month <= 12 && 1 <= date.day <= MonthLength(date.year, date.month)
  }

  function DateFrom(y: nat, m: nat, days: nat): Date
    requires 1 <= m <= 12
    decreases days, 12 - m
  {
    if days < MonthLength(y, m) then Date(y, m, days + 1)
    else if m < 12 then DateFrom(y, m + 1, days - MonthLength(y, m))
    else DateFrom(y + 1, 1, days - MonthLength(y, m))
  }

  /** The date a number of days after the start of year 0. */
  function DateOf(days: nat): Date {
    DateFrom(0, 1, days)
  }

  lemma {:induction false} MonthsMore(y: nat, a: nat, b: nat)
    requires 1 <= a <= b < 12
    ensures MonthsBetween(y, a, b + 1) == MonthsBetween(y, a, b) + MonthLength(y, b)
    decreases b - a
  {
    if a < b { MonthsMore(y, a + 1, b); }
  }

  lemma {:induction false} YearsMore(a: nat, b: nat)
    requires a <= b
    ensures YearsBetween(a, b + 1) == YearsBetween(a, b) + YearLength(b)
    decreases b - a
  {
    if a < b { YearsMore(a + 1, b); }
  }

  /** The first day of the next month is the day after the last. */
  lemma DaysRoll(y: nat, m: nat, d: nat)
    requires 1 <= m <= 12 && d > MonthLength(y, m)
    ensures var d' := d - MonthLength(y, m);
            DaysOf(y, m, d) == if m < 12 then DaysOf(y, m + 1, d') else DaysOf(y + 1, 1, d')
  {
    if m < 12 {
      MonthsMore(y, 1, m);
    } else {
      YearsMore(0, y);
      MonthsMore(y, 1, 1); MonthsMore(y, 1, 2); MonthsMore(y, 1, 3); MonthsMore(y, 1, 4); MonthsMore(y, 1, 5);
      MonthsMore(y, 1, 6); MonthsMore(y, 1, 7); MonthsMore(y, 1, 8); MonthsMore(y, 1, 9); MonthsMore(y, 1, 10);
      MonthsMore(y, 1, 11);
    }
  }

  /** Counting on from a month's start reaches a real date, on that very day. */
  lemma {:induction false} DateFromDays(y: nat, m: nat, days: nat)
    requires 1 <= m <= 12
    ensures var t := DateFrom(y, m, days); Real(t) && DaysOf(t.year, t.month, t.day) == DaysOf(y, m, days + 1)
    decreases days, 12 - m
  {
    if days >= MonthLength(y, m) {
      DaysRoll(y, m, days + 1);
      if m < 12 {
        DateFromDays(y, m + 1, days - MonthLength(y, m));
      } else {
        DateFromDays(y + 1, 1, days - MonthLength(y, m));
      }
    }
  }

  lemma DateOfDays(days: nat)
    ensures var t := DateOf(days); Real(t) && DaysOf(t.year, t.month, t.day) == days
  {
    DateFromDays(0, 1, days);
  }

  /** Counting on from an earlier month passes through a later one. */
  lemma {:induction false} DateFromMonth(y: nat, m: nat, b: nat, days: nat)
    requires 1 <= m <= b <= 12
    ensures DateFrom(y, m, MonthsBetween(y, m, b) + days) == DateFrom(y, b, days)
    decreases b - m
  {
    if m < b { DateFromMonth(y, m + 1, b, days); }
  }

  lemma {:induction false} DateFromYear(a: nat, y: nat, days: nat)
    requires a <= y
    ensures DateFrom(a, 1, YearsBetween(a, y) + days) == DateFrom(y, 1, days)
    decreases y - a
  {
    if a < y {
      var rest := YearsBetween(a + 1, y) + days;
      YearIsMonths(a);
      DateFromMonth(a, 1, 12, 31 + rest);
      assert YearsBetween(a, y) + days == MonthsBetween(a, 1, 12) + (31 + rest);
      DateFromYear(a + 1, y, days);
    }
  }

  lemma YearIsMonths(y: nat)
    ensures YearLength(y) == MonthsBetween(y, 1, 12) + 31
  {
    DaysRoll(y, 12, 32);
    YearsMore(0, y);
  }

  lemma {:induction false} RolledDay(y: nat, m: nat, days: nat)
    requires 1 <= m <= 12
    ensures DateFrom(y, m, days).day <= days + 1
    ensures days >= MonthLength(y, m) ==> DateFrom(y, m, days).day < days + 1
    decreases days, 12 - m
  {
    if days >= MonthLength(y, m) {
      if m < 12 { RolledDay(y, m + 1, days - MonthLength(y, m)); } else { RolledDay(y + 1, 1, days - MonthLength(y, m)); }
    }
  }

  /** time.Date keeps the day it was given exactly when the month has that day. */
  lemma DayKept(y: nat, m: nat, d: nat)
    requires 1 <= m <= 12 && 1 <= d
    ensures DateOf(DaysOf(y, m, d)).day == d <==> d <= MonthLength(y, m)
    ensures d <= MonthLength(y, m) ==> DateOf(DaysOf(y, m, d)) == Date(y, m, d)
  {
    DateFromYear(0, y, MonthsBetween(y, 1, m) + d - 1);
    DateFromMonth(y, 1, m, d - 1);
    RolledDay(y, m, d - 1);
  }

  // ---- The calendar, counted in closed form ----

  /** The leap days of the years up to y, after year 0. */
  function LeapDays(y: int): int {
    y / 4 - y / 100 + y / 400
  }

  lemma Fourth(y: nat)
    ensures y / 4 - (y - 1) / 4 == if y % 4 == 0 then 1 else 0
  {
  }

  lemma Hundredth(y: nat)
    ensures y / 100 - (y - 1) / 100 == if y % 100 == 0 then 1 else 0
  {
  }

  lemma FourHundredth(y: nat)
    ensures y / 400 - (y - 1) / 400 == if y % 400 == 0 then 1 else 0
  {
  }

  lemma Multiples(y: nat)
    ensures y % 100 == 0 ==> y % 4 == 0
    ensures y % 400 == 0 ==> y % 100 == 0
  {
    if y % 100 == 0 { MultipleOf(4, 25 * (y / 100), y); }
    if y % 400 == 0 { MultipleOf(100, 4 * (y / 400), y); }
  }

  lemma MultipleOf(k: nat, q: nat, n: nat)
    requires k in {4, 100} && n == k * q
    ensures n % k == 0
  {
    if k == 4 { assert 4 * q % 4 == 0; } else { assert 100 * q % 100 == 0; }
  }

  lemma LeapDay(y: nat)
    ensures LeapDays(y) - LeapDays(y - 1) == if (y % 4 == 0 && y % 100 != 0) || y % 400 == 0 then 1 else 0
    ensures Leap(y) <==> (y % 4 == 0 && y % 100 != 0) || y % 400 == 0
  {
    Fourth(y);
    Hundredth(y);
    FourHundredth(y);
    Multiples(y);
  }

  lemma {:induction false} YearsCounted(y: nat)
    ensures YearsBetween(0, y) == 365 * y + LeapDays(y - 1) + 1
  {
    if y > 0 {
      YearsCounted(y - 1);
      YearsMore(0, y - 1);
      LeapDay(y - 1);
    }
  }

  lemma {:induction false} MonthsCounted(y: nat, m: nat)
    requires 1 <= m <= 12
    ensures MonthsBetween(y, 1, m) == if m <= 2 then 31 * (m - 1) else (153 * (m - 3) + 2) / 5 + 59 + if Leap(y) then 1 else 0
  {
    hide Leap;
    if m > 1 {
      MonthsCounted(y, m - 1);
      MonthsMore(y, 1, m - 1);
      hide MonthsBetween;
    }
  }

  /** Days counted from the first of March: the closed form of the Gregorian calendar, for every year and month. */
  lemma CivilDays(y: nat, m: nat, d: nat)
    requires 1 <= m <= 12 && 1 <= d
    ensures var y', m' := if m <= 2 then y - 1 else y, if m <= 2 then m + 9 else m - 3;
            DaysOf(y, m, d) == 365 * y' + y' / 4 - y' / 100 + y' / 400 + (153 * m' + 2) / 5 + d + 59
  {
    YearsCounted(y);
    MonthsCounted(y, m);
    LeapDay(y);
  }

  /** How many days a month has, outside leap years. */
  const DAYS_IN_MONTH: seq<nat> := [31, 28, 31, 30, 31, 30, 31, 31, 30, 31, 30, 31]

  lemma MonthTable(y: nat, m: nat)
    requires 1 <= m <= 12
    ensures MonthLength(y, m) == DAYS_IN_MONTH[m - 1] + if m == 2 && ((y % 4 == 0 && y % 100 != 0) || y % 400 == 0) then 1 else 0
  {
    LeapDay(y);
  }

  // ---- Zero-padded numbers ----

  function DigitChar(n: nat): char
    requires n < 10
  {
    '0' + n as char
  }

  /** appendIntPadded: at least width digits. */
  function Padded(n: nat, width: nat): (s: string)
    ensures |s| >= 1 && |s| >= width && forall c <- s :: IsDigit(c)
    decreases n + width
  {
    if n < 10 && width <= 1 then [DigitChar(n)]
    else Padded(n / 10, if width == 0 then 0 else width - 1) + [DigitChar(n % 10)]
  }

  function Pow10(k: nat): nat {
    if k == 0 then 1 else 10 * Pow10(k - 1)
  }

  lemma {:induction false} PaddedValue(n: nat, width: nat)
    ensures DigitsValue(Padded(n, width)) == n
    ensures 1 <= width && n < Pow10(width) ==> |Padded(n, width)| == width
    decreases n + width
  {
    var s := Padded(n, width);
    if n < 10 && width <= 1 {
      assert s[..0] == [];
    } else {
      var w := if width == 0 then 0 else width - 1;
      PaddedValue(n / 10, w);
      assert s[..|s| - 1] == Padded(n / 10, w);
      if width == 1 { assert Pow10(1) == 10 * Pow10(0); }
    }
  }

  /** The value of digits, read one after another. */
  lemma DigitsMore(init: string, c: char)
    requires IsDigit(c) && forall x <- init :: IsDigit(x)
    ensures DigitsValue(init + [c]) == 10 * DigitsValue(init) + DigitOf(c)
    ensures init == [] ==> DigitsValue(init) == 0
  {
    assert (init + [c])[..|init|] == init;
  }

  /** Digits read and written again at their own width are themselves. */
  lemma {:induction false} PaddedDigits(s: string)
    requires s != [] && forall c <- s :: IsDigit(c)
    ensures Padded(DigitsValue(s), |s|) == s && DigitsValue(s) < Pow10(|s|)
  {
    var init, c := s[..|s| - 1], s[|s| - 1];
    assert s == init + [c] && c in s && IsDigit(c);
    DigitsMore(init, c);
    hide DigitsValue, Padded, Pow10, IsDigit, DigitOf, DigitChar;
    if init == [] {
      OneDigit(c);
    } else {
      PaddedDigits(init);
      PaddedMore(DigitsValue(init), DigitOf(c), |init|);
      DigitBack(c);
    }
  }

  lemma DigitBack(c: char)
    requires IsDigit(c)
    ensures DigitOf(c) < 10 && DigitChar(DigitOf(c)) == c
  {
  }

  lemma OneDigit(c: char)
    requires IsDigit(c)
    ensures Padded(DigitOf(c), 1) == [c] && DigitOf(c) < Pow10(1)
  {
    DigitBack(c);
    assert Pow10(1) == 10 * Pow10(0);
  }

  /** One digit more, at a width of more than one. */
  lemma PaddedMore(v: nat, d: nat, width: nat)
    requires d < 10 && width >= 1
    ensures Padded(10 * v + d, width + 1) == Padded(v, width) + [DigitChar(d)]
    ensures v < Pow10(width) ==> 10 * v + d < Pow10(width + 1)
  {
    TenTimes(v, d);
  }

  lemma TenTimes(v: nat, d: nat)
    requires d < 10
    ensures (10 * v + d) / 10 == v && (10 * v + d) % 10 == d
  {
  }

  function Zeros(k: int): string {
    seq(if k < 0 then 0 else k, _ => '0')
  }

  lemma {:induction false} PaddedZero(k: nat)
    requires k >= 1
    ensures Padded(0, k) == Zeros(k)
  {
    if k > 1 { PaddedZero(k - 1); }
  }

  /** What is still to be written to the left of the digits already there. */
  function Left(v: int, w: int): string {
    if v <= 0 then Zeros(w) else Padded(v, if w < 0 then 0 else w)
  }

  lemma LeftStep(v: nat, w: int)
    ensures v > 0 ==> Left(v, w) == Left(v / 10, w - 1) + [DigitChar(v % 10)]
    ensures v == 0 && w > 0 ==> Left(v, w) == Left(v, w - 1) + ['0']
  {
    if v > 0 && v < 10 && w >= 2 { PaddedZero(w - 1); }
  }

  lemma {:induction false} PowBound(k: nat)
    requires k >= 19
    ensures Pow10(k) > INT64_MAX
  {
    if k > 19 {
      PowBound(k - 1);
    } else {
      assert Pow10(6) == 1000000 by { assert Pow10(3) == 1000; }
      PowAdd(6, 6);
      PowAdd(12, 6);
      assert Pow10(19) == 10 * Pow10(18);
    }
  }

  lemma {:induction false} PowAdd(a: nat, b: nat)
    ensures Pow10(a + b) == Pow10(a) * Pow10(b)
  {
    if a > 0 {
      PowAdd(a - 1, b);
      assert Pow10(a + b) == 10 * Pow10(a - 1 + b);
    }
  }

  lemma PowStep(v: nat, pos: nat)
    requires 0 < v < Pow10(pos)
    ensures pos >= 1 && v / 10 < Pow10(pos - 1)
  {
  }

  lemma LeftStart(val: int, width: nat)
    requires width >= 1
    ensures Padded(if val < 0 then 0 else val, width) == Left(val, width)
    ensures Left(0, 0) == []
  {
    PaddedZero(width);
  }

  lemma LeftEnd(w: int)
    requires w <= 0
    ensures Left(0, w) == []
  {
  }

  /** appendIntPadded, from right to left into a fixed buffer: no int64 overruns it. */
  method AppendIntPadded(buf: string, val: int, width: nat) returns (r: string)
    requires 1 <= width <= 20 && val <= INT64_MAX
    ensures r == buf + Padded(if val < 0 then 0 else val, width)
  {
    hide Padded, Left, Pow10, Zeros;
    var tmp := new char[20];
    var pos, v := 20, val;
    ghost var all := Left(val, width);
    LeftStart(val, width);
    if val == 0 {
      pos := 19;
      tmp[pos] := '0';
      assert tmp[19..] == ['0'];
      LeftStep(0, width);
    } else {
      PowBound(20);
      assert all == Left(v, width) + tmp[20..];
      while v > 0
        invariant 0 <= pos <= 20 && v < Pow10(pos) && (v < 0 ==> pos == 20 && v == val)
        invariant all == Left(v, width - (20 - pos)) + tmp[pos..]
      {
        LeftStep(v, width - (20 - pos));
        PowStep(v, pos);
        var digit := v % 10;
        ghost var was := tmp[pos..];
        pos := pos - 1;
        tmp[pos] := '0' + digit as char;
        assert tmp[pos..] == [DigitChar(digit)] + was;
        v := v / 10;
      }
    }
    LeftOfNone(v, width - (20 - pos));
    while 20 - pos < width
      invariant 0 <= pos <= 20
      invariant all == Left(0, width - (20 - pos)) + tmp[pos..]
    {
      LeftStep(0, width - (20 - pos));
      pos := pos - 1;
      tmp[pos] := '0';
      assert tmp[pos..] == ['0'] + tmp[pos + 1..];
    }
    LeftEnd(width - (20 - pos));
    r := buf + tmp[pos..];
  }

  lemma LeftOfNone(v: int, w: int)
    requires v <= 0
    ensures Left(v, w) == Left(0, w)
  {
  }

  // ---- Instants ----

  const SECOND: nat := 1_000_000
  const DAY: nat := 86_400_000_000

  /** An instant in UTC: microseconds since the start of year 0. */
  type Instant = nat

  datatype Fields = Fields(date: Date, hour: nat, minute: nat, second: nat, micro: nat)

  predicate ValidClock(f: Fields) {
    f.hour < 24 && f.minute < 60 && f.second < 60 && f.micro < SECOND
  }

  /** time.Date. */
  function InstantOf(f: Fields): Instant
    requires 1 <= f.date.month <= 12 && 1 <= f.date.day
  {
    DaysOf(f.date.year, f.date.month, f.date.day) * DAY + ((f.hour * 60 + f.minute) * 60 + f.second) * SECOND + f.micro
  }

  function FieldsOf(t: Instant): Fields {
    var clock := t % DAY;
    Fields(DateOf(t / DAY), clock / SECOND / 3600, clock / SECOND / 60 % 60, clock / SECOND % 60, clock % SECOND)
  }

  lemma ClockParts(f: Fields)
    requires ValidClock(f)
    ensures var c := ((f.hour * 60 + f.minute) * 60 + f.second) * SECOND + f.micro;
            c < DAY && c / SECOND / 3600 == f.hour && c / SECOND / 60 % 60 == f.minute && c / SECOND % 60 == f.second
            && c % SECOND == f.micro
  {
    var secs := (f.hour * 60 + f.minute) * 60 + f.second;
    var c := secs * SECOND + f.micro;
    assert c / SECOND == secs && c % SECOND == f.micro;
    assert secs / 60 == f.hour * 60 + f.minute && secs % 60 == f.second;
    assert secs / 3600 == f.hour;
  }

  lemma DayParts(days: nat, clock: nat)
    requires clock < DAY
    ensures (days * DAY + clock) / DAY == days && (days * DAY + clock) % DAY == clock
  {
  }

  lemma FieldsInstant(f: Fields)
    requires Real(f.date) && ValidClock(f)
    ensures FieldsOf(InstantOf(f)) == f
  {
    var clock := ((f.hour * 60 + f.minute) * 60 + f.second) * SECOND + f.micro;
    var days := DaysOf(f.date.year, f.date.month, f.date.day);
    ClockParts(f);
    DayParts(days, clock);
    DayKept(f.date.year, f.date.month, f.date.day);
    assert InstantOf(f) == days * DAY + clock;
  }

  lemma InstantFields(t: Instant)
    ensures var f := FieldsOf(t); Real(f.date) && ValidClock(f) && InstantOf(f) == t
  {
    DateOfDays(t / DAY);
    var clock := t % DAY;
    var secs := clock / SECOND;
    assert clock == secs * SECOND + clock % SECOND;
    assert secs == (secs / 3600 * 60 + secs / 60 % 60) * 60 + secs % 60 by {
      assert secs / 60 == secs / 3600 * 60 + secs / 60 % 60;
    }
  }

  // ---- The text form ----

  function FieldsText(f: Fields): string {
    Padded(f.date.year, 4) + ['-'] + Padded(f.date.month, 2) + ['-'] + Padded(f.date.day, 2) + ['T']
    + Padded(f.hour, 2) + [':'] + Padded(f.minute, 2) + [':'] + Padded(f.second, 2) + ['.'] + Padded(f.micro, 6) + ['Z']
  }

  /** appendTimestampMicro, for years from 0 on. */
  function FormatTimestamp(t: Instant): string {
    FieldsText(FieldsOf(t))
  }

  predicate AllDigits(s: string) {
    forall c <- s :: IsDigit(c)
  }

  /** timestampPattern. */
  predicate InPattern(s: string) {
    |s| == 27 && s[4] == '-' && s[7] == '-' && s[10] == 'T' && s[13] == ':' && s[16] == ':' && s[19] == '.' && s[26] == 'Z'
    && AllDigits(s[0..4]) && AllDigits(s[5..7]) && AllDigits(s[8..10])
    && AllDigits(s[11..13]) && AllDigits(s[14..16]) && AllDigits(s[17..19]) && AllDigits(s[20..26])
  }

  function Spelled(s: string): Fields
    requires InPattern(s)
  {
    Fields(Date(DigitsValue(s[0..4]), DigitsValue(s[5..7]), DigitsValue(s[8..10])),
           DigitsValue(s[11..13]), DigitsValue(s[14..16]), DigitsValue(s[17..19]), DigitsValue(s[20..26]))
  }

  /** parseTimestamp: a real instant of the years 0001 to 9999, or nothing. */
  function ParseTimestamp(s: string): Option<Instant> {
    if !InPattern(s) then None
    else
      var f := Spelled(s);
      if f.date.year < 1 || f.date.month < 1 || f.date.month > 12 || f.date.day < 1 || f.hour > 23 || f.minute > 59 || f.second > 59
      then None
      else
        var t := InstantOf(f);
        if DateOf(t / DAY).day != f.date.day then None else Some(t)
  }

  lemma PatternPieces(s: string)
    requires InPattern(s)
    ensures s == s[0..4] + ['-'] + s[5..7] + ['-'] + s[8..10] + ['T'] + s[11..13] + [':'] + s[14..16] + [':']
                 + s[17..19] + ['.'] + s[20..26] + ['Z']
  {
  }

  lemma MicroBound(s: string)
    requires InPattern(s)
    ensures DigitsValue(s[20..26]) < SECOND
  {
    PaddedDigits(s[20..26]);
    assert Pow10(6) == 1000000 by { assert Pow10(3) == 1000; }
  }

  /** A string accepted is the only one for its instant: formatting what was parsed gives it back. */
  lemma FormatParsed(s: string)
    requires ParseTimestamp(s).Some?
    ensures FormatTimestamp(ParseTimestamp(s).value) == s
  {
    var f := Spelled(s);
    MicroBound(s);
    var days := DaysOf(f.date.year, f.date.month, f.date.day);
    var clock := ((f.hour * 60 + f.minute) * 60 + f.second) * SECOND + f.micro;
    ClockParts(f);
    DayParts(days, clock);
    DayKept(f.date.year, f.date.month, f.date.day);
    hide DaysOf, DateOf;
    FieldsInstant(f);
    SpelledText(s);
  }

  lemma SpelledText(s: string)
    requires InPattern(s)
    ensures FieldsText(Spelled(s)) == s
  {
    PaddedDigits(s[0..4]);
    PaddedDigits(s[5..7]);
    PaddedDigits(s[8..10]);
    PaddedDigits(s[11..13]);
    PaddedDigits(s[14..16]);
    PaddedDigits(s[17..19]);
    PaddedDigits(s[20..26]);
    hide Padded, DigitsValue;
    PatternPieces(s);
  }

  lemma PowSmall()
    ensures Pow10(2) == 100 && Pow10(4) == 10000 && Pow10(6) == SECOND
  {
    assert Pow10(3) == 1000;
    assert Pow10(5) == 100000;
  }

  predicate Sized(a: string, n: nat) {
    |a| == n && AllDigits(a)
  }

  lemma TextPieces(y: string, mo: string, d: string, h: string, mi: string, s: string, us: string)
    requires Sized(y, 4) && Sized(mo, 2) && Sized(d, 2) && Sized(h, 2) && Sized(mi, 2) && Sized(s, 2) && Sized(us, 6)
    ensures var all := y + ['-'] + mo + ['-'] + d + ['T'] + h + [':'] + mi + [':'] + s + ['.'] + us + ['Z'];
            && |all| == 27 && all[0..4] == y && all[5..7] == mo && all[8..10] == d && all[11..13] == h && all[14..16] == mi
            && all[17..19] == s && all[20..26] == us && InPattern(all)
  {
    hide AllDigits;
    var all := y + ['-'] + mo + ['-'] + d + ['T'] + h + [':'] + mi + [':'] + s + ['.'] + us + ['Z'];
    assert all[0..4] == y && all[5..7] == mo && all[8..10] == d;
    assert all[11..13] == h && all[14..16] == mi && all[17..19] == s && all[20..26] == us;
  }

  /** Every instant of the years 0001 to 9999 is written so that it reads back. */
  lemma ParseFormatted(t: Instant)
    requires 1 <= FieldsOf(t).date.year <= 9999
    ensures ParseTimestamp(FormatTimestamp(t)) == Some(t)
  {
    var f := FieldsOf(t);
    InstantFields(t);
    WrittenBack(f);
    hide DaysOf, DateOf, FieldsText;
    DayParts2(t);
  }

  lemma DayParts2(t: Instant)
    ensures FieldsOf(t).date == DateOf(t / DAY)
  {
  }

  lemma WrittenBack(f: Fields)
    requires Real(f.date) && ValidClock(f) && f.date.year <= 9999
    ensures InPattern(FieldsText(f)) && Spelled(FieldsText(f)) == f
  {
    PowSmall();
    PaddedValue(f.date.year, 4);
    PaddedValue(f.date.month, 2);
    PaddedValue(f.date.day, 2);
    PaddedValue(f.hour, 2);
    PaddedValue(f.minute, 2);
    PaddedValue(f.second, 2);
    PaddedValue(f.micro, 6);
    hide Padded, DigitsValue, Pow10, InPattern;
    TextPieces(Padded(f.date.year, 4), Padded(f.date.month, 2), Padded(f.date.day, 2), Padded(f.hour, 2),
               Padded(f.minute, 2), Padded(f.second, 2), Padded(f.micro, 6));
  }

  /**
   * What is accepted, by the table of months and the rule for leap years, and
   * which instant it is, by the closed form of the calendar.
   */
  lemma AcceptedDates(s: string)
    ensures ParseTimestamp(s).Some? <==>
              && InPattern(s)
              && var y, m, d := DigitsValue(s[0..4]), DigitsValue(s[5..7]), DigitsValue(s[8..10]);
                 && 1 <= y && 1 <= m <= 12
                 && 1 <= d <= DAYS_IN_MONTH[m - 1] + (if m == 2 && ((y % 4 == 0 && y % 100 != 0) || y % 400 == 0) then 1 else 0)
                 && DigitsValue(s[11..13]) <= 23 && DigitsValue(s[14..16]) <= 59 && DigitsValue(s[17..19]) <= 59
    ensures ParseTimestamp(s).Some? ==>
              var y, m, d := DigitsValue(s[0..4]), DigitsValue(s[5..7]), DigitsValue(s[8..10]);
              var y', m' := if m <= 2 then y - 1 else y, if m <= 2 then m + 9 else m - 3;
              ParseTimestamp(s).value == (365 * y' + y' / 4 - y' / 100 + y' / 400 + (153 * m' + 2) / 5 + d + 59) * 86_400_000_000
                + DigitsValue(s[11..13]) * 3_600_000_000 + DigitsValue(s[14..16]) * 60_000_000 + DigitsValue(s[17..19]) * 1_000_000
                + DigitsValue(s[20..26])
  {
    hide DigitsValue, DaysOf, DateOf, MonthLength, InstantOf;
    if InPattern(s) {
      var f := Spelled(s);
      MicroBound(s);
      if 1 <= f.date.month <= 12 && 1 <= f.date.day && f.hour <= 23 && f.minute <= 59 && f.second <= 59 {
        InstantCounted(f);
        MonthTable(f.date.year, f.date.month);
      }
    }
  }

  lemma InstantCounted(f: Fields)
    requires 1 <= f.date.month <= 12 && 1 <= f.date.day && ValidClock(f)
    ensures DateOf(InstantOf(f) / DAY).day == f.date.day <==> f.date.day <= MonthLength(f.date.year, f.date.month)
    ensures var y, m, d := f.date.year, f.date.month, f.date.day;
            var y', m' := if m <= 2 then y - 1 else y, if m <= 2 then m + 9 else m - 3;
            InstantOf(f) == (365 * y' + y' / 4 - y' / 100 + y' / 400 + (153 * m' + 2) / 5 + d + 59) * 86_400_000_000
              + f.hour * 3_600_000_000 + f.minute * 60_000_000 + f.second * 1_000_000 + f.micro
  {
    hide DaysOf, DateOf, MonthLength;
    var days, clock := DaysOf(f.date.year, f.date.month, f.date.day), ((f.hour * 60 + f.minute) * 60 + f.second) * SECOND + f.micro;
    ClockParts(f);
    DayParts(days, clock);
    assert InstantOf(f) == days * DAY + clock;
    DayKept(f.date.year, f.date.month, f.date.day);
    CivilDays(f.date.year, f.date.month, f.date.day);
  }

  /** The strings accepted are exactly what is written for the instants of those years. */
  lemma AcceptedExactly(s: string, t: Instant)
    ensures ParseTimestamp(s) == Some(t) <==> FormatTimestamp(t) == s && 1 <= FieldsOf(t).date.year <= 9999
  {
    if ParseTimestamp(s) == Some(t) {
      FormatParsed(s);
      YearKept(s);
    }
    if FormatTimestamp(t) == s && 1 <= FieldsOf(t).date.year <= 9999 {
      ParseFormatted(t);
    }
  }

  lemma YearKept(s: string)
    requires ParseTimestamp(s).Some?
    ensures 1 <= FieldsOf(ParseTimestamp(s).value).date.year <= 9999
  {
    var f := Spelled(s);
    MicroBound(s);
    PaddedDigits(s[0..4]);
    PowSmall();
    var days := DaysOf(f.date.year, f.date.month, f.date.day);
    var clock := ((f.hour * 60 + f.minute) * 60 + f.second) * SECOND + f.micro;
    ClockParts(f);
    DayParts(days, clock);
    DayKept(f.date.year, f.date.month, f.date.day);
    hide DaysOf, DateOf;
    FieldsInstant(f);
  }

  // ---- How long a decimal is ----

  lemma {:induction false} DecimalShape(n: nat)
    ensures Decimal(n)[0] == '0' ==> n == 0 && Decimal(n) == "0"
    ensures n < Pow10(19) ==> |Decimal(n)| <= 19
  {
    DecimalLength(n, 19);
    LeadingDigit(n);
  }

  lemma {:induction false} LeadingDigit(n: nat)
    ensures Decimal(n)[0] == '0' ==> n == 0 && Decimal(n) == "0"
  {
    if n >= 10 { LeadingDigit(n / 10); }
  }

  lemma {:induction false} DecimalLength(n: nat, k: nat)
    requires k >= 1
    ensures n < Pow10(k) ==> |Decimal(n)| <= k
  {
    if n >= 10 && n < Pow10(k) {
      assert Pow10(1) == 10 * Pow10(0);
      DecimalLength(n / 10, k - 1);
    }
  }

  lemma PowNineteen()
    ensures INT64_MAX < Pow10(19)
  {
    PowAdd(9, 10);
    PowAdd(4, 5);
    PowAdd(5, 5);
    assert Pow10(4) == 10000 && Pow10(5) == 100000;
  }

  // ---- What is in shape is ASCII ----

  lemma DigitAt(s: string, a: nat, b: nat, i: nat)
    requires a <= i < b <= |s| && AllDigits(s[a..b])
    ensures IsDigit(s[i])
  {
    assert s[i] == s[a..b][i - a];
  }

  lemma PatternLow(s: string)
    requires InPattern(s)
    ensures |s| == 27 && Low(s)
  {
    forall i | 0 <= i < |s| ensures s[i] < 128 as char {
      if i < 4 { DigitAt(s, 0, 4, i); }
      else if 5 <= i < 7 { DigitAt(s, 5, 7, i); }
      else if 8 <= i < 10 { DigitAt(s, 8, 10, i); }
      else if 11 <= i < 13 { DigitAt(s, 11, 13, i); }
      else if 14 <= i < 16 { DigitAt(s, 14, 16, i); }
      else if 17 <= i < 19 { DigitAt(s, 17, 19, i); }
      else if 20 <= i < 26 { DigitAt(s, 20, 26, i); }
    }
  }

  lemma StampLow(s: string)
    requires ParseTimestamp(s).Some?
    ensures |s| == 27 && Low(s)
  {
    PatternLow(s);
  }
}
