/**
  Instants and their RFC 3339 text (section 5.6 of RFC 3339), as Go's time package prints
  them with the layout RFC3339Nano and parses them back.
  An instant is a number of nanoseconds since Go's zero time, 0001-01-01T00:00:00Z.
*/
module Rfc3339 {
  import opened Text

  type Instant = int

  const SECOND: int := 1_000_000_000
  const DAY: int := 86_400_000_000_000
  /** time.Unix(0, 0). */
  const UNIX_EPOCH: Instant := 719_162 * DAY

  // ---------- calendar ----------

  predicate Leap(y: int) { y % 4 == 0 && (y % 100 != 0 || y % 400 == 0) }

  /** Days from 0001-01-01 to the first of January of year y. */
  function YearStart(y: int): int {
    365 * (y - 1) + (y - 1) / 4 - (y - 1) / 100 + (y - 1) / 400
  }

  function MonthStart(m: int, leap: bool): int
    requires 1 <= m <= 13
  {
    var f := if leap then 1 else 0;
    if m == 1 then 0 else if m == 2 then 31 else if m == 3 then 59 + f
    else if m == 4 then 90 + f else if m == 5 then 120 + f else if m == 6 then 151 + f
    else if m == 7 then 181 + f else if m == 8 then 212 + f else if m == 9 then 243 + f
    else if m == 10 then 273 + f else if m == 11 then 304 + f else if m == 12 then 334 + f
    else 365 + f
  }

  function DaysIn(m: int, y: int): (n: int)
    requires 1 <= m <= 12
    ensures n == if m == 2 then (if (y % 4 == 0 && y % 100 != 0) || y % 400 == 0 then 29 else 28)
                 else if m == 4 || m == 6 || m == 9 || m == 11 then 30 else 31
  {
    CenturiesDivide(y);
    MonthStart(m + 1, Leap(y)) - MonthStart(m, Leap(y))
  }

  datatype Date = Date(year: int, month: int, day: int)

  predicate ValidDate(d: Date) {
    1 <= d.month <= 12 && 1 <= d.day <= DaysIn(d.month, d.year)
  }

  function DayNumber(d: Date): int
    requires 1 <= d.month <= 12
  {
    YearStart(d.year) + MonthStart(d.month, Leap(d.year)) + d.day - 1
  }

  /** Day 0 is the first day of year 1, and the days follow one another without gaps. */
  lemma DaysInARow(d: Date)
    requires ValidDate(d)
    ensures DayNumber(Date(1, 1, 1)) == 0
    ensures d.day < DaysIn(d.month, d.year) ==> DayNumber(Date(d.year, d.month, d.day + 1)) == DayNumber(d) + 1
    ensures d.day == DaysIn(d.month, d.year) && d.month < 12 ==> DayNumber(Date(d.year, d.month + 1, 1)) == DayNumber(d) + 1
    ensures d.month == 12 && d.day == 31 ==> DayNumber(Date(d.year + 1, 1, 1)) == DayNumber(d) + 1
  {
    YearLength(d.year);
  }

  lemma FloorSteps(x: int)
    ensures (x + 1) / 4 == x / 4 + (if (x + 1) % 4 == 0 then 1 else 0)
    ensures (x + 1) / 100 == x / 100 + (if (x + 1) % 100 == 0 then 1 else 0)
    ensures (x + 1) / 400 == x / 400 + (if (x + 1) % 400 == 0 then 1 else 0)
  {
  }

  lemma HundredDivides(k: int)
    ensures (100 * k) % 100 == 0
  {
  }

  lemma FourDivides(k: int)
    ensures (4 * k) % 4 == 0
  {
  }

  lemma CenturiesDivide(y: int)
    ensures y % 400 == 0 ==> y % 100 == 0
    ensures y % 100 == 0 ==> y % 4 == 0
  {
    HundredDivides(4 * (y / 400));
    FourDivides(25 * (y / 100));
  }

  lemma YearLength(y: int)
    ensures YearStart(y + 1) == YearStart(y) + MonthStart(13, Leap(y))
  {
    FloorSteps(y - 1);
    CenturiesDivide(y);
  }

  /** The mean Gregorian year gives the year of a day to within one. */
  lemma YearGuess(n: int, g: int)
    requires g == n * 400 / 146097 + 1
    ensures YearStart(g - 1) <= n < YearStart(g + 2)
  {
  }

  /** The year a day lies in. */
  function YearOf(n: int): (y: int)
    ensures YearStart(y) <= n < YearStart(y + 1)
  {
    var g := n * 400 / 146097 + 1;
    YearGuess(n, g);
    if n < YearStart(g) then g - 1
    else if n < YearStart(g + 1) then g
    else g + 1
  }

  function MonthOf(doy: int, leap: bool): (m: int)
    requires 0 <= doy < MonthStart(13, leap)
    ensures 1 <= m <= 12 && MonthStart(m, leap) <= doy < MonthStart(m + 1, leap)
  {
    if doy < MonthStart(2, leap) then 1 else if doy < MonthStart(3, leap) then 2
    else if doy < MonthStart(4, leap) then 3 else if doy < MonthStart(5, leap) then 4
    else if doy < MonthStart(6, leap) then 5 else if doy < MonthStart(7, leap) then 6
    else if doy < MonthStart(8, leap) then 7 else if doy < MonthStart(9, leap) then 8
    else if doy < MonthStart(10, leap) then 9 else if doy < MonthStart(11, leap) then 10
    else if doy < MonthStart(12, leap) then 11 else 12
  }

  /** The calendar date of a day number; DayNumber is its inverse. */
  function DateOf(n: int): (d: Date)
    ensures ValidDate(d) && DayNumber(d) == n
  {
    var y := YearOf(n);
    YearLength(y);
    var doy := n - YearStart(y);
    var m := MonthOf(doy, Leap(y));
    Date(y, m, doy - MonthStart(m, Leap(y)) + 1)
  }

  // ---------- printing ----------

  function Digit(n: int): char
    requires 0 <= n <= 9
  {
    ('0' as int + n) as char
  }

  predicate IsDigit(c: char) { '0' <= c <= '9' }

  function Value(c: char): int
    requires IsDigit(c)
  {
    c as int - '0' as int
  }

  function Pad2(n: int): (s: string)
    requires 0 <= n <= 99
    ensures |s| == 2 && IsDigit(s[0]) && IsDigit(s[1])
  {
    [Digit(n / 10), Digit(n % 10)]
  }

  /** The year as Go prints it: at least four digits, a minus sign for years before zero. */
  function YearText(y: int): string {
    if y < 0 then "-" + YearDigits(-y) else YearDigits(y)
  }

  function YearDigits(y: int): (s: string)
    requires 0 <= y
    ensures y <= 9999 ==> |s| == 4
    ensures forall i :: 0 <= i < |s| ==> IsDigit(s[i])
  {
    if y <= 9999 then [Digit(y / 1000), Digit(y / 100 % 10), Digit(y / 10 % 10), Digit(y % 10)]
    else YearDigits(y / 10) + [Digit(y % 10)]
  }

  /** A fraction of a second in width digits, trailing zeros dropped. */
  function FractionDigits(f: int, width: nat): (s: string)
    requires 0 <= f < Pow10(width)
    ensures |s| <= width
    ensures forall i :: 0 <= i < |s| ==> IsDigit(s[i])
    ensures f != 0 <==> s != ""
    decreases width
  {
    if f == 0 then ""
    else
      var p := Pow10(width - 1);
      LeadingDigit(f, p);
      [Digit(f / p)] + FractionDigits(f % p, width - 1)
  }

  function Pow10(k: nat): (p: int)
    ensures p >= 1
  {
    if k == 0 then 1 else 10 * Pow10(k - 1)
  }

  lemma LeadingDigit(f: int, p: int)
    requires p >= 1 && 0 <= f < 10 * p
    ensures 0 <= f / p <= 9 && 0 <= f % p < p && f == f / p * p + f % p
  {
    assert f == p * (f / p) + f % p;
    assert f / p <= 9 by {
      if f / p > 9 {
        MulMonotone(p, 10, f / p);
      }
    }
    assert 0 <= f / p by {
      if f / p < 0 {
        MulMonotone(p, f / p, -1);
      }
    }
  }

  lemma MulMonotone(p: int, x: int, y: int)
    requires p >= 0 && x <= y
    ensures p * x <= p * y
  {
  }

  function Fraction(ns: int): string
    requires 0 <= ns < SECOND
  {
    assert Pow10(9) == SECOND;
    if ns == 0 then "" else "." + FractionDigits(ns, 9)
  }

  function ClockText(sec: int, ns: int): string
    requires 0 <= sec < 86400 && 0 <= ns < SECOND
  {
    Pad2(sec / 3600) + ":" + Pad2(sec / 60 % 60) + ":" + Pad2(sec % 60) + (Fraction(ns) + "Z")
  }

  function DateText(d: Date): string
    requires ValidDate(d)
  {
    YearText(d.year) + "-" + Pad2(d.month) + "-" + Pad2(d.day) + "T"
  }

  /** t.UTC().Format(time.RFC3339Nano). */
  function Format(t: Instant): string {
    var r := t % DAY;
    DateText(DateOf(t / DAY)) + ClockText(r / SECOND, r % SECOND)
  }

  /** Instants whose year has exactly four digits: the ones RFC 3339 can write. */
  predicate Representable(t: Instant) {
    0 <= DateOf(t / DAY).year <= 9999
  }

  // ---------- parsing ----------

  /** Two digits at position i, as a number in lo..hi. */
  function Num2(s: string, i: nat, lo: int, hi: int): Option<int> {
    if i + 2 <= |s| && IsDigit(s[i]) && IsDigit(s[i + 1]) then
      var n := 10 * Value(s[i]) + Value(s[i + 1]);
      if lo <= n <= hi then Some(n) else None
    else None
  }

  function Num4(s: string): Option<int> {
    if 4 <= |s| && IsDigit(s[0]) && IsDigit(s[1]) && IsDigit(s[2]) && IsDigit(s[3]) then
      Some(1000 * Value(s[0]) + 100 * Value(s[1]) + 10 * Value(s[2]) + Value(s[3]))
    else None
  }

  function DigitRun(s: string): (n: nat)
    ensures n <= |s| && forall i :: 0 <= i < n ==> IsDigit(s[i])
  {
    if s != "" && IsDigit(s[0]) then 1 + DigitRun(s[1..]) else 0
  }

  /** The digits read as a fraction with width decimal places; further digits are dropped. */
  function ReadFraction(s: string, width: nat): (f: int)
    requires forall i :: 0 <= i < |s| ==> IsDigit(s[i])
    ensures 0 <= f < Pow10(width)
    decreases width
  {
    if s == "" || width == 0 then 0
    else
      var f := ReadFraction(s[1..], width - 1);
      DigitBound(Value(s[0]), Pow10(width - 1), f);
      Value(s[0]) * Pow10(width - 1) + f
  }

  lemma DigitBound(v: int, p: int, f: int)
    requires 0 <= v <= 9 && 0 <= f < p
    ensures 0 <= v * p + f < 10 * p
  {
    MulMonotone(p, v, 9);
    MulMonotone(p, 0, v);
  }

  /** The zone suffix: Z, or a signed hh:mm offset (hours up to 24 and minutes up to 60, as Go allows). */
  function Offset(s: string): Option<int> {
    if s == "Z" then Some(0)
    else if |s| == 6 && (s[0] == '+' || s[0] == '-') && s[3] == ':' then
      var h, m := Num2(s, 1, 0, 24), Num2(s, 4, 0, 60);
      if h.Some? && m.Some? then
        var o := (h.value * 3600 + m.value * 60) * SECOND;
        Some(if s[0] == '+' then o else -o)
      else None
    else None
  }

  /** From the seconds on: an optional fraction (point or comma), then the zone. */
  function Tail(s: string): Option<(int, int)> {
    var n := if s != "" && (s[0] == '.' || s[0] == ',') then DigitRun(s[1..]) else 0;
    if n > 0 then
      var o := Offset(s[1 + n..]);
      if o.Some? then Some((ReadFraction(s[1..1 + n], 9), o.value)) else None
    else
      var o := Offset(s);
      if o.Some? then Some((0, o.value)) else None
  }

  /** hh:mm:ss, fraction and zone; Go also takes an hour of one digit. */
  function Clock(s: string): Option<int> {
    var one := 2 <= |s| && IsDigit(s[0]) && s[1] == ':';
    var h := if one then Some(Value(s[0])) else Num2(s, 0, 0, 23);
    var k := if one then 1 else 2;
    if h.Some? && k + 6 <= |s| && s[k] == ':' && s[k + 3] == ':' then
      var m, sec := Num2(s, k + 1, 0, 59), Num2(s, k + 4, 0, 59);
      var t := Tail(s[k + 6..]);
      if m.Some? && sec.Some? && t.Some? then
        Some((h.value * 3600 + m.value * 60 + sec.value) * SECOND + t.value.0 - t.value.1)
      else None
    else None
  }

  /** yyyy-mm-ddT, as a day number. */
  function ReadDate(s: string): Option<int>
    requires |s| == 11
  {
    var y, m, d := Num4(s), Num2(s, 5, 1, 12), Num2(s, 8, 1, 31);
    if s[4] == '-' && s[7] == '-' && s[10] == 'T' && y.Some? && m.Some? && d.Some? &&
       ValidDate(Date(y.value, m.value, d.value)) then
      Some(DayNumber(Date(y.value, m.value, d.value)))
    else None
  }

  /** time.Parse(time.RFC3339Nano, s). */
  function Parse(s: string): Option<Instant> {
    if |s| < 11 then None else
    var n, c := ReadDate(s[..11]), Clock(s[11..]);
    if n.Some? && c.Some? then Some(n.value * DAY + c.value) else None
  }

  // ---------- round trip ----------

  /** The characters a printed instant is made of. */
  predicate StampChar(c: char) {
    IsDigit(c) || c == '-' || c == 'T' || c == ':' || c == '.' || c == 'Z'
  }

  predicate Stamp(s: string) {
    forall i :: 0 <= i < |s| ==> StampChar(s[i])
  }

  lemma StampConcat(a: string, b: string)
    requires Stamp(a) && Stamp(b)
    ensures Stamp(a + b)
  {
  }

  lemma StampOfDate(d: Date)
    requires ValidDate(d)
    ensures Stamp(DateText(d))
  {
    var y := YearText(d.year);
    assert Stamp("-") && Stamp("T") && Stamp(y) && Stamp(Pad2(d.month)) && Stamp(Pad2(d.day));
    StampConcat(y, "-");
    StampConcat(y + "-", Pad2(d.month));
    StampConcat(y + "-" + Pad2(d.month), "-");
    StampConcat(y + "-" + Pad2(d.month) + "-", Pad2(d.day));
  }

  lemma StampOfClock(sec: int, ns: int)
    requires 0 <= sec < 86400 && 0 <= ns < SECOND
    ensures Stamp(ClockText(sec, ns)) && ClockText(sec, ns) != ""
  {
    var h, m, c := Pad2(sec / 3600), Pad2(sec / 60 % 60), Pad2(sec % 60);
    assert Stamp(":") && Stamp(h) && Stamp(m) && Stamp(c);
    StampOfFraction(ns);
    StampConcat(h, ":");
    StampConcat(h + ":", m);
    StampConcat(h + ":" + m, ":");
    StampConcat(h + ":" + m + ":", c);
  }

  lemma StampOfFraction(ns: int)
    requires 0 <= ns < SECOND
    ensures Stamp(Fraction(ns) + "Z")
  {
    assert Pow10(9) == SECOND;
    assert Stamp(".") && Stamp("Z");
    if ns != 0 {
      StampConcat(".", FractionDigits(ns, 9));
    }
    StampConcat(Fraction(ns), "Z");
  }

  lemma FormatIsStamp(t: Instant)
    ensures Stamp(Format(t)) && Format(t) != ""
  {
    StampOfDate(DateOf(t / DAY));
    StampOfClock(t % DAY / SECOND, t % DAY % SECOND);
  }

  lemma Num2OfPad2(n: int, a: string, b: string, lo: int, hi: int)
    requires 0 <= lo <= n <= hi <= 99
    ensures Num2(a + Pad2(n) + b, |a|, lo, hi) == Some(n)
  {
    var s := a + Pad2(n) + b;
    assert s[|a|] == Pad2(n)[0] && s[|a| + 1] == Pad2(n)[1];
  }

  lemma {:induction false} DigitRunStops(d: string, rest: string)
    requires forall i :: 0 <= i < |d| ==> IsDigit(d[i])
    requires rest != "" && !IsDigit(rest[0])
    ensures DigitRun(d + rest) == |d|
  {
    var s := d + rest;
    if d == "" {
      assert s == rest;
    } else {
      DigitRunStops(d[1..], rest);
      assert s[1..] == d[1..] + rest;
    }
  }

  lemma {:induction false} ReadFractionOfDigits(f: int, width: nat)
    requires 0 <= f < Pow10(width)
    ensures ReadFraction(FractionDigits(f, width), width) == f
    decreases width
  {
    if f != 0 {
      var p := Pow10(width - 1);
      LeadingDigit(f, p);
      ReadFractionOfDigits(f % p, width - 1);
      var s := FractionDigits(f, width);
      assert s[1..] == FractionDigits(f % p, width - 1);
      assert Value(s[0]) == f / p;
    }
  }

  lemma TailOfDigits(d: string)
    requires d != "" && forall i :: 0 <= i < |d| ==> IsDigit(d[i])
    ensures Tail("." + d + "Z") == Some((ReadFraction(d, 9), 0))
  {
    var s := "." + d + "Z";
    assert s[1..] == d + "Z";
    DigitRunStops(d, "Z");
    assert s[1..1 + |d|] == d && s[1 + |d|..] == "Z";
  }

  lemma TailOfFraction(ns: int)
    requires 0 <= ns < SECOND
    ensures Tail(Fraction(ns) + "Z") == Some((ns, 0))
  {
    assert Pow10(9) == SECOND;
    if ns != 0 {
      TailOfDigits(FractionDigits(ns, 9));
      ReadFractionOfDigits(ns, 9);
    } else {
      assert Fraction(ns) + "Z" == "Z";
    }
  }

  lemma SecondsOfDay(sec: int)
    requires 0 <= sec < 86400
    ensures sec / 3600 * 3600 + sec / 60 % 60 * 60 + sec % 60 == sec
    ensures 0 <= sec / 3600 <= 23 && 0 <= sec / 60 % 60 <= 59 && 0 <= sec % 60 <= 59
  {
    assert sec / 60 / 60 == sec / 3600;
  }

  lemma ClockOfFields(h: int, m: int, c: int, ns: int)
    requires 0 <= h <= 23 && 0 <= m <= 59 && 0 <= c <= 59 && 0 <= ns < SECOND
    ensures Clock(Pad2(h) + ":" + Pad2(m) + ":" + Pad2(c) + (Fraction(ns) + "Z")) == Some((h * 3600 + m * 60 + c) * SECOND + ns)
  {
    hide Clock, Pad2, Fraction, Tail;
    var z := Fraction(ns) + "Z";
    TailOfFraction(ns);
    ClockOfParts(h, m, c, z, ns);
  }

  lemma ClockOfParts(h: int, m: int, c: int, z: string, ns: int)
    requires 0 <= h <= 23 && 0 <= m <= 59 && 0 <= c <= 59 && Tail(z) == Some((ns, 0))
    ensures Clock(Pad2(h) + ":" + Pad2(m) + ":" + Pad2(c) + z) == Some((h * 3600 + m * 60 + c) * SECOND + ns)
  {
    var s := Pad2(h) + ":" + Pad2(m) + ":" + Pad2(c) + z;
    assert s == "" + Pad2(h) + (":" + Pad2(m) + ":" + Pad2(c) + z);
    Num2OfPad2(h, "", ":" + Pad2(m) + ":" + Pad2(c) + z, 0, 23);
    assert s == (Pad2(h) + ":") + Pad2(m) + (":" + Pad2(c) + z);
    Num2OfPad2(m, Pad2(h) + ":", ":" + Pad2(c) + z, 0, 59);
    assert s == (Pad2(h) + ":" + Pad2(m) + ":") + Pad2(c) + z;
    Num2OfPad2(c, Pad2(h) + ":" + Pad2(m) + ":", z, 0, 59);
    assert s[2] == ':' && s[5] == ':' && IsDigit(s[1]);
    assert s[8..] == z;
  }

  lemma FourDigits(y: int)
    requires 0 <= y <= 9999
    ensures 1000 * (y / 1000) + 100 * (y / 100 % 10) + 10 * (y / 10 % 10) + y % 10 == y
  {
    assert y / 100 / 10 == y / 1000;
    assert y / 10 / 10 == y / 100;
  }

  lemma YearRoundTrip(y: int, rest: string)
    requires 0 <= y <= 9999
    ensures |YearText(y)| == 4 && Num4(YearText(y) + rest) == Some(y)
  {
    FourDigits(y);
    var s := YearDigits(y) + rest;
    assert s[0] == Digit(y / 1000) && s[1] == Digit(y / 100 % 10) && s[2] == Digit(y / 10 % 10) && s[3] == Digit(y % 10);
  }

  lemma DateFields(y: string, m: int, d: int)
    requires |y| == 4 && 1 <= m <= 12 && 1 <= d <= 31
    ensures var s := y + "-" + Pad2(m) + "-" + Pad2(d) + "T";
      && |s| == 11 && s[4] == '-' && s[7] == '-' && s[10] == 'T'
      && Num2(s, 5, 1, 12) == Some(m) && Num2(s, 8, 1, 31) == Some(d)
      && s == y + ("-" + Pad2(m) + "-" + Pad2(d) + "T")
  {
    var s := y + "-" + Pad2(m) + "-" + Pad2(d) + "T";
    assert s == (y + "-") + Pad2(m) + ("-" + Pad2(d) + "T");
    Num2OfPad2(m, y + "-", "-" + Pad2(d) + "T", 1, 12);
    assert s == (y + "-" + Pad2(m) + "-") + Pad2(d) + "T";
    Num2OfPad2(d, y + "-" + Pad2(m) + "-", "T", 1, 31);
  }

  lemma ReadDateOfText(d: Date)
    requires ValidDate(d) && 0 <= d.year <= 9999
    ensures |DateText(d)| == 11 && ReadDate(DateText(d)) == Some(DayNumber(d))
  {
    YearRoundTrip(d.year, "-" + Pad2(d.month) + "-" + Pad2(d.day) + "T");
    DateFields(YearText(d.year), d.month, d.day);
  }

  lemma ClockOfText(sec: int, ns: int)
    requires 0 <= sec < 86400 && 0 <= ns < SECOND
    ensures Clock(ClockText(sec, ns)) == Some(sec * SECOND + ns)
  {
    hide Clock, Pad2, Fraction;
    SecondsOfDay(sec);
    ClockOfFields(sec / 3600, sec / 60 % 60, sec % 60, ns);
  }

  lemma ParseConcat(x: string, y: string, n: int, v: int)
    requires |x| == 11 && ReadDate(x) == Some(n) && Clock(y) == Some(v)
    ensures Parse(x + y) == Some(n * DAY + v)
  {
    assert (x + y)[..11] == x && (x + y)[11..] == y;
  }

  lemma ParseOfPrint(d: Date, n: int, sec: int, ns: int)
    requires ValidDate(d) && 0 <= d.year <= 9999 && DayNumber(d) == n
    requires 0 <= sec < 86400 && 0 <= ns < SECOND
    ensures Parse(DateText(d) + ClockText(sec, ns)) == Some(n * DAY + (sec * SECOND + ns))
  {
    hide *;
    ReadDateOfText(d);
    ClockOfText(sec, ns);
    ParseConcat(DateText(d), ClockText(sec, ns), n, sec * SECOND + ns);
  }

  lemma SplitInstant(t: Instant)
    ensures 0 <= t % DAY / SECOND < 86400 && 0 <= t % DAY % SECOND < SECOND
    ensures t == t / DAY * DAY + (t % DAY / SECOND * SECOND + t % DAY % SECOND)
  {
  }

  /** Parsing what was printed returns the same instant, to the nanosecond. */
  lemma ParseOfFormat(t: Instant)
    requires Representable(t)
    ensures Parse(Format(t)) == Some(t)
  {
    SplitInstant(t);
    hide DateOf, ClockText, DateText, Parse, DayNumber, ValidDate;
    ParseOfPrint(DateOf(t / DAY), t / DAY, t % DAY / SECOND, t % DAY % SECOND);
  }
}
