/**
  Which texts time.Parse takes for an RFC 3339 instant, and which instant it reads: the fields
  as they stand in the text, fractions of any length, and zone offsets.
*/
module StampTexts {
  import opened Text
  import opened Rfc3339

  ghost predicate AllDigits(s: string) {
    forall i :: 0 <= i < |s| ==> '0' <= s[i] <= '9'
  }

  /** The number a text of digits writes. */
  function Number(s: string): int {
    if s == "" then 0 else 10 * Number(s[..|s| - 1]) + (s[|s| - 1] as int - '0' as int)
  }

  lemma NumberOfTwo(s: string, i: nat)
    requires AllDigits(s) && i + 2 <= |s|
    ensures Number(s[i..i + 2]) == 10 * (s[i] as int - 48) + (s[i + 1] as int - 48)
  {
    var t := s[i..i + 2];
    assert t[..1][..0] == "";
    assert Number(t[..1]) == t[0] as int - 48;
  }

  lemma NumberOfFour(s: string)
    requires AllDigits(s) && 4 <= |s|
    ensures Number(s[..4]) == 1000 * (s[0] as int - 48) + 100 * (s[1] as int - 48) + 10 * (s[2] as int - 48) + (s[3] as int - 48)
  {
    var t := s[..4];
    NumberOfTwo(s, 0);
    assert t[..3][..2] == s[0..2] && t[..3] == s[..3];
  }

  // ---------- fractions ----------

  lemma {:induction false} NumberCons(s: string)
    requires s != "" && AllDigits(s)
    ensures Number(s) == (s[0] as int - 48) * Pow10(|s| - 1) + Number(s[1..])
  {
    if |s| == 1 {
      assert s[..0] == "" && s[1..] == "";
    } else {
      var p, r := s[..|s| - 1], s[1..];
      NumberCons(p);
      assert p[1..] == r[..|r| - 1];
      Horner(s[0] as int - 48, Pow10(|s| - 2), Number(p[1..]));
    }
  }

  lemma Horner(v: int, p: int, r: int)
    ensures 10 * (v * p + r) == v * (10 * p) + 10 * r
  {
  }

  function Zeros(n: nat): string { seq(n, i => '0') }

  lemma {:induction false} NumberOfZeros(n: nat)
    ensures Number(Zeros(n)) == 0
  {
    if n > 0 {
      NumberOfZeros(n - 1);
      assert Zeros(n)[..n - 1] == Zeros(n - 1);
    }
  }

  /** A fraction is read as if it had exactly width digits: further ones are dropped, missing ones are zeros. */
  lemma {:induction false} FractionRead(f: string, width: nat)
    requires AllDigits(f)
    ensures ReadFraction(f, width) == Number((f + Zeros(width))[..width])
    decreases width
  {
    var t := (f + Zeros(width))[..width];
    if f == "" {
      assert t == Zeros(width);
      NumberOfZeros(width);
    } else if width > 0 {
      FractionRead(f[1..], width - 1);
      NumberCons(t);
      assert t[1..] == (f[1..] + Zeros(width - 1))[..width - 1];
    }
  }

  // ---------- the whole text ----------

  /** A sign, two digits of hours up to 24 and two of minutes up to 60; off is the offset in nanoseconds. */
  ghost predicate SignedZone(z: string, sign: char, hm: string, off: int) {
    && AllDigits(hm) && |hm| == 4 && (sign == '+' || sign == '-') && z == [sign] + hm[..2] + ":" + hm[2..]
    && Number(hm[..2]) <= 24 && Number(hm[2..]) <= 60
    && var o := (Number(hm[..2]) * 3600 + Number(hm[2..]) * 60) * 1_000_000_000;
       off == if sign == '+' then o else -o
  }

  ghost predicate Zone(z: string, off: int) {
    (z == "Z" && off == 0) || exists sign, hm :: SignedZone(z, sign, hm, off)
  }

  /** The date, the clock, an optional fraction behind a point or comma, and the zone. */
  function StampText(ds: string, fraction: string, zone: string): string
    requires |ds| == 14
  {
    (ds[..4] + "-" + ds[4..6] + "-" + ds[6..8] + "T") + (ds[8..10] + ":" + ds[10..12] + ":" + ds[12..14] + (fraction + zone))
  }

  lemma Num2Read(s: string, i: nat, lo: int, hi: int, ds: string, k: nat)
    requires AllDigits(ds) && k + 2 <= |ds| && i + 2 <= |s| && s[i] == ds[k] && s[i + 1] == ds[k + 1]
    ensures var n := Number(ds[k..k + 2]); Num2(s, i, lo, hi) == if lo <= n <= hi then Some(n) else None
  {
    NumberOfTwo(ds, k);
  }

  lemma DateRead(ds: string)
    requires |ds| == 14 && AllDigits(ds)
    ensures var s := ds[..4] + "-" + ds[4..6] + "-" + ds[6..8] + "T";
            var y, m, d := Number(ds[..4]), Number(ds[4..6]), Number(ds[6..8]);
      |s| == 11 && ReadDate(s) == if 1 <= m <= 12 && 1 <= d <= DaysIn(m, y) then Some(DayNumber(Date(y, m, d))) else None
  {
    hide Number, Num2;
    var s := ds[..4] + "-" + ds[4..6] + "-" + ds[6..8] + "T";
    NumberOfFour(ds);
    Num2Read(s, 5, 1, 12, ds, 4);
    Num2Read(s, 8, 1, 31, ds, 6);
  }

  lemma SignedRead(zone: string, sign: char, hm: string, off: int)
    requires SignedZone(zone, sign, hm, off)
    ensures Offset(zone) == Some(off) && |zone| == 6 && zone[0] == sign
  {
    hide Number, Num2;
    TwoAreNatural(hm, 0);
    TwoAreNatural(hm, 2);
    assert hm[0..2] == hm[..2] && hm[2..4] == hm[2..];
    assert zone[1] == hm[0] && zone[2] == hm[1] && zone[3] == ':' && zone[4] == hm[2] && zone[5] == hm[3];
    Num2Read(zone, 1, 0, 24, hm, 0);
    Num2Read(zone, 4, 0, 60, hm, 2);
  }

  lemma OffsetRead(zone: string, off: int)
    requires Zone(zone, off)
    ensures Offset(zone) == Some(off) && zone != "" && !IsDigit(zone[0]) && zone[0] != '.' && zone[0] != ','
  {
    hide SignedZone;
    if !(zone == "Z" && off == 0) {
      var sign, hm :| SignedZone(zone, sign, hm, off);
      SignedRead(zone, sign, hm, off);
      assert sign == '+' || sign == '-' by {
        SignIsSign(zone, sign, hm, off);
      }
    }
  }

  lemma SignIsSign(zone: string, sign: char, hm: string, off: int)
    requires SignedZone(zone, sign, hm, off)
    ensures sign == '+' || sign == '-'
  {
  }

  lemma TwoAreNatural(s: string, i: nat)
    requires AllDigits(s) && i + 2 <= |s|
    ensures Number(s[i..i + 2]) >= 0
  {
    NumberOfTwo(s, i);
  }

  predicate IsFraction(f: string) {
    f == "" || (|f| > 1 && (f[0] == '.' || f[0] == ',') && forall i :: 1 <= i < |f| ==> '0' <= f[i] <= '9')
  }

  /** The nanoseconds a fraction writes: its first nine digits, as if zeros followed. */
  function Nanos(f: string): int {
    if f == "" then 0 else Number((f[1..] + "000000000")[..9])
  }

  lemma TailRead(f: string, zone: string, off: int)
    requires IsFraction(f) && Zone(zone, off)
    ensures Tail(f + zone) == Some((Nanos(f), off))
  {
    hide Number, ReadFraction, DigitRun, Offset, Zone;
    OffsetRead(zone, off);
    var s := f + zone;
    if f == "" {
      assert s == zone;
    } else {
      var d := f[1..];
      assert s[1..] == d + zone;
      DigitRunStops(d, zone);
      assert s[1..1 + |d|] == d && s[1 + |d|..] == zone;
      FractionRead(d, 9);
      assert Zeros(9) == "000000000";
    }
  }

  lemma ClockRead(ds: string, f: string, zone: string, off: int)
    requires |ds| == 14 && AllDigits(ds) && IsFraction(f) && Zone(zone, off)
    ensures var s := ds[8..10] + ":" + ds[10..12] + ":" + ds[12..14] + (f + zone);
            var h, m, c := Number(ds[8..10]), Number(ds[10..12]), Number(ds[12..14]);
            Clock(s) == if h <= 23 && m <= 59 && c <= 59 then Some((h * 3600 + m * 60 + c) * SECOND + Nanos(f) - off) else None
  {
    hide Number, Num2, Tail, Zone, IsFraction, Nanos;
    var s := ds[8..10] + ":" + ds[10..12] + ":" + ds[12..14] + (f + zone);
    TailRead(f, zone, off);
    assert s[8..] == f + zone;
    TwoAreNatural(ds, 8);
    TwoAreNatural(ds, 10);
    TwoAreNatural(ds, 12);
    assert s[0] == ds[8] && s[1] == ds[9] && s[2] == ':' && s[3] == ds[10] && s[4] == ds[11] && s[5] == ':' && s[6] == ds[12] && s[7] == ds[13];
    Num2Read(s, 0, 0, 23, ds, 8);
    Num2Read(s, 3, 0, 59, ds, 10);
    Num2Read(s, 6, 0, 59, ds, 12);
  }

  /**
    The instant of a text, by its fields: the days since 0001-01-01, the clock, the first nine
    digits of the fraction, and the zone offset taken off. A text whose fields are out of range
    is refused.
  */
  lemma StampRead(ds: string, f: string, zone: string, off: int)
    requires |ds| == 14 && AllDigits(ds) && IsFraction(f) && Zone(zone, off)
    ensures var y, mo, d := Number(ds[..4]), Number(ds[4..6]), Number(ds[6..8]);
            var h, mi, c := Number(ds[8..10]), Number(ds[10..12]), Number(ds[12..14]);
      Parse(StampText(ds, f, zone)) ==
        if 1 <= mo <= 12 && 1 <= d <= DaysIn(mo, y) && h <= 23 && mi <= 59 && c <= 59
        then Some(DayNumber(Date(y, mo, d)) * 86_400_000_000_000 + (h * 3600 + mi * 60 + c) * 1_000_000_000 + Nanos(f) - off)
        else None
  {
    hide Number, Zone, IsFraction, Nanos, ReadDate, Clock, DayNumber, DaysIn;
    DateRead(ds);
    ClockRead(ds, f, zone, off);
    var a := ds[..4] + "-" + ds[4..6] + "-" + ds[6..8] + "T";
    var b := ds[8..10] + ":" + ds[10..12] + ":" + ds[12..14] + (f + zone);
    assert (a + b)[..11] == a && (a + b)[11..] == b;
  }

  // ---------- what is printed ----------

  lemma {:induction false} NoTrailingZero(f: int, width: nat)
    requires 0 < f < Pow10(width)
    ensures var s := FractionDigits(f, width); s != "" && s[|s| - 1] != '0'
    decreases width
  {
    hide Pow10;
    PowPositive(width);
    var p := Pow10(width - 1);
    LeadingDigit(f, p);
    var rest := FractionDigits(f % p, width - 1);
    assert FractionDigits(f, width) == [Digit(f / p)] + rest;
    if f % p != 0 {
      NoTrailingZero(f % p, width - 1);
    } else {
      assert rest == "";
      assert f / p != 0;
    }
  }

  lemma PowPositive(width: nat)
    ensures width > 0 ==> Pow10(width) == 10 * Pow10(width - 1)
    ensures Pow10(0) == 1
  {
  }

  lemma TextOfFields(y: string, a: string, b: string, h: string, m: string, c: string, f: string, zone: string) returns (ds: string)
    requires |y| == 4 && |a| == |b| == |h| == |m| == |c| == 2
    requires AllDigits(y) && AllDigits(a) && AllDigits(b) && AllDigits(h) && AllDigits(m) && AllDigits(c)
    ensures |ds| == 14 && AllDigits(ds)
    ensures StampText(ds, f, zone) == (y + "-" + a + "-" + b + "T") + (h + ":" + m + ":" + c + (f + zone))
  {
    ds := y + a + b + h + m + c;
    assert ds[..4] == y && ds[4..6] == a && ds[6..8] == b && ds[8..10] == h && ds[10..12] == m && ds[12..14] == c;
    assert forall i :: 0 <= i < 14 ==>
      ds[i] == if i < 4 then y[i] else if i < 6 then a[i - 4] else if i < 8 then b[i - 6]
               else if i < 10 then h[i - 8] else if i < 12 then m[i - 10] else c[i - 12];
  }

  /**
    An instant is printed as a text with these fields in UTC, with a fraction only if it has
    one, and then without zeros at its end.
  */
  lemma PrintedShort(t: Instant) returns (ds: string, f: string)
    requires Representable(t)
    ensures |ds| == 14 && AllDigits(ds) && IsFraction(f) && Format(t) == StampText(ds, f, "Z")
    ensures f == "" <==> t % 1_000_000_000 == 0
    ensures f != "" ==> f[0] == '.' && f[|f| - 1] != '0'
  {
    hide DateOf, FractionDigits, StampText, Pow10, DayNumber;
    SplitInstant(t);
    var d, sec, ns := DateOf(t / DAY), t % DAY / SECOND, t % DAY % SECOND;
    SecondsOfDay(sec);
    f := Fraction(ns);
    NineDigits(ns);
    SameSecond(t);
    YearRoundTrip(d.year, "");
    ds := TextOfFields(YearText(d.year), Pad2(d.month), Pad2(d.day), Pad2(sec / 3600), Pad2(sec / 60 % 60), Pad2(sec % 60), f, "Z");
  }

  lemma NineDigits(ns: int)
    requires 0 <= ns < 1_000_000_000
    ensures IsFraction(Fraction(ns)) && (Fraction(ns) == "" <==> ns == 0)
    ensures ns != 0 ==> Fraction(ns)[0] == '.' && Fraction(ns)[|Fraction(ns)| - 1] != '0'
  {
    hide FractionDigits;
    assert Pow10(9) == SECOND;
    if ns != 0 {
      NoTrailingZero(ns, 9);
      var d := FractionDigits(ns, 9);
      assert Fraction(ns) == "." + d;
    }
  }

  lemma SameSecond(t: int)
    ensures t % DAY % SECOND == 0 <==> t % 1_000_000_000 == 0
  {
    assert DAY == 86400 * SECOND;
  }

  lemma EpochText(ds: string)
    requires ds == "19700101000000"
    ensures StampText(ds, "", "Z") == "1970-01-01T00:00:00Z" && AllDigits(ds)
    ensures ds[..4] == "1970" && ds[4..6] == "01" && ds[6..8] == "01" && ds[8..10] == ds[10..12] == ds[12..14] == "00"
  {
    assert ds[..4] == "1970" && ds[4..6] == "01" && ds[6..8] == "01" && ds[8..10] == ds[10..12] == ds[12..14] == "00";
  }

  lemma EpochFields(ds: string)
    requires ds == "19700101000000"
    ensures Number(ds[..4]) == 1970 && Number(ds[4..6]) == Number(ds[6..8]) == 1
    ensures Number(ds[8..10]) == Number(ds[10..12]) == Number(ds[12..14]) == 0
  {
    hide Number, StampText;
    EpochText(ds);
    NumberOfFour(ds);
    NumberOfTwo(ds, 4);
    NumberOfTwo(ds, 6);
    NumberOfTwo(ds, 8);
  }

  /** time.Unix(0, 0) is the first instant of 1970. */
  lemma UnixEpochRead()
    ensures Parse("1970-01-01T00:00:00Z") == Some(UNIX_EPOCH)
  {
    hide Number, Parse, StampText, AllDigits, Zone;
    var ds := "19700101000000";
    EpochText(ds);
    EpochFields(ds);
    assert Zone("Z", 0) by {
      UtcZone();
    }
    StampRead(ds, "", "Z", 0);
  }

  lemma UtcZone()
    ensures Zone("Z", 0)
  {
  }
}
