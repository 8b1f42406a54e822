/** Datetimes, `isoformat`, and the order of its strings. */
module Timestamps {
  import opened Wrappers
  import opened Decimal

  datatype Zone = Naive | Offset(minutes: int)

  datatype Stamp = Stamp(
    year: nat, month: nat, day: nat,
    hour: nat, minute: nat, second: nat, micro: nat,
    zone: Zone)

  predicate Leap(year: nat) {
    year % 4 == 0 && (year % 100 != 0 || year % 400 == 0)
  }

  function DaysIn(year: nat, month: nat): nat {
    if month == 2 then (if Leap(year) then 29 else 28)
    else if month == 4 || month == 6 || month == 9 || month == 11 then 30
    else 31
  }

  predicate Valid(t: Stamp) {
    && 1 <= t.year <= 9999 && 1 <= t.month <= 12 && 1 <= t.day <= DaysIn(t.year, t.month)
    && t.hour < 24 && t.minute < 60 && t.second < 60 && t.micro < 1000000
    && (t.zone.Offset? ==> -1440 < t.zone.minutes < 1440)
  }

  function ZoneText(zone: Zone): string {
    match zone
    case Naive => ""
    case Offset(m) =>
      var a := if m < 0 then -m else m;
      [if m < 0 then '-' else '+'] + Pad(a / 60, 2) + ":" + Pad(a % 60, 2)
  }

  /** The fraction is written only when there is one. */
  function Tail(micro: nat, zone: Zone): string {
    if micro == 0 then ZoneText(zone) else "." + Pad(micro, 6) + ZoneText(zone)
  }

  function Field(n: nat, width: nat, separator: char, rest: string): string {
    Pad(n, width) + ([separator] + rest)
  }

  function IsoWith(t: Stamp, tail: string): string {
    Field(t.year, 4, '-', Field(t.month, 2, '-', Field(t.day, 2, 'T',
    Field(t.hour, 2, ':', Field(t.minute, 2, ':', Pad(t.second, 2) + tail)))))
  }

  function Iso(t: Stamp): string {
    IsoWith(t, Tail(t.micro, t.zone))
  }

  /** Order of Python strings: by first difference, a proper prefix first. */
  predicate Less(a: string, b: string) {
    b != [] && (a == [] || a[0] < b[0] || (a[0] == b[0] && Less(a[1..], b[1..])))
  }

  lemma {:induction false} LessOfConcat(a: string, b: string, x: string, y: string)
    requires |a| == |b|
    ensures Less(a + x, b + y) <==> Less(a, b) || (a == b && Less(x, y))
  {
    if a == [] {
      assert a + x == x && b + y == y;
    } else {
      assert (a + x)[1..] == a[1..] + x && (b + y)[1..] == b[1..] + y;
      LessOfConcat(a[1..], b[1..], x, y);
      assert a == b <==> a[0] == b[0] && a[1..] == b[1..];
    }
  }

  lemma {:induction false} LessOfPad(m: nat, n: nat, width: nat)
    requires m < Power10(width) && n < Power10(width)
    ensures Less(Pad(m, width), Pad(n, width)) <==> m < n
    ensures Pad(m, width) == Pad(n, width) <==> m == n
  {
    ValueOfPad(m, width);
    ValueOfPad(n, width);
    if width > 0 {
      LessOfPad(m / 10, n / 10, width - 1);
      LessOfConcat(Pad(m / 10, width - 1), Pad(n / 10, width - 1), [Digit(m % 10)], [Digit(n % 10)]);
    }
  }

  lemma LessOfField(m: nat, n: nat, width: nat, separator: char, x: string, y: string)
    requires m < Power10(width) && n < Power10(width)
    ensures Less(Field(m, width, separator, x), Field(n, width, separator, y)) <==> m < n || (m == n && Less(x, y))
  {
    LessOfPad(m, n, width);
    LessOfConcat(Pad(m, width), Pad(n, width), [separator] + x, [separator] + y);
    LessOfConcat([separator], [separator], x, y);
  }

  /** A missing fraction sorts before every fraction, because '+' and '-' sort before '.'. */
  lemma LessOfFractions(m: nat, n: nat, z: string)
    requires m < 1000000 && n < 1000000
    ensures Less("." + Pad(m, 6) + z, "." + Pad(n, 6) + z) <==> m < n
  {
    assert Power10(6) == 1000000 by { assert Power10(3) == 1000; }
    LessOfPad(m, n, 6);
    LessIrreflexive(z);
    LessOfConcat(Pad(m, 6), Pad(n, 6), z, z);
    LessOfConcat(".", ".", Pad(m, 6) + z, Pad(n, 6) + z);
    assert "." + Pad(m, 6) + z == "." + (Pad(m, 6) + z) && "." + Pad(n, 6) + z == "." + (Pad(n, 6) + z);
  }

  /** A zone text, which starts with a sign or is empty, is below any fraction. */
  lemma ZoneBelowFraction(zone: Zone, s: string)
    requires s != [] && s[0] == '.'
    ensures Less(ZoneText(zone), s) && !Less(s, ZoneText(zone))
  {
    var z := ZoneText(zone);
    assert z != [] ==> z[0] == '+' || z[0] == '-';
  }

  lemma LessOfTail(m: nat, n: nat, zone: Zone)
    requires m < 1000000 && n < 1000000
    ensures Less(Tail(m, zone), Tail(n, zone)) <==> m < n
  {
    if m > 0 && n > 0 {
      LessOfFractions(m, n, ZoneText(zone));
    } else if m > 0 {
      ZoneBelowFraction(zone, Tail(m, zone));
    } else if n > 0 {
      ZoneBelowFraction(zone, Tail(n, zone));
    } else {
      LessIrreflexive(ZoneText(zone));
    }
  }

  lemma {:induction false} LessIrreflexive(a: string)
    ensures !Less(a, a)
  {
    if a != [] { LessIrreflexive(a[1..]); }
  }

  lemma {:induction false} LessAsymmetric(a: string, b: string)
    ensures !(Less(a, b) && Less(b, a))
  {
    if a != [] && b != [] { LessAsymmetric(a[1..], b[1..]); }
  }

  /** Wall-clock order down to the second, then `last`. */
  predicate WallBefore(a: Stamp, b: Stamp, last: bool) {
    a.year < b.year || (a.year == b.year &&
    (a.month < b.month || (a.month == b.month &&
    (a.day < b.day || (a.day == b.day &&
    (a.hour < b.hour || (a.hour == b.hour &&
    (a.minute < b.minute || (a.minute == b.minute &&
    (a.second < b.second || (a.second == b.second && last)))))))))))
  }

  lemma LessOfIsoWith(a: Stamp, b: Stamp, x: string, y: string)
    requires Valid(a) && Valid(b)
    ensures Less(IsoWith(a, x), IsoWith(b, y)) <==> WallBefore(a, b, Less(x, y))
  {
    var sa, sb := Pad(a.second, 2) + x, Pad(b.second, 2) + y;
    LessOfPad(a.second, b.second, 2);
    LessOfConcat(Pad(a.second, 2), Pad(b.second, 2), x, y);
    var ma, mb := Field(a.minute, 2, ':', sa), Field(b.minute, 2, ':', sb);
    LessOfField(a.minute, b.minute, 2, ':', sa, sb);
    var ha, hb := Field(a.hour, 2, ':', ma), Field(b.hour, 2, ':', mb);
    LessOfField(a.hour, b.hour, 2, ':', ma, mb);
    var da, db := Field(a.day, 2, 'T', ha), Field(b.day, 2, 'T', hb);
    LessOfField(a.day, b.day, 2, 'T', ha, hb);
    LessOfField(a.month, b.month, 2, '-', da, db);
    assert Power10(4) == 10000 by { assert Power10(2) == 100; }
    LessOfField(a.year, b.year, 4, '-', Field(a.month, 2, '-', da), Field(b.month, 2, '-', db));
  }

  /** Days of the proleptic Gregorian calendar before a year, a month, a day. */
  function DaysBeforeYear(year: nat): nat {
    if year <= 1 then 0 else DaysBeforeYear(year - 1) + if Leap(year - 1) then 366 else 365
  }

  function DaysBeforeMonth(year: nat, month: nat): nat {
    if month <= 1 then 0 else DaysBeforeMonth(year, month - 1) + DaysIn(year, month - 1)
  }

  function DayNumber(year: nat, month: nat, day: nat): nat {
    DaysBeforeYear(year) + DaysBeforeMonth(year, month) + day
  }

  /** Minutes ahead of universal time; a naive stamp is read as universal, like the server's own. */
  function UtcOffset(zone: Zone): int {
    if zone.Offset? then zone.minutes else 0
  }

  /** Microseconds of universal time; a naive value is taken as universal. */
  function Instant(t: Stamp): int {
    var minutes := (DayNumber(t.year, t.month, t.day) * 24 + t.hour) * 60 + t.minute - UtcOffset(t.zone);
    (minutes * 60 + t.second) * 1000000 + t.micro
  }

  /** Years divisible by 4 are leap years, centuries only every fourth. */
  lemma LeapYears(k: nat)
    ensures !Leap(4 * k + 1) && !Leap(4 * k + 2) && !Leap(4 * k + 3)
    ensures Leap(4 * k) <==> k % 25 != 0 || k % 100 == 0
  {
    RemainderOf100(4 * k, k / 25, 4 * (k % 25));
    RemainderOf400(4 * k, k / 100, 4 * (k % 100));
    RemainderOf4(k);
  }

  lemma RemainderOf100(n: nat, q: nat, r: nat)
    requires n == 100 * q + r && r < 100
    ensures n % 100 == r
  {
  }

  lemma RemainderOf400(n: nat, q: nat, r: nat)
    requires n == 400 * q + r && r < 400
    ensures n % 400 == r
  {
  }

  lemma RemainderOf4(k: nat)
    ensures (4 * k) % 4 == 0 && (4 * k + 1) % 4 == 1 && (4 * k + 2) % 4 == 2 && (4 * k + 3) % 4 == 3
  {
  }

  /** The calendar in closed form: a leap day every fourth year, but for centuries, but for every fourth of these. */
  lemma {:induction false} DaysBeforeYearInClosedForm(year: nat)
    requires year >= 1
    ensures DaysBeforeYear(year) == 365 * (year - 1) + (year - 1) / 4 - (year - 1) / 100 + (year - 1) / 400
  {
    if year > 1 {
      DaysBeforeYearInClosedForm(year - 1);
      QuotientSteps(year - 1);
      LeapDays(year - 1);
    }
  }

  lemma QuotientSteps(n: nat)
    requires n >= 1
    ensures n / 4 == (n - 1) / 4 + if n % 4 == 0 then 1 else 0
    ensures n / 100 == (n - 1) / 100 + if n % 100 == 0 then 1 else 0
    ensures n / 400 == (n - 1) / 400 + if n % 400 == 0 then 1 else 0
  {
  }

  lemma LeapDays(n: nat)
    ensures (if Leap(n) then 1 else 0) ==
              (if n % 4 == 0 then 1 else 0) - (if n % 100 == 0 then 1 else 0) + if n % 400 == 0 then 1 else 0
  {
    if n % 100 == 0 { HundredsAreFours(n); }
    if n % 400 == 0 { FourHundredsAreHundreds(n); }
  }

  lemma HundredsAreFours(n: nat)
    requires n % 100 == 0
    ensures n % 4 == 0
  {
    var m := 25 * (n / 100);
    assert n == 4 * m;
  }

  lemma FourHundredsAreHundreds(n: nat)
    requires n % 400 == 0
    ensures n % 100 == 0
  {
    var m := 4 * (n / 400);
    assert n == 100 * m;
  }

  /** The day after a day has the next number, at the end of a month and of a year too. */
  lemma NextDay(year: nat, month: nat, day: nat)
    requires 1 <= year && 1 <= month <= 12 && 1 <= day <= DaysIn(year, month)
    ensures day < DaysIn(year, month) ==> DayNumber(year, month, day + 1) == DayNumber(year, month, day) + 1
    ensures day == DaysIn(year, month) && month < 12 ==>
              DayNumber(year, month + 1, 1) == DayNumber(year, month, day) + 1
    ensures day == DaysIn(year, month) && month == 12 ==>
              DayNumber(year + 1, 1, 1) == DayNumber(year, month, day) + 1
  {
    MonthsOfYear(year);
  }

  /** A later day, hour, minute, second or offset moves the instant by its own length. */
  lemma UnitsOfTime(t: Stamp, n: nat)
    ensures Instant(t.(day := t.day + n)) == Instant(t) + n * 86_400_000_000
    ensures Instant(t.(hour := t.hour + n)) == Instant(t) + n * 3_600_000_000
    ensures Instant(t.(minute := t.minute + n)) == Instant(t) + n * 60_000_000
    ensures Instant(t.(second := t.second + n)) == Instant(t) + n * 1_000_000
    ensures Instant(t.(micro := t.micro + n)) == Instant(t) + n
    ensures t.zone.Offset? ==> Instant(t) == Instant(t.(zone := Naive)) - t.zone.minutes * 60_000_000
  {
  }

  lemma {:induction false} YearsAccumulate(a: nat, b: nat)
    requires 1 <= a < b
    ensures DaysBeforeYear(a) + (if Leap(a) then 366 else 365) <= DaysBeforeYear(b)
  {
    if a < b - 1 { YearsAccumulate(a, b - 1); }
  }

  lemma {:induction false} MonthsAccumulate(year: nat, a: nat, b: nat)
    requires 1 <= a < b
    ensures DaysBeforeMonth(year, a) + DaysIn(year, a) <= DaysBeforeMonth(year, b)
  {
    if a < b - 1 { MonthsAccumulate(year, a, b - 1); }
  }

  lemma MonthsOfYear(year: nat)
    ensures DaysBeforeMonth(year, 12) + 31 == if Leap(year) then 366 else 365
  {
    assert DaysBeforeMonth(year, 4) == 90 + if Leap(year) then 1 else 0 by {
      assert DaysBeforeMonth(year, 2) == 31;
    }
    assert DaysBeforeMonth(year, 8) == DaysBeforeMonth(year, 4) + 122 by {
      assert DaysBeforeMonth(year, 6) == DaysBeforeMonth(year, 4) + 61;
    }
    assert DaysBeforeMonth(year, 10) == DaysBeforeMonth(year, 8) + 61;
  }

  lemma DayNumberMonotone(a: Stamp, b: Stamp)
    requires Valid(a) && Valid(b)
    requires a.year < b.year || (a.year == b.year && (a.month < b.month || (a.month == b.month && a.day < b.day)))
    ensures DayNumber(a.year, a.month, a.day) < DayNumber(b.year, b.month, b.day)
  {
    if a.year < b.year {
      YearsAccumulate(a.year, b.year);
      MonthsOfYear(a.year);
      if a.month < 12 { MonthsAccumulate(a.year, a.month, 12); }
    } else if a.month < b.month {
      MonthsAccumulate(a.year, a.month, b.month);
    }
  }

  lemma WallBeforeIsEarlier(a: Stamp, b: Stamp)
    requires Valid(a) && Valid(b) && UtcOffset(a.zone) == UtcOffset(b.zone) && WallBefore(a, b, a.micro < b.micro)
    ensures Instant(a) < Instant(b)
  {
    if a.year != b.year || a.month != b.month || a.day != b.day {
      DayNumberMonotone(a, b);
    }
  }

  /** With one UTC offset, string order is time order, fractions or not. */
  lemma IsoOrderIsTimeOrder(a: Stamp, b: Stamp)
    requires Valid(a) && Valid(b) && a.zone == b.zone
    ensures Less(Iso(a), Iso(b)) <==> Instant(a) < Instant(b)
  {
    LessOfTail(a.micro, b.micro, a.zone);
    LessOfIsoWith(a, b, Tail(a.micro, a.zone), Tail(b.micro, b.zone));
    if WallBefore(a, b, a.micro < b.micro) {
      WallBeforeIsEarlier(a, b);
    } else if WallBefore(b, a, b.micro < a.micro) {
      WallBeforeIsEarlier(b, a);
    }
  }

  // ---------------------------------------------------------------- two zones

  lemma FractionGrows(m: nat, n: nat, x: string, y: string)
    requires m < n < 1000000
    ensures Less("." + (Pad(m, 6) + x), "." + (Pad(n, 6) + y))
  {
    assert Power10(6) == 1000000 by { assert Power10(3) == 1000; }
    LessOfPad(m, n, 6);
    LessOfConcat(Pad(m, 6), Pad(n, 6), x, y);
    LessOfConcat(".", ".", Pad(m, 6) + x, Pad(n, 6) + y);
  }

  lemma TailOfFraction(m: nat, zone: Zone)
    requires m > 0
    ensures Tail(m, zone) == "." + (Pad(m, 6) + ZoneText(zone))
  {
    assert "." + Pad(m, 6) + ZoneText(zone) == "." + (Pad(m, 6) + ZoneText(zone));
  }

  /** A greater fraction is a greater tail, whatever the zones. */
  lemma TailGrows(m: nat, n: nat, y: Zone, z: Zone)
    requires m < n < 1000000
    ensures Less(Tail(m, y), Tail(n, z))
  {
    if m == 0 {
      ZoneBelowFraction(y, Tail(n, z));
    } else {
      FractionGrows(m, n, ZoneText(y), ZoneText(z));
      TailOfFraction(m, y);
      TailOfFraction(n, z);
    }
  }

  /** At one offset, written or not, the later instant has the greater string. */
  lemma LaterIsGreater(a: Stamp, b: Stamp)
    requires Valid(a) && Valid(b) && UtcOffset(a.zone) == UtcOffset(b.zone) && Instant(a) < Instant(b)
    ensures Less(Iso(a), Iso(b))
  {
    if WallBefore(b, a, b.micro < a.micro) {
      WallBeforeIsEarlier(b, a);
    }
    assert WallBefore(a, b, a.micro < b.micro);
    if a.micro < b.micro {
      TailGrows(a.micro, b.micro, a.zone, b.zone);
    }
    LessOfIsoWith(a, b, Tail(a.micro, a.zone), Tail(b.micro, b.zone));
  }

  /** An extension of a string is not below it. */
  lemma ExtensionIsNotLess(p: string, x: string)
    ensures !Less(p + x, p) && (x != "" ==> Less(p, p + x))
  {
    LessOfConcat(p, p, x, "");
    LessOfConcat(p, p, "", x);
    LessIrreflexive(p);
    assert p + "" == p;
  }

  /** Comparing the strings never puts an earlier stamp of the two zones after a later one. */
  ghost predicate NeverReversed(y: Zone, z: Zone) {
    forall a, b :: Valid(a) && Valid(b) && a.zone == y && b.zone == z ==>
                     (Instant(a) < Instant(b) ==> Less(Iso(a), Iso(b))) &&
                     (Instant(b) < Instant(a) ==> Less(Iso(b), Iso(a)))
  }

  /** Comparing the strings is comparing the instants. */
  ghost predicate StringOrderIsTimeOrder(y: Zone, z: Zone) {
    forall a, b :: Valid(a) && Valid(b) && a.zone == y && b.zone == z ==>
                     (Less(Iso(a), Iso(b)) <==> Instant(a) < Instant(b))
  }

  predicate RealZone(zone: Zone) {
    zone.Offset? ==> -1440 < zone.minutes < 1440
  }

  function Noon(year: nat, second: nat, zone: Zone): Stamp {
    Stamp(year, 6, 15, 12, 0, second, 0, zone)
  }

  /** A second apart at noon, at offsets at least a minute apart, the later string is the earlier instant. */
  lemma NoonStringsMislead(year: nat, y: Zone, z: Zone)
    requires 1 <= year <= 9999 && RealZone(y) && RealZone(z) && UtcOffset(y) < UtcOffset(z)
    ensures var a, b := Noon(year, 0, y), Noon(year, 1, z);
            Valid(a) && Valid(b) && Less(Iso(a), Iso(b)) && !Less(Iso(b), Iso(a)) && Instant(b) < Instant(a)
  {
    var a, b := Noon(year, 0, y), Noon(year, 1, z);
    LessOfIsoWith(a, b, Tail(0, y), Tail(0, z));
    LessOfIsoWith(b, a, Tail(0, z), Tail(0, y));
  }

  lemma SameOffsetNeverReverses(y: Zone, z: Zone)
    requires UtcOffset(y) == UtcOffset(z)
    ensures NeverReversed(y, z)
  {
    forall a, b | Valid(a) && Valid(b) && a.zone == y && b.zone == z
      ensures (Instant(a) < Instant(b) ==> Less(Iso(a), Iso(b))) && (Instant(b) < Instant(a) ==> Less(Iso(b), Iso(a)))
    {
      if Instant(a) < Instant(b) {
        LaterIsGreater(a, b);
      } else if Instant(b) < Instant(a) {
        LaterIsGreater(b, a);
      }
    }
  }

  lemma DifferentOffsetsReverse(year: nat, y: Zone, z: Zone)
    requires 1 <= year <= 9999 && RealZone(y) && RealZone(z) && UtcOffset(y) < UtcOffset(z)
    ensures !NeverReversed(y, z) && !NeverReversed(z, y)
    ensures !StringOrderIsTimeOrder(y, z) && !StringOrderIsTimeOrder(z, y)
  {
    NoonStringsMislead(year, y, z);
    var a, b := Noon(year, 0, y), Noon(year, 1, z);
    assert Valid(a) && Valid(b) && a.zone == y && b.zone == z;
  }

  /** Strings never reverse time between two zones exactly when the offsets are equal, naive counting as +00:00. */
  lemma NeverReversedExactly(y: Zone, z: Zone)
    requires RealZone(y) && RealZone(z)
    ensures NeverReversed(y, z) <==> UtcOffset(y) == UtcOffset(z)
  {
    var year: nat :| 1 <= year <= 9999;
    if UtcOffset(y) == UtcOffset(z) {
      SameOffsetNeverReverses(y, z);
    } else if UtcOffset(y) < UtcOffset(z) {
      DifferentOffsetsReverse(year, y, z);
    } else {
      DifferentOffsetsReverse(year, z, y);
    }
  }

  lemma NaiveNextToUtc(a: Stamp, b: Stamp)
    requires Valid(a) && Valid(b) && a.zone == Offset(0) && b.zone == Naive && Less(Iso(a), Iso(b))
    ensures Instant(a) < Instant(b)
  {
    LessOfIsoWith(a, b, Tail(a.micro, a.zone), Tail(b.micro, b.zone));
    if b.micro < a.micro {
      TailGrows(b.micro, a.micro, b.zone, a.zone);
      LessAsymmetric(Tail(a.micro, a.zone), Tail(b.micro, b.zone));
    } else if b.micro == a.micro {
      assert ZoneText(Naive) == "";
      ExtensionIsNotLess(Tail(b.micro, Naive), ZoneText(a.zone));
      assert Tail(a.micro, a.zone) == Tail(b.micro, Naive) + ZoneText(a.zone);
    }
    WallBeforeIsEarlier(a, b);
  }

  lemma NaiveIsBelowItself(year: nat)
    requires 1 <= year <= 9999
    ensures var a, b := Noon(year, 0, Naive), Noon(year, 0, Offset(0));
            Valid(a) && Valid(b) && Less(Iso(a), Iso(b)) && Instant(a) == Instant(b)
  {
    var a, b := Noon(year, 0, Naive), Noon(year, 0, Offset(0));
    assert Tail(0, Naive) == "" && Tail(0, Offset(0)) != "";
    LessOfIsoWith(a, b, Tail(0, Naive), Tail(0, Offset(0)));
  }

  lemma NaiveAfterUtcIsInOrder()
    ensures StringOrderIsTimeOrder(Offset(0), Naive)
  {
    forall a, b | Valid(a) && Valid(b) && a.zone == Offset(0) && b.zone == Naive
      ensures Less(Iso(a), Iso(b)) <==> Instant(a) < Instant(b)
    {
      if Less(Iso(a), Iso(b)) {
        NaiveNextToUtc(a, b);
      } else if Instant(a) < Instant(b) {
        LaterIsGreater(a, b);
      }
    }
  }

  lemma OneZoneIsInOrder(zone: Zone)
    ensures StringOrderIsTimeOrder(zone, zone)
  {
    forall a, b | Valid(a) && Valid(b) && a.zone == zone && b.zone == zone
      ensures Less(Iso(a), Iso(b)) <==> Instant(a) < Instant(b)
    {
      IsoOrderIsTimeOrder(a, b);
    }
  }

  /**
   String order is time order for stamps of two zones exactly when the zones are equal, or the
   first is +00:00 and the second has none: a naive stamp is below the same instant at +00:00.
   */
  lemma StringOrderExactly(y: Zone, z: Zone)
    requires RealZone(y) && RealZone(z)
    ensures StringOrderIsTimeOrder(y, z) <==> y == z || (y == Offset(0) && z == Naive)
  {
    var year: nat :| 1 <= year <= 9999;
    if y == z {
      OneZoneIsInOrder(y);
    } else if UtcOffset(y) < UtcOffset(z) {
      DifferentOffsetsReverse(year, y, z);
    } else if UtcOffset(z) < UtcOffset(y) {
      DifferentOffsetsReverse(year, z, y);
    } else if z == Naive {
      NaiveAfterUtcIsInOrder();
    } else {
      NaiveIsBelowItself(year);
    }
  }

  /** `width` digits and a separator at the front of `s`. */
  function ReadField(s: string, width: nat, separator: char): Option<(nat, string)> {
    if |s| > width && AllDigits(s[..width]) && s[width] == separator
    then Some((Value(s[..width]), s[width + 1..])) else None
  }

  function ReadZone(s: string): Option<Zone> {
    if s == [] then Some(Naive)
    else if s[0] != '+' && s[0] != '-' then None
    else
      var (hours, rest) :- ReadField(s[1..], 2, ':');
      if |rest| == 2 && AllDigits(rest) then
        var minutes := hours * 60 + Value(rest);
        Some(Offset(if s[0] == '-' then -minutes else minutes))
      else None
  }

  function ReadTail(s: string): Option<(nat, Zone)> {
    if s != [] && s[0] == '.' then
      if |s| >= 7 && AllDigits(s[1..7]) then
        var zone :- ReadZone(s[7..]);
        Some((Value(s[1..7]), zone))
      else None
    else
      var zone :- ReadZone(s);
      Some((0, zone))
  }

  function ReadDate(s: string): Option<(nat, nat, nat, string)> {
    var (year, s1) :- ReadField(s, 4, '-');
    var (month, s2) :- ReadField(s1, 2, '-');
    var (day, rest) :- ReadField(s2, 2, 'T');
    Some((year, month, day, rest))
  }

  function ReadTime(s: string): Option<(nat, nat, nat, string)> {
    var (hour, s1) :- ReadField(s, 2, ':');
    var (minute, s2) :- ReadField(s1, 2, ':');
    if |s2| >= 2 && AllDigits(s2[..2]) then Some((hour, minute, Value(s2[..2]), s2[2..])) else None
  }

  /** `fromisoformat` on the texts `isoformat` writes; None is its ValueError. */
  function FromIso(s: string): Option<Stamp> {
    var (year, month, day, time) :- ReadDate(s);
    var (hour, minute, second, tail) :- ReadTime(time);
    var (micro, zone) :- ReadTail(tail);
    var t := Stamp(year, month, day, hour, minute, second, micro, zone);
    if Valid(t) then Some(t) else None
  }

  lemma ReadFieldOfField(n: nat, width: nat, separator: char, rest: string)
    requires n < Power10(width)
    ensures ReadField(Field(n, width, separator, rest), width, separator) == Some((n, rest))
  {
    ValueOfPad(n, width);
    var s := Field(n, width, separator, rest);
    assert s[..width] == Pad(n, width) && s[width + 1..] == rest;
  }

  lemma ReadTailOfTail(micro: nat, zone: Zone)
    requires micro < 1000000 && (zone.Offset? ==> -1440 < zone.minutes < 1440)
    ensures ReadTail(Tail(micro, zone)) == Some((micro, zone))
  {
    var z := ZoneText(zone);
    if zone.Offset? {
      var a := if zone.minutes < 0 then -zone.minutes else zone.minutes;
      ReadFieldOfField(a / 60, 2, ':', Pad(a % 60, 2));
      ValueOfPad(a % 60, 2);
      assert z[1..] == Field(a / 60, 2, ':', Pad(a % 60, 2));
      assert z[0] != '.';
    }
    assert ReadZone(z) == Some(zone);
    if micro > 0 {
      assert Power10(6) == 1000000 by { assert Power10(3) == 1000; }
      ValueOfPad(micro, 6);
      var s := Tail(micro, zone);
      assert s[1..7] == Pad(micro, 6) && s[7..] == z;
    }
  }

  lemma ReadTimeOfTime(hour: nat, minute: nat, second: nat, tail: string)
    requires hour < 100 && minute < 100 && second < 100
    ensures ReadTime(Field(hour, 2, ':', Field(minute, 2, ':', Pad(second, 2) + tail)))
         == Some((hour, minute, second, tail))
  {
    var s := Pad(second, 2) + tail;
    ReadFieldOfField(hour, 2, ':', Field(minute, 2, ':', s));
    ReadFieldOfField(minute, 2, ':', s);
    ValueOfPad(second, 2);
    assert s[..2] == Pad(second, 2) && s[2..] == tail;
  }

  lemma ReadDateOfDate(year: nat, month: nat, day: nat, rest: string)
    requires year < 10000 && month < 100 && day < 100
    ensures ReadDate(Field(year, 4, '-', Field(month, 2, '-', Field(day, 2, 'T', rest))))
         == Some((year, month, day, rest))
  {
    assert Power10(4) == 10000 by { assert Power10(2) == 100; }
    ReadFieldOfField(year, 4, '-', Field(month, 2, '-', Field(day, 2, 'T', rest)));
    ReadFieldOfField(month, 2, '-', Field(day, 2, 'T', rest));
    ReadFieldOfField(day, 2, 'T', rest);
  }

  lemma IsoRoundTrip(t: Stamp)
    requires Valid(t)
    ensures FromIso(Iso(t)) == Some(t)
  {
    var tail := Tail(t.micro, t.zone);
    ReadTimeOfTime(t.hour, t.minute, t.second, tail);
    ReadDateOfDate(t.year, t.month, t.day, Field(t.hour, 2, ':', Field(t.minute, 2, ':', Pad(t.second, 2) + tail)));
    ReadTailOfTail(t.micro, t.zone);
  }
}
