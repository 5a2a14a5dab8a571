// Names of backup dumps: civil time, formatting, parsing and the order of the names.
module DumpKeys {
  import opened Store

  // --- Strings as Python orders them ------------------------------------------

  predicate Less(a: string, b: string) {
    b != [] && (a == [] || a[0] < b[0] || (a[0] == b[0] && Less(a[1..], b[1..])))
  }

  lemma {:induction false} LessIrreflexive(a: string)
    ensures !Less(a, a)
  {
    if a == [] {
    } else {
      LessIrreflexive(a[1..]);
    }
  }

  lemma {:induction false} LessTransitive(a: string, b: string, c: string)
    requires Less(a, b) && Less(b, c)
    ensures Less(a, c)
  {
    if a != [] && a[0] == b[0] == c[0] {
      LessTransitive(a[1..], b[1..], c[1..]);
    }
  }

  lemma {:induction false} LessTotal(a: string, b: string)
    ensures a == b || Less(a, b) || Less(b, a)
  {
    if a != [] && b != [] && a[0] == b[0] {
      LessTotal(a[1..], b[1..]);
      assert a == [a[0]] + a[1..] && b == [b[0]] + b[1..];
    }
  }

  // A string is not above the strings it is a prefix of.
  lemma {:induction false} PrefixNotAbove(p: string, s: string)
    requires p <= s
    ensures p == s || Less(p, s)
  {
    if p == [] {
    } else {
      PrefixNotAbove(p[1..], s[1..]);
      assert p == [p[0]] + p[1..] && s == [s[0]] + s[1..];
    }
  }

  lemma {:induction false} LessConcat(a: string, b: string, c: string, d: string)
    requires |a| == |c|
    ensures Less(a + b, c + d) <==> Less(a, c) || (a == c && Less(b, d))
  {
    if a == [] {
      assert a + b == b && c + d == d;
    } else {
      LessConcat(a[1..], b, c[1..], d);
      assert (a + b)[1..] == a[1..] + b && (c + d)[1..] == c[1..] + d;
      assert a == [a[0]] + a[1..] && c == [c[0]] + c[1..];
    }
  }

  // --- Civil time -------------------------------------------------------------

  datatype DateTime = DateTime(year: int, month: int, day: int, hour: int, minute: int, second: int)

  predicate Leap(y: int) { y % 4 == 0 && (y % 100 != 0 || y % 400 == 0) }

  function DaysIn(y: int, m: int): int {
    if m == 2 then if Leap(y) then 29 else 28
    else if m == 4 || m == 6 || m == 9 || m == 11 then 30
    else 31
  }

  // What the datetime constructor accepts.
  predicate Valid(t: DateTime) {
    && 1 <= t.year <= 9999 && 1 <= t.month <= 12 && 1 <= t.day <= DaysIn(t.year, t.month)
    && 0 <= t.hour <= 23 && 0 <= t.minute <= 59 && 0 <= t.second <= 59
  }

  predicate Earlier(a: DateTime, b: DateTime) {
    a.year < b.year || (a.year == b.year && (
    a.month < b.month || (a.month == b.month && (
    a.day < b.day || (a.day == b.day && (
    a.hour < b.hour || (a.hour == b.hour && (
    a.minute < b.minute || (a.minute == b.minute && a.second < b.second)))))))))
  }

  function DaysBeforeMonth(y: int, m: int): int
    decreases m
  {
    if m <= 1 then 0 else DaysBeforeMonth(y, m - 1) + DaysIn(y, m - 1)
  }

  // Days since the first of January of year 1, counting from one.
  function Ordinal(y: int, m: int, d: int): int {
    (y - 1) * 365 + (y - 1) / 4 - (y - 1) / 100 + (y - 1) / 400 + DaysBeforeMonth(y, m) + d
  }

  // Monday is 0.
  function Weekday(t: DateTime): int { (Ordinal(t.year, t.month, t.day) + 6) % 7 }

  function NextDay(t: DateTime): DateTime {
    if t.day < DaysIn(t.year, t.month) then t.(day := t.day + 1)
    else if t.month < 12 then t.(month := t.month + 1, day := 1)
    else t.(year := t.year + 1, month := 1, day := 1)
  }

  lemma YearLength(y: int)
    requires 1 <= y
    ensures DaysBeforeMonth(y, 12) + 31 == if Leap(y) then 366 else 365
  {
    hide Leap;
    assert DaysBeforeMonth(y, 3) == 31 + DaysIn(y, 2);
    assert DaysBeforeMonth(y, 5) == 92 + DaysIn(y, 2);
    assert DaysBeforeMonth(y, 7) == 153 + DaysIn(y, 2);
    assert DaysBeforeMonth(y, 9) == 215 + DaysIn(y, 2);
    assert DaysBeforeMonth(y, 11) == 276 + DaysIn(y, 2);
  }

  lemma LeapDays(y: int)
    requires 1 <= y
    ensures y / 4 - y / 100 + y / 400 == (y - 1) / 4 - (y - 1) / 100 + (y - 1) / 400 + if Leap(y) then 1 else 0
  {
    assert y % 100 == 0 ==> y % 4 == 0;
    assert y % 400 == 0 ==> y % 100 == 0;
    assert y / 4 - (y - 1) / 4 == if y % 4 == 0 then 1 else 0;
    assert y / 100 - (y - 1) / 100 == if y % 100 == 0 then 1 else 0;
    assert y / 400 - (y - 1) / 400 == if y % 400 == 0 then 1 else 0;
  }

  // The calendar is right: the day count, and so the weekday, advances by one from each
  // day to the next over month ends, leap days and year ends, and 5 January 2026 is a Monday.
  lemma WeekdaysAdvance(t: DateTime)
    requires Valid(t)
    ensures var n := NextDay(t); Ordinal(n.year, n.month, n.day) == Ordinal(t.year, t.month, t.day) + 1
    ensures Weekday(NextDay(t)) == (Weekday(t) + 1) % 7
    ensures Weekday(DateTime(2026, 1, 5, 0, 0, 0)) == 0
  {
    DayCountAdvances(t);
    hide Ordinal, NextDay, DaysIn, DaysBeforeMonth;
    NextMod(Ordinal(t.year, t.month, t.day) + 6);
    Anchor();
  }

  // The Gregorian calendar in figures: the first of January of year 1 is day 1, years have
  // 365 days or in leap years 366, and months start where they do.
  lemma YearStarts(y: int)
    requires 1 <= y
    ensures Ordinal(1, 1, 1) == 1
    ensures Ordinal(y + 1, 1, 1) == Ordinal(y, 1, 1) + if Leap(y) then 366 else 365
  {
    LeapDays(y);
    FirstDay(1);
    FirstDay(y);
    FirstDay(y + 1);
    hide Ordinal;
  }

  lemma FirstDay(y: int)
    ensures Ordinal(y, 1, 1) == (y - 1) * 365 + (y - 1) / 4 - (y - 1) / 100 + (y - 1) / 400 + 1
  {
    assert DaysBeforeMonth(y, 1) == 0;
  }

  lemma LeapYear(y: int)
    ensures Leap(y) <==> y % 4 == 0 && (y % 100 != 0 || y % 400 == 0)
  {
  }

  lemma MonthStarts(y: int, m: int, d: int)
    ensures var leap, n := if y % 4 == 0 && (y % 100 != 0 || y % 400 == 0) then 1 else 0, Ordinal(y, 1, 1);
            && Ordinal(y, m, d) == Ordinal(y, m, 1) + d - 1
            && Ordinal(y, 2, 1) == n + 31 && Ordinal(y, 3, 1) == n + 59 + leap && Ordinal(y, 4, 1) == n + 90 + leap
            && Ordinal(y, 5, 1) == n + 120 + leap && Ordinal(y, 6, 1) == n + 151 + leap
            && Ordinal(y, 7, 1) == n + 181 + leap && Ordinal(y, 8, 1) == n + 212 + leap
            && Ordinal(y, 9, 1) == n + 243 + leap && Ordinal(y, 10, 1) == n + 273 + leap
            && Ordinal(y, 11, 1) == n + 304 + leap && Ordinal(y, 12, 1) == n + 334 + leap
  {
    DaysBefore(y);
    hide DaysBeforeMonth;
  }

  lemma DaysBefore(y: int)
    ensures var leap := if Leap(y) then 1 else 0;
            && DaysBeforeMonth(y, 1) == 0 && DaysBeforeMonth(y, 2) == 31 && DaysBeforeMonth(y, 3) == 59 + leap
            && DaysBeforeMonth(y, 4) == 90 + leap && DaysBeforeMonth(y, 5) == 120 + leap
            && DaysBeforeMonth(y, 6) == 151 + leap && DaysBeforeMonth(y, 7) == 181 + leap
            && DaysBeforeMonth(y, 8) == 212 + leap && DaysBeforeMonth(y, 9) == 243 + leap
            && DaysBeforeMonth(y, 10) == 273 + leap && DaysBeforeMonth(y, 11) == 304 + leap
            && DaysBeforeMonth(y, 12) == 334 + leap
  {
    hide Leap;
    assert DaysBeforeMonth(y, 3) == 31 + DaysIn(y, 2);
    assert DaysBeforeMonth(y, 5) == 92 + DaysIn(y, 2);
    assert DaysBeforeMonth(y, 7) == 153 + DaysIn(y, 2);
    assert DaysBeforeMonth(y, 9) == 215 + DaysIn(y, 2);
    assert DaysBeforeMonth(y, 11) == 276 + DaysIn(y, 2);
  }

  // The first and the last second of the calendar, a leap day and what lies just outside.
  lemma CalendarEnds()
    ensures Valid(DateTime(1, 1, 1, 0, 0, 0)) && Valid(DateTime(9999, 12, 31, 23, 59, 59))
    ensures Valid(DateTime(2024, 2, 29, 0, 0, 0)) && !Valid(DateTime(2026, 2, 29, 0, 0, 0))
    ensures !Valid(DateTime(10000, 1, 1, 0, 0, 0)) && !Valid(DateTime(2026, 13, 1, 0, 0, 0))
    ensures !Valid(DateTime(2026, 1, 1, 24, 0, 0)) && !Valid(DateTime(2026, 1, 1, 0, 60, 0))
    ensures !Valid(DateTime(2026, 1, 1, 0, 0, 60)) && !Valid(DateTime(2026, 0, 1, 0, 0, 0))
  {
  }

  // A name of a dump, character for character.
  lemma KeyExample()
    ensures Valid(DateTime(2026, 3, 14, 15, 9, 27))
    ensures KeyFor("daily/", DateTime(2026, 3, 14, 15, 9, 27)) == "daily/20260314T150927Z.dump.zst"
  {
    PadExamples();
    hide Pad2;
    assert Pad4(2026) == "20" + "26" == "2026";
    hide Pad4;
    TimeExample();
    DateExample();
    NameExample();
    hide Stamp, DaysIn;
  }

  lemma TimeExample()
    ensures "27" + "Z" == "27Z" && "09" + "27Z" == "0927Z" && "15" + "0927Z" == "150927Z"
    ensures "T" + "150927Z" == "T150927Z"
  {
  }

  lemma DateExample()
    ensures "14" + "T150927Z" == "14T150927Z" && "03" + "14T150927Z" == "0314T150927Z"
    ensures "2026" + "0314T150927Z" == "20260314T150927Z"
  {
  }

  lemma NameExample()
    ensures "20260314T150927Z" + ".dump.zst" == "20260314T150927Z.dump.zst"
    ensures "daily/" + "20260314T150927Z.dump.zst" == "daily/20260314T150927Z.dump.zst"
  {
  }

  lemma PadExamples()
    ensures Pad2(20) == "20" && Pad2(26) == "26" && Pad2(3) == "03" && Pad2(14) == "14" && Pad2(15) == "15"
    ensures Pad2(9) == "09" && Pad2(27) == "27"
  {
  }

  lemma DayCountAdvances(t: DateTime)
    requires Valid(t)
    ensures var n := NextDay(t); Ordinal(n.year, n.month, n.day) == Ordinal(t.year, t.month, t.day) + 1
  {
    if t.day == DaysIn(t.year, t.month) && t.month == 12 {
      YearLength(t.year);
      LeapDays(t.year);
      assert DaysBeforeMonth(t.year + 1, 1) == 0;
    }
    hide Leap;
  }

  lemma NextMod(x: int)
    ensures (x + 1) % 7 == (x % 7 + 1) % 7
  {
  }

  lemma Anchor()
    ensures Weekday(DateTime(2026, 1, 5, 0, 0, 0)) == 0
  {
  }

  // --- Names ------------------------------------------------------------------

  function Digit(n: int): char
    requires 0 <= n <= 9
  {
    ['0', '1', '2', '3', '4', '5', '6', '7', '8', '9'][n]
  }

  lemma DigitOrder(a: int, b: int)
    requires 0 <= a <= 9 && 0 <= b <= 9
    ensures Digit(a) < Digit(b) <==> a < b
    ensures Digit(a) == Digit(b) <==> a == b
  {
  }

  // Zero-padded decimal.
  function Pad2(n: int): (s: string)
    requires 0 <= n <= 99
    ensures |s| == 2
  {
    [Digit(n / 10), Digit(n % 10)]
  }

  function Pad4(n: int): (s: string)
    requires 0 <= n <= 9999
    ensures |s| == 4
  {
    Pad2(n / 100) + Pad2(n % 100)
  }

  lemma Pad2Order(n: int, m: int)
    requires 0 <= n <= 99 && 0 <= m <= 99
    ensures Less(Pad2(n), Pad2(m)) <==> n < m
    ensures Pad2(n) == Pad2(m) <==> n == m
  {
    DigitOrder(n / 10, m / 10);
    DigitOrder(n % 10, m % 10);
    hide Digit;
    assert Pad2(n)[1..] == [Digit(n % 10)] && Pad2(m)[1..] == [Digit(m % 10)];
    assert Pad2(n)[0] == Digit(n / 10) && Pad2(m)[0] == Digit(m / 10);
    assert Less([Digit(n % 10)], [Digit(m % 10)]) <==> n % 10 < m % 10;
    assert Pad2(n)[1] == Digit(n % 10) && Pad2(m)[1] == Digit(m % 10);
  }

  lemma Pad4Order(n: int, m: int)
    requires 0 <= n <= 9999 && 0 <= m <= 9999
    ensures Less(Pad4(n), Pad4(m)) <==> n < m
    ensures Pad4(n) == Pad4(m) <==> n == m
  {
    Pad2Order(n / 100, m / 100);
    Pad2Order(n % 100, m % 100);
    LessConcat(Pad2(n / 100), Pad2(n % 100), Pad2(m / 100), Pad2(m % 100));
    assert Pad4(n)[..2] == Pad2(n / 100) && Pad4(m)[..2] == Pad2(m / 100);
    assert Pad4(n)[2..] == Pad2(n % 100) && Pad4(m)[2..] == Pad2(m % 100);
    hide Pad2, Less;
  }

  // strftime("%Y%m%dT%H%M%SZ").
  function Stamp(t: DateTime): (s: string)
    requires Valid(t)
    ensures |s| == 16
  {
    Pad4(t.year) + (Pad2(t.month) + (Pad2(t.day) + ("T" +
    (Pad2(t.hour) + (Pad2(t.minute) + (Pad2(t.second) + "Z"))))))
  }

  const SUFFIX := ".dump.zst"

  function KeyFor(prefix: string, t: DateTime): string
    requires Valid(t)
  {
    prefix + (Stamp(t) + SUFFIX)
  }

  // A field in front of a rest decides the order unless the fields agree.
  lemma FieldOrder(n: int, m: int, b: string, d: string)
    requires 0 <= n <= 99 && 0 <= m <= 99
    ensures Less(Pad2(n) + b, Pad2(m) + d) <==> n < m || (n == m && Less(b, d))
    ensures Pad2(n) + b == Pad2(m) + d <==> n == m && b == d
  {
    Pad2Order(n, m);
    LessConcat(Pad2(n), b, Pad2(m), d);
    Halves(Pad2(n), b, Pad2(m), d);
  }

  lemma Halves(a: string, b: string, c: string, d: string)
    requires |a| == |c|
    ensures a + b == c + d <==> a == c && b == d
  {
    if a + b == c + d {
      assert a == (a + b)[..|a|] && c == (c + d)[..|a|];
      assert b == (a + b)[|a|..] && d == (c + d)[|a|..];
    }
  }

  // The order of the names of dumps under one prefix is the order of their times.
  lemma KeyOrder(prefix: string, a: DateTime, b: DateTime)
    requires Valid(a) && Valid(b)
    ensures Less(KeyFor(prefix, a), KeyFor(prefix, b)) <==> Earlier(a, b)
    ensures KeyFor(prefix, a) == KeyFor(prefix, b) <==> a == b
  {
    StampOrder(a, b);
    hide Stamp, Earlier;
    LessConcat(Stamp(a), SUFFIX, Stamp(b), SUFFIX);
    LessIrreflexive(SUFFIX);
    LessConcat(prefix, Stamp(a) + SUFFIX, prefix, Stamp(b) + SUFFIX);
    LessIrreflexive(prefix);
    Halves(Stamp(a), SUFFIX, Stamp(b), SUFFIX);
    Halves(prefix, Stamp(a) + SUFFIX, prefix, Stamp(b) + SUFFIX);
    hide Less;
  }

  lemma StampOrder(a: DateTime, b: DateTime)
    requires Valid(a) && Valid(b)
    ensures Less(Stamp(a), Stamp(b)) <==> Earlier(a, b)
    ensures Stamp(a) == Stamp(b) <==> a == b
  {
    hide Pad2, Pad4, Less;
    var a6, b6 := Pad2(a.second) + "Z", Pad2(b.second) + "Z";
    FieldOrder(a.second, b.second, "Z", "Z");
    LessIrreflexive("Z");
    var a5, b5 := Pad2(a.minute) + a6, Pad2(b.minute) + b6;
    FieldOrder(a.minute, b.minute, a6, b6);
    var a4, b4 := Pad2(a.hour) + a5, Pad2(b.hour) + b5;
    FieldOrder(a.hour, b.hour, a5, b5);
    var a3, b3 := "T" + a4, "T" + b4;
    LessConcat("T", a4, "T", b4);
    Halves("T", a4, "T", b4);
    LessIrreflexive("T");
    var a2, b2 := Pad2(a.day) + a3, Pad2(b.day) + b3;
    FieldOrder(a.day, b.day, a3, b3);
    var a1, b1 := Pad2(a.month) + a2, Pad2(b.month) + b2;
    FieldOrder(a.month, b.month, a2, b2);
    Pad4Order(a.year, b.year);
    LessConcat(Pad4(a.year), a1, Pad4(b.year), b1);
    Halves(Pad4(a.year), a1, Pad4(b.year), b1);
  }

  // --- Parsing ----------------------------------------------------------------

  // key.rsplit(c, 1)[-1] and s.split(c)[0].
  function AfterLast(s: string, c: char): string {
    if s == [] then []
    else if s[|s| - 1] == c then []
    else AfterLast(s[..|s| - 1], c) + [s[|s| - 1]]
  }

  function BeforeFirst(s: string, c: char): string {
    if s == [] || s[0] == c then [] else [s[0]] + BeforeFirst(s[1..], c)
  }

  function DigitValue(c: char): Option<int> {
    if '0' <= c <= '9' then Some(c as int - '0' as int) else None
  }

  // A piece of the pattern strptime builds from the format: a number written with two
  // digits between lo and hi or else with one digit from low1 on, four digits, or a letter
  // in either case.
  datatype Piece = Num(lo: int, hi: int, low1: int) | Year | Letter(upper: char, lower: char)

  function TwoDigits(s: string): Option<int> {
    if |s| >= 2 && DigitValue(s[0]).Some? && DigitValue(s[1]).Some?
    then Some(10 * DigitValue(s[0]).value + DigitValue(s[1]).value) else None
  }

  // Match the pieces in order, two-digit readings first, giving the numbers read and what
  // is left of the input.
  function Match(ps: seq<Piece>, s: string): Option<(seq<int>, string)>
    decreases |ps|
  {
    if ps == [] then Some(([], s)) else
      match ps[0]
      case Letter(upper, lower) =>
        if s != [] && (s[0] == upper || s[0] == lower) then Match(ps[1..], s[1..]) else None
      case Year =>
        if |s| >= 4 && TwoDigits(s).Some? && TwoDigits(s[2..]).Some?
        then Prepend(100 * TwoDigits(s).value + TwoDigits(s[2..]).value, Match(ps[1..], s[4..])) else None
      case Num(lo, hi, low1) =>
        var two :=
          if TwoDigits(s).Some? && lo <= TwoDigits(s).value <= hi
          then Prepend(TwoDigits(s).value, Match(ps[1..], s[2..])) else None;
        if two.Some? then two
        else if s != [] && DigitValue(s[0]).Some? && low1 <= DigitValue(s[0]).value
        then Prepend(DigitValue(s[0]).value, Match(ps[1..], s[1..]))
        else None
  }

  function Prepend(n: int, m: Option<(seq<int>, string)>): Option<(seq<int>, string)> {
    if m.Some? then Some(([n] + m.value.0, m.value.1)) else None
  }

  const TIME_FORMAT := [Num(0, 23, 0), Num(0, 59, 0), Num(0, 61, 0), Letter('Z', 'z')]
  const FORMAT := [Year] + ([Num(1, 12, 1)] + ([Num(1, 31, 1)] + ([Letter('T', 't')] + TIME_FORMAT)))

  // _parse_key_dt.
  function ParseKey(key: string): Option<DateTime> {
    var m := Match(FORMAT, BeforeFirst(AfterLast(key, '/'), '.'));
    if m.Some? && m.value.1 == [] && |m.value.0| == 6 then
      var v := m.value.0;
      var t := DateTime(v[0], v[1], v[2], v[3], v[4], v[5]);
      if Valid(t) then Some(t) else None
    else None
  }

  lemma {:induction false} AfterLastConcat(a: string, c: char, b: string)
    requires c !in b
    ensures AfterLast(a + [c] + b, c) == b
  {
    var s := a + [c] + b;
    if b == [] {
      assert s[|s| - 1] == c;
    } else {
      var front := b[..|b| - 1];
      assert s[..|s| - 1] == a + [c] + front && s[|s| - 1] == b[|b| - 1];
      assert b[|b| - 1] in b;
      AfterLastConcat(a, c, front);
    }
  }

  lemma {:induction false} BeforeFirstConcat(a: string, c: char, b: string)
    requires c !in a
    ensures BeforeFirst(a + [c] + b, c) == a
  {
    var s := a + [c] + b;
    if a == [] {
      assert s[0] == c;
    } else {
      assert s[0] == a[0] && s[0] in a && s[1..] == a[1..] + [c] + b;
      BeforeFirstConcat(a[1..], c, b);
    }
  }

  predicate StampChar(c: char) { '0' <= c <= '9' || c == 'T' || c == 'Z' }

  lemma DigitChar(n: int)
    requires 0 <= n <= 9
    ensures StampChar(Digit(n)) && DigitValue(Digit(n)) == Some(n)
  {
  }

  lemma Pad2Chars(n: int)
    requires 0 <= n <= 99
    ensures forall c :: c in Pad2(n) ==> StampChar(c)
  {
    DigitChar(n / 10);
    DigitChar(n % 10);
    hide Digit, StampChar;
  }

  lemma StampChars(t: DateTime)
    requires Valid(t)
    ensures forall c :: c in Stamp(t) ==> StampChar(c)
  {
    Pad2Chars(t.year / 100);
    Pad2Chars(t.year % 100);
    Pad2Chars(t.month);
    Pad2Chars(t.day);
    Pad2Chars(t.hour);
    Pad2Chars(t.minute);
    Pad2Chars(t.second);
    hide Pad2;
  }

  lemma PadTwo(n: int, rest: string)
    requires 0 <= n <= 99
    ensures TwoDigits(Pad2(n) + rest) == Some(n)
    ensures (Pad2(n) + rest)[2..] == rest
  {
    DigitChar(n / 10);
    DigitChar(n % 10);
    hide Digit, DigitValue, StampChar;
  }

  lemma MatchYear(ps: seq<Piece>, n: int, rest: string)
    requires 0 <= n <= 9999
    ensures Match([Year] + ps, Pad4(n) + rest) == Prepend(n, Match(ps, rest))
  {
    hide Pad2, TwoDigits;
    var s, tail := Pad4(n) + rest, Pad2(n % 100) + rest;
    var hi, lo := n / 100, n % 100;
    assert n == 100 * hi + lo && 0 <= hi <= 99 && 0 <= lo <= 99;
    assert s == Pad2(hi) + tail && ([Year] + ps)[1..] == ps;
    PadTwo(hi, tail);
    PadTwo(lo, rest);
    hide Pad4;
    assert s[2..] == tail && s[4..] == tail[2..];
  }

  lemma MatchNum(lo: int, hi: int, low1: int, ps: seq<Piece>, n: int, rest: string)
    requires 0 <= lo <= n <= hi <= 99 && Match(ps, rest).Some?
    ensures Match([Num(lo, hi, low1)] + ps, Pad2(n) + rest) == Prepend(n, Match(ps, rest))
  {
    PadTwo(n, rest);
    assert ([Num(lo, hi, low1)] + ps)[1..] == ps;
    hide Pad2, TwoDigits;
  }

  lemma MatchLetter(upper: char, lower: char, ps: seq<Piece>, rest: string)
    ensures Match([Letter(upper, lower)] + ps, [upper] + rest) == Match(ps, rest)
  {
    assert ([upper] + rest)[1..] == rest && ([Letter(upper, lower)] + ps)[1..] == ps;
  }

  // Parsing looks at what stands between the last slash and the first dot after it.
  lemma ParseDotted(prefix: string, t: DateTime, rest: string)
    requires Valid(t) && '/' !in rest
    ensures ParseKey(prefix + ['/'] + (Stamp(t) + ['.'] + rest)) == Some(t)
  {
    StampChars(t);
    AfterLastConcat(prefix, '/', Stamp(t) + ['.'] + rest);
    BeforeFirstConcat(Stamp(t), '.', rest);
    MatchStamp(t);
    hide Stamp, Match, AfterLast, BeforeFirst, StampChar;
  }

  // So parsing the name of a dump gives back its time.
  lemma ParseFormatted(prefix: string, t: DateTime)
    requires Valid(t) && prefix != [] && prefix[|prefix| - 1] == '/'
    ensures ParseKey(KeyFor(prefix, t)) == Some(t)
  {
    hide Valid, Stamp, ParseKey;
    var s := Stamp(t) + SUFFIX;
    assert KeyFor(prefix, t) == prefix[..|prefix| - 1] + ['/'] + s;
    assert s == Stamp(t) + ['.'] + "dump.zst";
    ParseDotted(prefix[..|prefix| - 1], t, "dump.zst");
  }

  lemma MatchTime(t: DateTime)
    requires Valid(t)
    ensures Match(TIME_FORMAT,
                  Pad2(t.hour) + (Pad2(t.minute) + (Pad2(t.second) + "Z"))) == Some(([t.hour, t.minute, t.second], []))
  {
    MatchNothing("");
    hide Pad2, Match;
    var z := [Letter('Z', 'z')];
    var z2 := [Num(0, 61, 0)] + z;
    var z3 := [Num(0, 59, 0)] + z2;
    MatchLetter('Z', 'z', [], "");
    assert z + [] == z && ['Z'] + "" == "Z";
    MatchNum(0, 61, 0, z, t.second, "Z");
    MatchNum(0, 59, 0, z2, t.minute, Pad2(t.second) + "Z");
    MatchNum(0, 23, 0, z3, t.hour, Pad2(t.minute) + (Pad2(t.second) + "Z"));
    assert TIME_FORMAT == [Num(0, 23, 0)] + z3;
    assert [t.hour] + ([t.minute] + ([t.second] + [])) == [t.hour, t.minute, t.second];
  }

  lemma MatchDate(t: DateTime, p: seq<Piece>, tail: string, v: seq<int>)
    requires Valid(t) && Match(p, tail) == Some((v, []))
    ensures Match([Year] + ([Num(1, 12, 1)] + ([Num(1, 31, 1)] + ([Letter('T', 't')] + p))),
                  Pad4(t.year) + (Pad2(t.month) + (Pad2(t.day) + ("T" + tail))))
            == Some(([t.year] + ([t.month] + ([t.day] + v)), []))
  {
    hide Pad2, Pad4, Match;
    var p2 := [Letter('T', 't')] + p;
    var p3 := [Num(1, 31, 1)] + p2;
    MatchLetter('T', 't', p, tail);
    MatchNum(1, 31, 1, p2, t.day, "T" + tail);
    MatchNum(1, 12, 1, p3, t.month, Pad2(t.day) + ("T" + tail));
    MatchYear([Num(1, 12, 1)] + p3, t.year, Pad2(t.month) + (Pad2(t.day) + ("T" + tail)));
  }

  lemma MatchStamp(t: DateTime)
    requires Valid(t)
    ensures Match(FORMAT, Stamp(t)) == Some(([t.year, t.month, t.day, t.hour, t.minute, t.second], []))
  {
    hide Pad2, Pad4, Match;
    MatchTime(t);
    var time := [t.hour, t.minute, t.second];
    MatchDate(t, TIME_FORMAT, Pad2(t.hour) + (Pad2(t.minute) + (Pad2(t.second) + "Z")), time);
    assert [t.year] + ([t.month] + ([t.day] + time)) == [t.year, t.month, t.day, t.hour, t.minute, t.second];
  }

  lemma MatchNothing(s: string)
    ensures Match([], s) == Some(([], s))
  {
  }
}
