/** Timestamps normalized to one fixed-width UTC text whose order is the order of time
    (a subset of sections 4.3, 5.1 and 5.6 of RFC 3339). */
module Temporal {
  import opened Basics

  // ---------------------------------------------------------------- the calendar

  datatype Date = Date(year: int, month: int, day: int)

  /** A date and a time of day without a zone. */
  datatype Stamp = Stamp(date: Date, hour: int, minute: int, second: int, micro: int)

  predicate Leap(y: int) {
    y % 4 == 0 && (y % 100 != 0 || y % 400 == 0)
  }

  function DaysIn(y: int, m: int): int {
    if m == 2 then if Leap(y) then 29 else 28
    else if m == 4 || m == 6 || m == 9 || m == 11 then 30 else 31
  }

  predicate ValidDate(d: Date) {
    1 <= d.year <= 9999 && 1 <= d.month <= 12 && 1 <= d.day <= DaysIn(d.year, d.month)
  }

  predicate ValidStamp(s: Stamp) {
    ValidDate(s.date) && 0 <= s.hour < 24 && 0 <= s.minute < 60 && 0 <= s.second < 60 && 0 <= s.micro < 1_000_000
  }

  function LeapsBefore(y: int): int {
    (y - 1) / 4 - (y - 1) / 100 + (y - 1) / 400
  }

  function DaysBeforeYear(y: int): int {
    365 * (y - 1) + LeapsBefore(y)
  }

  function DaysBeforeMonth(y: int, m: int): int
    decreases m
  {
    if m <= 1 then 0 else DaysBeforeMonth(y, m - 1) + DaysIn(y, m - 1)
  }

  /** Days since the day before 1 January of year 1. */
  function Ordinal(d: Date): int {
    DaysBeforeYear(d.year) + DaysBeforeMonth(d.year, d.month) + d.day
  }

  /** Microseconds on the same axis, for a time read as UTC. */
  function Instant(s: Stamp): int {
    (((Ordinal(s.date) * 24 + s.hour) * 60 + s.minute) * 60 + s.second) * 1_000_000 + s.micro
  }

  const FIRST := Stamp(Date(1, 1, 1), 0, 0, 0, 0)
  const LAST := Stamp(Date(9999, 12, 31), 23, 59, 59, 999_999)

  predicate EarlierDate(a: Date, b: Date) {
    a.year < b.year || (a.year == b.year && (a.month < b.month || (a.month == b.month && a.day < b.day)))
  }

  predicate EarlierStamp(a: Stamp, b: Stamp) {
    || EarlierDate(a.date, b.date)
    || (a.date == b.date && (a.hour < b.hour || (a.hour == b.hour && (a.minute < b.minute || (a.minute == b.minute
        && (a.second < b.second || (a.second == b.second && a.micro < b.micro)))))))
  }

  function NextDay(d: Date): Date {
    if d.day < DaysIn(d.year, d.month) then d.(day := d.day + 1)
    else if d.month < 12 then Date(d.year, d.month + 1, 1) else Date(d.year + 1, 1, 1)
  }

  function PreviousDay(d: Date): Date {
    if d.day > 1 then d.(day := d.day - 1)
    else if d.month > 1 then Date(d.year, d.month - 1, DaysIn(d.year, d.month - 1)) else Date(d.year - 1, 12, 31)
  }

  lemma Quarters(y: int)
    ensures y / 4 - (y - 1) / 4 == if y % 4 == 0 then 1 else 0
  {
  }

  lemma Centuries(y: int)
    ensures y / 100 - (y - 1) / 100 == if y % 100 == 0 then 1 else 0
  {
  }

  lemma Cycles(y: int)
    ensures y / 400 - (y - 1) / 400 == if y % 400 == 0 then 1 else 0
    ensures y % 400 == 0 ==> y % 100 == 0
    ensures y % 100 == 0 ==> y % 4 == 0
  {
  }

  lemma YearLength(y: int)
    ensures DaysBeforeYear(y + 1) == DaysBeforeYear(y) + (if Leap(y) then 366 else 365)
  {
    Quarters(y);
    Centuries(y);
    Cycles(y);
  }

  lemma MonthsFillTheYear(y: int)
    ensures DaysBeforeMonth(y, 12) + 31 == if Leap(y) then 366 else 365
  {
  }

  /** The count of days is the one of the Gregorian calendar: in the closed form of Reingold and Dershowitz
      ("Calendrical Calculations", the fixed date of a Gregorian date), which has no table of months. */
  lemma OrdinalIsGregorian(d: Date)
    requires ValidDate(d)
    ensures Ordinal(d) == 365 * (d.year - 1) + (d.year - 1) / 4 - (d.year - 1) / 100 + (d.year - 1) / 400
                          + (367 * d.month - 362) / 12
                          + (if d.month <= 2 then 0 else if Leap(d.year) then -1 else -2) + d.day
  {
    var y, m := d.year, d.month;
    MonthsAre(y);
    hide DaysBeforeMonth, Leap;
  }

  lemma MonthsAre(y: int)
    ensures forall m | 1 <= m <= 12 ::
              DaysBeforeMonth(y, m) == (367 * m - 362) / 12 + (if m <= 2 then 0 else if Leap(y) then -1 else -2)
  {
    assert DaysBeforeMonth(y, 3) == 31 + (if Leap(y) then 29 else 28);
    assert DaysBeforeMonth(y, 6) == DaysBeforeMonth(y, 3) + 92;
    assert DaysBeforeMonth(y, 9) == DaysBeforeMonth(y, 6) + 92;
    assert DaysBeforeMonth(y, 12) == DaysBeforeMonth(y, 9) + 91;
  }

  /** Counting days and stepping through the calendar agree, across months and leap years. */
  lemma NextDayCounts(d: Date)
    requires ValidDate(d)
    ensures Ordinal(NextDay(d)) == Ordinal(d) + 1
    ensures d != LAST.date ==> ValidDate(NextDay(d))
  {
    hide LeapsBefore, Leap;
    if d.day == DaysIn(d.year, d.month) && d.month == 12 {
      YearLength(d.year);
      MonthsFillTheYear(d.year);
    }
  }

  lemma PreviousDayCounts(d: Date)
    requires ValidDate(d)
    ensures Ordinal(PreviousDay(d)) == Ordinal(d) - 1
    ensures d != FIRST.date ==> ValidDate(PreviousDay(d))
  {
    hide LeapsBefore, Leap;
    if d.day == 1 && d.month == 1 {
      YearLength(d.year - 1);
      MonthsFillTheYear(d.year - 1);
      assert DaysBeforeYear(d.year - 1 + 1) == DaysBeforeYear(d.year);
    }
  }

  lemma {:induction false} YearsGrow(a: int, b: int)
    requires a <= b
    ensures DaysBeforeYear(a) <= DaysBeforeYear(b)
    decreases b - a
  {
  }

  lemma {:induction false} MonthsGrow(y: int, a: int, b: int)
    requires 1 <= a < b
    ensures DaysBeforeMonth(y, a) + DaysIn(y, a) <= DaysBeforeMonth(y, b)
    decreases b
  {
    if a < b - 1 {
      MonthsGrow(y, a, b - 1);
    }
  }

  lemma WithinYear(d: Date)
    requires ValidDate(d)
    ensures DaysBeforeYear(d.year) < Ordinal(d) <= DaysBeforeYear(d.year + 1)
  {
    YearLength(d.year);
    MonthsFillTheYear(d.year);
    if d.month < 12 {
      MonthsGrow(d.year, d.month, 12);
    }
    MonthsAreNonnegative(d.year, d.month);
    hide DaysBeforeYear, Leap, DaysBeforeMonth;
  }

  lemma {:induction false} MonthsAreNonnegative(y: int, m: int)
    ensures DaysBeforeMonth(y, m) >= 0
    decreases m
  {
    if m > 1 {
      MonthsAreNonnegative(y, m - 1);
    }
  }

  lemma EarlierDatesCountLess(a: Date, b: Date)
    requires ValidDate(a) && ValidDate(b) && EarlierDate(a, b)
    ensures Ordinal(a) < Ordinal(b)
  {
    if a.year < b.year {
      WithinYear(a);
      WithinYear(b);
      YearsGrow(a.year + 1, b.year);
      hide Ordinal, DaysBeforeYear;
    } else if a.month < b.month {
      MonthsGrow(a.year, a.month, b.month);
      hide DaysBeforeYear, DaysBeforeMonth, Leap;
    }
  }

  /** The order of time on stamps is the order of their fields. */
  lemma EarlierMeansLess(a: Stamp, b: Stamp)
    requires ValidStamp(a) && ValidStamp(b)
    ensures EarlierStamp(a, b) <==> Instant(a) < Instant(b)
    ensures a == b <==> Instant(a) == Instant(b)
  {
    hide Ordinal, DaysIn;
    if EarlierDate(a.date, b.date) {
      EarlierDatesCountLess(a.date, b.date);
    } else if EarlierDate(b.date, a.date) {
      EarlierDatesCountLess(b.date, a.date);
    } else {
      assert a.date == b.date;
    }
  }

  // ---------------------------------------------------------------- reading a text

  predicate IsDigit(c: char) {
    '0' <= c <= '9'
  }

  predicate AllDigits(s: string) {
    forall i | 0 <= i < |s| :: IsDigit(s[i])
  }

  function Value(s: string): int
    requires AllDigits(s)
  {
    if s == "" then 0 else 10 * Value(s[..|s| - 1]) + (s[|s| - 1] as int - '0' as int)
  }

  /** `date.fromisoformat` on `\\d{4}-\\d{2}-\\d{2}`. */
  function ReadDate(s: string): Option<Date> {
    if |s| == 10 && AllDigits(s[0..4]) && s[4] == '-' && AllDigits(s[5..7]) && s[7] == '-' && AllDigits(s[8..10])
    then
      var d := Date(Value(s[0..4]), Value(s[5..7]), Value(s[8..10]));
      if ValidDate(d) then Some(d) else None
    else None
  }

  /** The value of a decimal digit of any script, as `\\d` matches it and `int()` reads it. */
  type Decimals = char -> Option<int>

  /** Among the ASCII characters exactly `0` to `9` are digits, with their own values. */
  ghost predicate AreDecimals(digits: Decimals) {
    && (forall c | IsDigit(c) :: digits(c) == Some(c as int - '0' as int))
    && (forall c: char | c as int < 128 && !IsDigit(c) :: digits(c) == None)
  }

  function PlainChar(digits: Decimals, c: char): char {
    match digits(c)
    case Some(n) => if 0 <= n < 10 then Digit(n) else c
    case None => c
  }

  /** The text with every digit in its ASCII form. */
  function Plain(digits: Decimals, s: string): (t: string)
    ensures |t| == |s|
  {
    seq(|s|, i requires 0 <= i < |s| => PlainChar(digits, s[i]))
  }

  /** The unknown local offset, which is refused only in ASCII digits. */
  predicate EndsUnknown(s: string) {
    |s| >= 6 && s[|s| - 6..] == "-00:00"
  }

  /** Minutes east of UTC. An offset beyond 14 hours is refused. */
  function ReadZone(s: string): Option<int> {
    if s == "Z" then Some(0)
    else if |s| == 6 && (s[0] == '+' || s[0] == '-') && AllDigits(s[1..3]) && s[3] == ':' && AllDigits(s[4..6])
    then
      var h, m := Value(s[1..3]), Value(s[4..6]);
      if m > 59 || h > 14 || (h == 14 && m != 0) then None
      else Some(if s[0] == '+' then 60 * h + m else -(60 * h + m))
    else None
  }

  function DigitsAhead(s: string): (n: nat)
    ensures n <= |s| && AllDigits(s[..n]) && (n < |s| ==> !IsDigit(s[n]))
  {
    if s == "" || !IsDigit(s[0]) then 0
    else
      var n := DigitsAhead(s[1..]);
      assert forall i | 0 < i < n + 1 :: s[i] == s[1..][i - 1];
      n + 1
  }

  function Zeros(n: nat): (s: string)
    ensures |s| == n && AllDigits(s)
  {
    if n == 0 then "" else Zeros(n - 1) + "0"
  }

  /** The optional fraction, padded on the right to microseconds, and what follows it. */
  function ReadFraction(s: string): Option<(int, string)> {
    if s == "" || s[0] != '.' then Some((0, s))
    else
      var n := DigitsAhead(s[1..]);
      if 1 <= n <= 6 then Some((Value(s[1..][..n] + Zeros(6 - n)), s[1..][n..])) else None
  }

  function ReadTime(d: Date, s: string): Option<(Stamp, int)> {
    if |s| >= 9 && s[0] == 'T' && AllDigits(s[1..3]) && s[3] == ':' && AllDigits(s[4..6]) && s[6] == ':' && AllDigits(s[7..9])
    then
      match ReadFraction(s[9..])
      case None => None
      case Some(rest) =>
        match ReadZone(rest.1)
        case None => None
        case Some(offset) =>
          var stamp := Stamp(d, Value(s[1..3]), Value(s[4..6]), Value(s[7..9]), rest.0);
          if ValidStamp(stamp) then Some((stamp, offset)) else None
    else None
  }

  /** A local stamp and its offset; a bare date is midnight UTC. The date takes ASCII digits only. */
  function Read(digits: Decimals, s: string): Option<(Stamp, int)> {
    if |s| < 10 then None
    else
      match ReadDate(s[..10])
      case None => None
      case Some(d) => if |s| == 10 then Some((Stamp(d, 0, 0, 0, 0), 0))
                      else if EndsUnknown(s[10..]) then None else ReadTime(d, Plain(digits, s[10..]))
  }

  // ---------------------------------------------------------------- to UTC and back to text

  /** `astimezone(utc)`; `None` where the result leaves years 1 to 9999. */
  function ToUtc(s: Stamp, offset: int): Option<Stamp> {
    var t := s.hour * 60 + s.minute - offset;
    var d, u := CarriedDate(s.date, t), CarriedMinute(t);
    if ValidDate(d) then Some(Stamp(d, u / 60, u % 60, s.second, s.micro)) else None
  }

  function CarriedDate(d: Date, t: int): Date {
    if t < 0 then PreviousDay(d) else if t >= 1440 then NextDay(d) else d
  }

  function CarriedMinute(t: int): int {
    if t < 0 then t + 1440 else if t >= 1440 then t - 1440 else t
  }

  function Digit(n: int): char
    requires 0 <= n < 10
  {
    (n + '0' as int) as char
  }

  /** `%0<w>d`. */
  function Pad(n: int, w: nat): (s: string)
    requires n >= 0
    ensures |s| == w
  {
    if w == 0 then "" else Pad(n / 10, w - 1) + [Digit(n % 10)]
  }

  function Fixed(s: Stamp): string
    requires ValidStamp(s)
  {
    Pad(s.date.year, 4) + "-" + Pad(s.date.month, 2) + "-" + Pad(s.date.day, 2) + "T" + Pad(s.hour, 2) + ":"
    + Pad(s.minute, 2) + ":" + Pad(s.second, 2) + "." + Pad(s.micro, 6) + "Z"
  }

  /** `canonical_utc`. */
  function Canonical(digits: Decimals, s: string): Option<string> {
    match Read(digits, s)
    case None => None
    case Some(local) =>
      match ToUtc(local.0, local.1)
      case None => None
      case Some(utc) => if ValidStamp(utc) then Some(Fixed(utc)) else None
  }

  /** The instant a text of the subset denotes. */
  function Denotes(digits: Decimals, s: string): Option<int> {
    match Read(digits, s)
    case None => None
    case Some(local) => Some(Instant(local.0) - local.1 * 60_000_000)
  }

  // ---------------------------------------------------------------- the shift to UTC

  /** The same axis, by day and minute of the day. */
  function At(day: int, minute: int, second: int, micro: int): int {
    ((day * 1440 + minute) * 60 + second) * 1_000_000 + micro
  }

  lemma InstantByMinutes(s: Stamp)
    ensures Instant(s) == At(Ordinal(s.date), s.hour * 60 + s.minute, s.second, s.micro)
  {
  }

  lemma MinuteOfDay(u: int)
    requires 0 <= u < 1440
    ensures 0 <= u / 60 < 24 && 0 <= u % 60 < 60 && u / 60 * 60 + u % 60 == u
  {
  }

  lemma Shifted(day: int, t: int, offset: int, second: int, micro: int, day1: int, u: int)
    requires day1 * 1440 + u == day * 1440 + t - offset
    ensures At(day1, u, second, micro) == At(day, t, second, micro) - offset * 60_000_000
  {
  }

  /** Carrying a day over keeps the count of minutes. */
  lemma CarryCounts(d: Date, t: int)
    requires ValidDate(d) && -1440 <= t < 2880
    ensures Ordinal(CarriedDate(d, t)) * 1440 + CarriedMinute(t) == Ordinal(d) * 1440 + t
    ensures 0 <= CarriedMinute(t) < 1440
    ensures ValidDate(CarriedDate(d, t)) || Ordinal(CarriedDate(d, t)) == 0
         || Ordinal(CarriedDate(d, t)) == Ordinal(LAST.date) + 1
  {
    hide Ordinal, PreviousDay, NextDay, ValidDate;
    NextDayCounts(d);
    PreviousDayCounts(d);
    Edges();
    if t < 0 {
      assert d == FIRST.date || ValidDate(PreviousDay(d));
    } else if t >= 1440 {
      assert d == LAST.date || ValidDate(NextDay(d));
    }
  }

  /** The shift denotes the same instant, and fails exactly outside years 1 to 9999. */
  lemma ToUtcIsExact(s: Stamp, offset: int)
    requires ValidStamp(s) && -840 <= offset <= 840
    ensures var instant := Instant(s) - offset * 60_000_000;
            && (ToUtc(s, offset).Some? <==> Instant(FIRST) <= instant <= Instant(LAST))
            && (ToUtc(s, offset).Some? ==> ValidStamp(ToUtc(s, offset).value) && Instant(ToUtc(s, offset).value) == instant)
  {
    hide Ordinal, Instant, CarriedDate, CarriedMinute;
    var t := s.hour * 60 + s.minute;
    var d, u := CarriedDate(s.date, t - offset), CarriedMinute(t - offset);
    CarryCounts(s.date, t - offset);
    InstantByMinutes(s);
    Shifted(Ordinal(s.date), t, offset, s.second, s.micro, Ordinal(d), u);
    MinuteOfDay(u);
    Edges();
    InstantByMinutes(FIRST);
    InstantByMinutes(LAST);
    if ValidDate(d) {
      var utc := Stamp(d, u / 60, u % 60, s.second, s.micro);
      InRange(utc);
      InstantByMinutes(utc);
    }
  }

  lemma Edges()
    ensures Ordinal(FIRST.date) == 1 && Ordinal(PreviousDay(FIRST.date)) == 0
    ensures Ordinal(NextDay(LAST.date)) == Ordinal(LAST.date) + 1
  {
    NextDayCounts(LAST.date);
    PreviousDayCounts(FIRST.date);
  }

  lemma InRange(s: Stamp)
    requires ValidStamp(s)
    ensures Instant(FIRST) <= Instant(s) <= Instant(LAST)
  {
    EarlierMeansLess(s, FIRST);
    EarlierMeansLess(LAST, s);
    hide Instant;
  }

  lemma ReadIsBounded(digits: Decimals, s: string)
    requires Read(digits, s).Some?
    ensures ValidStamp(Read(digits, s).value.0) && -840 <= Read(digits, s).value.1 <= 840
  {
    if |s| > 10 {
      ReadTimeIsBounded(ReadDate(s[..10]).value, Plain(digits, s[10..]));
    }
    hide ReadTime, Value, ValidDate;
  }

  lemma ReadTimeIsBounded(d: Date, s: string)
    requires ReadTime(d, s).Some?
    ensures ValidStamp(ReadTime(d, s).value.0) && -840 <= ReadTime(d, s).value.1 <= 840
  {
    var rest := ReadFraction(s[9..]).value;
    ZoneIsBounded(rest.1);
    hide Value, ValidStamp, ReadZone, ReadFraction;
  }

  lemma ZoneIsBounded(s: string)
    requires ReadZone(s).Some?
    ensures -840 <= ReadZone(s).value <= 840
  {
    if s != "Z" {
      ValueIsNatural(s[1..3]);
      ValueIsNatural(s[4..6]);
    }
    hide Value;
  }

  lemma {:induction false} ValueIsNatural(s: string)
    requires AllDigits(s)
    ensures Value(s) >= 0
    decreases |s|
  {
    if s != "" {
      ValueIsNatural(s[..|s| - 1]);
    }
  }

  // ---------------------------------------------------------------- the fixed text

  function Pow10(w: nat): int {
    if w == 0 then 1 else 10 * Pow10(w - 1)
  }

  lemma {:induction false} PadReads(n: int, w: nat)
    requires 0 <= n < Pow10(w)
    ensures AllDigits(Pad(n, w)) && Value(Pad(n, w)) == n
    decreases w
  {
    if w > 0 {
      PadReads(n / 10, w - 1);
      var s := Pad(n / 10, w - 1) + [Digit(n % 10)];
      assert s[..|s| - 1] == Pad(n / 10, w - 1);
      assert AllDigits(s);
    }
  }

  lemma {:induction false} PadOrders(a: int, b: int, w: nat)
    requires 0 <= a < Pow10(w) && 0 <= b < Pow10(w)
    ensures LexLess(Pad(a, w), Pad(b, w)) <==> a < b
    ensures Pad(a, w) == Pad(b, w) <==> a == b
    decreases w
  {
    if w > 0 {
      PadOrders(a / 10, b / 10, w - 1);
      var p, q := Pad(a / 10, w - 1), Pad(b / 10, w - 1);
      var s, t := [Digit(a % 10)], [Digit(b % 10)];
      LexConcat(p, q, s, t);
      OneDigit(a % 10, b % 10);
      if p + s == q + t {
        assert (p + s)[..w - 1] == p && (q + t)[..w - 1] == q;
        assert (p + s)[w - 1] == (q + t)[w - 1];
      }
      hide LexLess, Pow10, Digit;
    }
  }

  lemma OneDigit(a: int, b: int)
    requires 0 <= a < 10 && 0 <= b < 10
    ensures LexLess([Digit(a)], [Digit(b)]) <==> a < b
    ensures Digit(a) == Digit(b) <==> a == b
  {
  }

  /** Texts of equal length compare by their first parts, then by their second. */
  lemma {:induction false} LexConcat(p: string, q: string, s: string, t: string)
    requires |p| == |q|
    ensures LexLess(p + s, q + t) <==> LexLess(p, q) || (p == q && LexLess(s, t))
    decreases |p|
  {
    if p == "" {
      assert p + s == s && q + t == t;
    } else {
      assert (p + s)[1..] == p[1..] + s && (q + t)[1..] == q[1..] + t;
      assert p == [p[0]] + p[1..] && q == [q[0]] + q[1..];
      LexConcat(p[1..], q[1..], s, t);
    }
  }

  lemma Pow10Values()
    ensures Pow10(2) == 100 && Pow10(4) == 10_000 && Pow10(6) == 1_000_000
  {
  }

  lemma LexField(a: int, b: int, w: nat, sep: string, s: string, t: string)
    requires 0 <= a < Pow10(w) && 0 <= b < Pow10(w)
    ensures LexLess(Pad(a, w) + (sep + s), Pad(b, w) + (sep + t)) <==> a < b || (a == b && LexLess(s, t))
  {
    PadOrders(a, b, w);
    LexConcat(Pad(a, w), Pad(b, w), sep + s, sep + t);
    LexConcat(sep, sep, s, t);
    LexIrreflexive(sep);
    hide LexLess, Pad;
  }

  lemma LexIrreflexive(s: string)
    ensures !LexLess(s, s)
  {
  }

  function TimeText(s: Stamp): string
    requires ValidStamp(s)
  {
    Pad(s.hour, 2) + (":" + (Pad(s.minute, 2) + (":" + (Pad(s.second, 2) + ("." + (Pad(s.micro, 6) + ("Z" + "")))))))
  }

  function DateText(d: Date, rest: string): string
    requires ValidDate(d)
  {
    Pad(d.year, 4) + ("-" + (Pad(d.month, 2) + ("-" + (Pad(d.day, 2) + ("T" + rest)))))
  }

  lemma FixedIs(s: Stamp)
    requires ValidStamp(s)
    ensures Fixed(s) == DateText(s.date, TimeText(s))
  {
  }

  lemma TimeTextOrders(a: Stamp, b: Stamp)
    requires ValidStamp(a) && ValidStamp(b)
    ensures LexLess(TimeText(a), TimeText(b)) <==>
              a.hour < b.hour || (a.hour == b.hour && (a.minute < b.minute || (a.minute == b.minute
                && (a.second < b.second || (a.second == b.second && a.micro < b.micro)))))
  {
    Pow10Values();
    hide LexLess, Pad, Pow10, ValidDate;
    var a4, b4 := Pad(a.micro, 6) + ("Z" + ""), Pad(b.micro, 6) + ("Z" + "");
    LexField(a.micro, b.micro, 6, "Z", "", "");
    LexIrreflexive("");
    var a3, b3 := Pad(a.second, 2) + ("." + a4), Pad(b.second, 2) + ("." + b4);
    LexField(a.second, b.second, 2, ".", a4, b4);
    var a2, b2 := Pad(a.minute, 2) + (":" + a3), Pad(b.minute, 2) + (":" + b3);
    LexField(a.minute, b.minute, 2, ":", a3, b3);
    LexField(a.hour, b.hour, 2, ":", a2, b2);
  }

  lemma DateTextOrders(a: Date, b: Date, s: string, t: string)
    requires ValidDate(a) && ValidDate(b)
    ensures LexLess(DateText(a, s), DateText(b, t)) <==> EarlierDate(a, b) || (a == b && LexLess(s, t))
  {
    Pow10Values();
    hide LexLess, Pad, Pow10;
    var a2, b2 := Pad(a.day, 2) + ("T" + s), Pad(b.day, 2) + ("T" + t);
    LexField(a.day, b.day, 2, "T", s, t);
    var a1, b1 := Pad(a.month, 2) + ("-" + a2), Pad(b.month, 2) + ("-" + b2);
    LexField(a.month, b.month, 2, "-", a2, b2);
    LexField(a.year, b.year, 4, "-", a1, b1);
  }

  /** The binary collation of the fixed texts is the order of the instants they denote. */
  lemma TextOrderIsTimeOrder(a: Stamp, b: Stamp)
    requires ValidStamp(a) && ValidStamp(b)
    ensures LexLess(Fixed(a), Fixed(b)) <==> Instant(a) < Instant(b)
    ensures Fixed(a) == Fixed(b) <==> Instant(a) == Instant(b)
  {
    FixedIs(a);
    FixedIs(b);
    DateTextOrders(a.date, b.date, TimeText(a), TimeText(b));
    TimeTextOrders(a, b);
    EarlierMeansLess(a, b);
    EarlierMeansLess(b, a);
    DateTextOrders(b.date, a.date, TimeText(b), TimeText(a));
    TimeTextOrders(b, a);
    LexTotal(Fixed(a), Fixed(b));
    LexIrreflexive(Fixed(a));
    hide Fixed, DateText, TimeText, LexLess, Instant, ValidStamp;
  }

  // ---------------------------------------------------------------- reading it back

  lemma {:induction false} DigitsStop(p: string, rest: string)
    requires AllDigits(p) && (rest == "" || !IsDigit(rest[0]))
    ensures DigitsAhead(p + rest) == |p|
    decreases |p|
  {
    if p == "" {
      assert p + rest == rest;
    } else {
      assert (p + rest)[1..] == p[1..] + rest;
      DigitsStop(p[1..], rest);
    }
  }

  /** The part of a text between two others. */
  lemma Middle(p: string, q: string, r: string)
    ensures (p + q + r)[|p|..|p| + |q|] == q
  {
  }

  lemma FractionReads(micro: int)
    requires 0 <= micro < 1_000_000
    ensures ReadFraction("." + (Pad(micro, 6) + "Z")) == Some((micro, "Z"))
  {
    Pow10Values();
    PadReads(micro, 6);
    var p := Pad(micro, 6);
    var s := "." + (p + "Z");
    assert s[1..] == p + "Z";
    DigitsStop(p, "Z");
    assert (p + "Z")[..6] == p && (p + "Z")[6..] == "Z";
    assert p + Zeros(0) == p;
    hide Value, Pad, DigitsAhead, Pow10;
  }

  lemma TimeReads(s: Stamp)
    requires ValidStamp(s)
    ensures ReadTime(s.date, "T" + TimeText(s)) == Some((s, 0))
  {
    Pow10Values();
    PadReads(s.hour, 2);
    PadReads(s.minute, 2);
    PadReads(s.second, 2);
    FractionReads(s.micro);
    TimeSlices(s);
    hide Value, Pad, ReadFraction, Pow10, ValidDate, TimeText;
  }

  lemma TimeSlices(s: Stamp)
    requires ValidStamp(s)
    ensures var t := "T" + TimeText(s);
            && |t| == 17 && t[0] == 'T' && t[3] == ':' && t[6] == ':'
            && t[1..3] == Pad(s.hour, 2) && t[4..6] == Pad(s.minute, 2) && t[7..9] == Pad(s.second, 2)
            && t[9..] == "." + (Pad(s.micro, 6) + "Z")
  {
  }

  lemma DateReads(d: Date, rest: string)
    requires ValidDate(d)
    ensures var s := DateText(d, rest);
            |s| >= 10 && ReadDate(s[..10]) == Some(d) && s[10..] == "T" + rest
  {
    Pow10Values();
    PadReads(d.year, 4);
    PadReads(d.month, 2);
    PadReads(d.day, 2);
    DateSlices(d, rest);
    hide Value, Pad, Pow10, DateText;
  }

  lemma DateSlices(d: Date, rest: string)
    requires ValidDate(d)
    ensures var s := DateText(d, rest);
            && |s| >= 10 && s[..10][4] == '-' && s[..10][7] == '-'
            && s[..10][0..4] == Pad(d.year, 4) && s[..10][5..7] == Pad(d.month, 2) && s[..10][8..10] == Pad(d.day, 2)
            && s[10..] == "T" + rest
  {
    var s := DateText(d, rest);
    var y, m, day := Pad(d.year, 4), Pad(d.month, 2), Pad(d.day, 2);
    hide Pad, ValidDate;
    var h := y + "-" + m + "-" + day;
    assert s == h + ("T" + rest);
    assert s[..10] == h;
    assert h == "" + y + ("-" + m + "-" + day);
    Middle("", y, "-" + m + "-" + day);
    assert h == (y + "-") + m + ("-" + day);
    Middle(y + "-", m, "-" + day);
    assert h == (y + "-" + m + "-") + day + "";
    Middle(y + "-" + m + "-", day, "");
  }

  predicate Ascii(s: string) {
    forall i | 0 <= i < |s| :: s[i] as int < 128
  }

  lemma PlainOfAscii(digits: Decimals, s: string)
    requires AreDecimals(digits) && Ascii(s)
    ensures Plain(digits, s) == s
  {
    forall i | 0 <= i < |s| ensures PlainChar(digits, s[i]) == s[i] {
    }
  }

  lemma PadIsAscii(n: int, w: nat)
    requires 0 <= n < Pow10(w)
    ensures Ascii(Pad(n, w))
  {
    PadReads(n, w);
    hide Pad, Value;
  }

  lemma AsciiConcat(s: string, t: string)
    requires Ascii(s) && Ascii(t)
    ensures Ascii(s + t)
  {
  }

  lemma TimeTextIsAscii(s: Stamp)
    requires ValidStamp(s)
    ensures Ascii("T" + TimeText(s))
  {
    Pow10Values();
    assert Ascii("T") && Ascii(":") && Ascii(".") && Ascii("Z" + "");
    hide Pad, Pow10, ValidDate, Ascii;
    PadIsAscii(s.hour, 2);
    PadIsAscii(s.minute, 2);
    PadIsAscii(s.second, 2);
    PadIsAscii(s.micro, 6);
    var t4 := Pad(s.micro, 6) + ("Z" + "");
    AsciiConcat(Pad(s.micro, 6), "Z" + "");
    var t3 := Pad(s.second, 2) + ("." + t4);
    AsciiConcat(".", t4);
    AsciiConcat(Pad(s.second, 2), "." + t4);
    var t2 := Pad(s.minute, 2) + (":" + t3);
    AsciiConcat(":", t3);
    AsciiConcat(Pad(s.minute, 2), ":" + t3);
    AsciiConcat(":", t2);
    AsciiConcat(Pad(s.hour, 2), ":" + t2);
    AsciiConcat("T", TimeText(s));
  }

  /** It ends with `Z`, so with no unknown offset. */
  lemma TimeTextEndsInZ(s: Stamp)
    requires ValidStamp(s)
    ensures !EndsUnknown("T" + TimeText(s))
  {
    TimeSlices(s);
    var t := "T" + TimeText(s);
    hide Pad, TimeText, ValidDate;
    assert t[9..][7] == 'Z' && t[16] == 'Z' && t[|t| - 6..][5] == t[16];
  }

  lemma FixedReads(digits: Decimals, s: Stamp)
    requires AreDecimals(digits) && ValidStamp(s)
    ensures Read(digits, Fixed(s)) == Some((s, 0))
  {
    FixedIs(s);
    DateReads(s.date, TimeText(s));
    TimeReads(s);
    TimeTextIsAscii(s);
    TimeTextEndsInZ(s);
    PlainOfAscii(digits, "T" + TimeText(s));
    hide Plain, EndsUnknown, Ascii, Fixed, DateText, TimeText, ReadTime, ReadDate, ValidStamp;
  }

  // ---------------------------------------------------------------- what normalization promises

  /** It denotes the same instant, and refuses exactly what is not in the subset or what UTC
      would put outside years 1 to 9999. */
  lemma CanonicalDenotesTheSame(digits: Decimals, s: string)
    requires AreDecimals(digits)
    ensures Canonical(digits, s).Some? <==> Denotes(digits, s).Some? && Instant(FIRST) <= Denotes(digits, s).value <= Instant(LAST)
    ensures Canonical(digits, s).Some? ==> Denotes(digits, Canonical(digits, s).value) == Denotes(digits, s)
  {
    hide Read, Instant, ValidStamp, Fixed;
    if Read(digits, s).Some? {
      ReadIsBounded(digits, s);
      var local := Read(digits, s).value;
      ToUtcIsExact(local.0, local.1);
      if ToUtc(local.0, local.1).Some? {
        FixedReads(digits, ToUtc(local.0, local.1).value);
      }
      hide ToUtc;
    }
  }

  lemma CanonicalIsFixed(digits: Decimals, s: string)
    requires Canonical(digits, s).Some?
    ensures exists u :: ValidStamp(u) && Canonical(digits, s).value == Fixed(u)
  {
    hide Read, Instant, Fixed;
  }

  /** Normalizing twice changes nothing. */
  lemma CanonicalIsIdempotent(digits: Decimals, s: string)
    requires AreDecimals(digits) && Canonical(digits, s).Some?
    ensures Canonical(digits, Canonical(digits, s).value) == Canonical(digits, s)
  {
    CanonicalIsFixed(digits, s);
    var u :| ValidStamp(u) && Canonical(digits, s).value == Fixed(u);
    FixedReads(digits, u);
    ToUtcZero(u);
    hide Read, Fixed, ValidStamp, ToUtc;
  }

  lemma ToUtcZero(u: Stamp)
    requires ValidStamp(u)
    ensures ToUtc(u, 0) == Some(u)
  {
  }

  /** What the database compares as text is compared as time. */
  lemma CanonicalOrder(digits: Decimals, s: string, t: string)
    requires AreDecimals(digits) && Canonical(digits, s).Some? && Canonical(digits, t).Some?
    ensures LexLess(Canonical(digits, s).value, Canonical(digits, t).value) <==> Denotes(digits, s).value < Denotes(digits, t).value
    ensures Canonical(digits, s).value == Canonical(digits, t).value <==> Denotes(digits, s) == Denotes(digits, t)
  {
    CanonicalDenotesTheSame(digits, s);
    CanonicalDenotesTheSame(digits, t);
    CanonicalIsFixed(digits, s);
    CanonicalIsFixed(digits, t);
    var u :| ValidStamp(u) && Canonical(digits, s).value == Fixed(u);
    var v :| ValidStamp(v) && Canonical(digits, t).value == Fixed(v);
    FixedReads(digits, u);
    FixedReads(digits, v);
    TextOrderIsTimeOrder(u, v);
    hide Canonical, Read, Fixed, LexLess, ValidStamp, Instant;
  }
}
