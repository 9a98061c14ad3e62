/** The texts `canonical_utc` reads, written out: the grammar of the subset against its reader. */
module Offsets {
  import opened Basics
  import opened Temporal

  /** `Z`, or a signed distance from UTC. */
  datatype Zone = Utc | East(hours: int, minutes: int) | West(hours: int, minutes: int)

  /** At most 14 hours. */
  predicate ValidZone(z: Zone) {
    z.Utc? || (0 <= z.hours && 0 <= z.minutes < 60 && (z.hours < 14 || (z.hours == 14 && z.minutes == 0)))
  }

  /** How far local time is ahead of UTC, in microseconds. */
  function Ahead(z: Zone): int {
    match z
    case Utc => 0
    case East(h, m) => (60 * h + m) * 60_000_000
    case West(h, m) => -(60 * h + m) * 60_000_000
  }

  function ZoneText(z: Zone): string
    requires ValidZone(z)
  {
    match z
    case Utc => "Z"
    case East(h, m) => "+" + (Pad(h, 2) + (":" + Pad(m, 2)))
    case West(h, m) => "-" + (Pad(h, 2) + (":" + Pad(m, 2)))
  }

  /** A fraction of a second: `width` digits, none if it is zero. */
  datatype Fraction = Fraction(digits: int, width: nat)

  predicate ValidFraction(f: Fraction) {
    f.width <= 6 && 0 <= f.digits < Pow10(f.width)
  }

  function FractionText(f: Fraction): string
    requires ValidFraction(f)
  {
    if f.width == 0 then "" else "." + Pad(f.digits, f.width)
  }

  /** A tenth is a hundred thousand microseconds, and so on. */
  function Micros(f: Fraction): int
    requires ValidFraction(f)
  {
    f.digits * Pow10(6 - f.width)
  }

  predicate ValidClock(s: Stamp) {
    0 <= s.hour < 24 && 0 <= s.minute < 60 && 0 <= s.second < 60
  }

  function ClockText(s: Stamp, rest: string): string
    requires ValidClock(s)
  {
    "T" + (Pad(s.hour, 2) + (":" + (Pad(s.minute, 2) + (":" + (Pad(s.second, 2) + rest)))))
  }

  /** The time of day of a local stamp, with its fraction and its zone. */
  function TimeOfDay(s: Stamp, f: Fraction, z: Zone): string
    requires ValidClock(s) && ValidFraction(f) && ValidZone(z)
  {
    ClockText(s, FractionText(f) + ZoneText(z))
  }

  function DayText(d: Date): string
    requires ValidDate(d)
  {
    Pad(d.year, 4) + "-" + Pad(d.month, 2) + "-" + Pad(d.day, 2)
  }

  // ---------------------------------------------------------------- digits

  lemma {:induction false} ValueIsPadded(s: string)
    requires AllDigits(s)
    ensures 0 <= Value(s) < Pow10(|s|) && Pad(Value(s), |s|) == s
    decreases |s|
  {
    if s != "" {
      var p := s[..|s| - 1];
      ValueIsPadded(p);
      var last := s[|s| - 1] as int - '0' as int;
      assert Value(s) == 10 * Value(p) + last;
      assert Value(s) / 10 == Value(p) && Value(s) % 10 == last;
      assert Digit(last) == s[|s| - 1];
      assert s == p + [s[|s| - 1]];
    }
  }

  lemma {:induction false} ValueOfZeros(p: string, n: nat)
    requires AllDigits(p)
    ensures AllDigits(p + Zeros(n)) && Value(p + Zeros(n)) == Value(p) * Pow10(n)
  {
    if n == 0 {
      assert p + Zeros(0) == p;
    } else {
      ValueOfZeros(p, n - 1);
      var q := p + Zeros(n - 1);
      assert p + Zeros(n) == q + "0";
      assert (q + "0")[..|q + "0"| - 1] == q;
      Scaled(Value(p), Pow10(n - 1));
    }
  }

  lemma Scaled(a: int, b: int)
    ensures 10 * (a * b) == a * (10 * b)
  {
  }

  lemma Pow10Positive(n: nat)
    ensures Pow10(n) >= 1
  {
  }

  // ---------------------------------------------------------------- the fraction and the zone

  lemma FractionIsRead(f: Fraction, rest: string)
    requires ValidFraction(f) && rest != "" && !IsDigit(rest[0]) && rest[0] != '.'
    ensures ReadFraction(FractionText(f) + rest) == Some((Micros(f), rest))
  {
    if f.width == 0 {
      assert FractionText(f) + rest == rest;
    } else {
      PadReads(f.digits, f.width);
      var p := Pad(f.digits, f.width);
      var s := FractionText(f) + rest;
      assert s[1..] == p + rest;
      DigitsStop(p, rest);
      assert (p + rest)[..f.width] == p && (p + rest)[f.width..] == rest;
      ValueOfZeros(p, 6 - f.width);
      hide Value, Pad, DigitsAhead, Pow10;
    }
  }

  /** Whatever is read as a fraction was one. */
  lemma FractionWasWritten(s: string) returns (f: Fraction)
    requires ReadFraction(s).Some?
    ensures ValidFraction(f) && ReadFraction(s).value.0 == Micros(f) && s == FractionText(f) + ReadFraction(s).value.1
  {
    if s == "" || s[0] != '.' {
      f := Fraction(0, 0);
      assert s == "" + s;
    } else {
      var n := DigitsAhead(s[1..]);
      var p := s[1..][..n];
      ValueIsPadded(p);
      ValueOfZeros(p, 6 - n);
      f := Fraction(Value(p), n);
      assert s == ("." + p) + s[1..][n..];
      hide Value, Pad, DigitsAhead, Pow10;
    }
  }

  lemma TwoDigits(n: int)
    requires 0 <= n < 100
    ensures AllDigits(Pad(n, 2)) && |Pad(n, 2)| == 2 && Value(Pad(n, 2)) == n
  {
    Pow10Values();
    PadReads(n, 2);
  }

  lemma ZoneIsRead(z: Zone)
    requires ValidZone(z)
    ensures ReadZone(ZoneText(z)).Some? && ReadZone(ZoneText(z)).value * 60_000_000 == Ahead(z)
    ensures ZoneText(z) != "" && !IsDigit(ZoneText(z)[0]) && ZoneText(z)[0] != '.'
  {
    if !z.Utc? {
      TwoDigits(z.hours);
      TwoDigits(z.minutes);
      ZoneSlices(z);
      hide Pad, Value, ZoneText;
    }
  }

  lemma ZoneSlices(z: Zone)
    requires ValidZone(z) && !z.Utc?
    ensures var s := ZoneText(z);
            && |s| == 6 && s[0] == (if z.East? then '+' else '-') && s[3] == ':'
            && s[1..3] == Pad(z.hours, 2) && s[4..6] == Pad(z.minutes, 2)
  {
  }

  lemma ZoneWasWritten(s: string) returns (z: Zone)
    requires ReadZone(s).Some?
    ensures ValidZone(z) && s == ZoneText(z) && ReadZone(s).value * 60_000_000 == Ahead(z)
  {
    z := Utc;
    if s != "Z" {
      hide ZoneText, Value, Pad;
      ValueIsPadded(s[1..3]);
      ValueIsPadded(s[4..6]);
      var h, m := Value(s[1..3]), Value(s[4..6]);
      z := if s[0] == '+' then East(h, m) else West(h, m);
      ZoneOfFields(s, h, m, z);
    }
  }

  lemma ZoneOfFields(s: string, h: int, m: int, z: Zone)
    requires |s| == 6 && (s[0] == '+' || s[0] == '-') && s[3] == ':' && ValidZone(z)
    requires 0 <= h && 0 <= m && s[1..3] == Pad(h, 2) && s[4..6] == Pad(m, 2)
    requires z == if s[0] == '+' then East(h, m) else West(h, m)
    ensures s == ZoneText(z)
  {
    SixChars(s);
    hide Pad;
  }

  lemma SixChars(s: string)
    requires |s| == 6
    ensures s == [s[0]] + (s[1..3] + ([s[3]] + s[4..6]))
  {
  }

  // ---------------------------------------------------------------- the time of day

  lemma ClockSlices(s: Stamp, rest: string)
    requires ValidClock(s)
    ensures var t := ClockText(s, rest);
            && |t| == 9 + |rest| && t[0] == 'T' && t[3] == ':' && t[6] == ':'
            && t[1..3] == Pad(s.hour, 2) && t[4..6] == Pad(s.minute, 2) && t[7..9] == Pad(s.second, 2)
            && t[9..] == rest
  {
  }

  lemma TimeIsRead(s: Stamp, f: Fraction, z: Zone)
    requires ValidStamp(s) && ValidFraction(f) && ValidZone(z) && s.micro == Micros(f)
    ensures var r := ReadTime(s.date, TimeOfDay(s, f, z));
            r.Some? && r.value.0 == s && r.value.1 * 60_000_000 == Ahead(z)
  {
    TwoDigits(s.hour);
    TwoDigits(s.minute);
    TwoDigits(s.second);
    ZoneIsRead(z);
    var rest := FractionText(f) + ZoneText(z);
    FractionIsRead(f, ZoneText(z));
    ClockSlices(s, rest);
    ZoneOfSome(z);
    hide Pad, Value, ReadFraction, ReadZone, ZoneText, FractionText, ClockText, Micros, Ahead, ValidDate;
  }

  lemma ZoneOfSome(z: Zone)
    requires ValidZone(z)
    ensures |ZoneText(z)| >= 1
  {
  }

  lemma NineChars(s: string)
    requires |s| >= 9
    ensures s == [s[0]] + (s[1..3] + ([s[3]] + (s[4..6] + ([s[6]] + (s[7..9] + s[9..])))))
  {
  }

  lemma TimeWasWritten(d: Date, t: string) returns (f: Fraction, z: Zone)
    requires ReadTime(d, t).Some?
    ensures var r := ReadTime(d, t).value;
            && ValidStamp(r.0) && r.0.date == d && ValidFraction(f) && ValidZone(z)
            && r.0.micro == Micros(f) && r.1 * 60_000_000 == Ahead(z) && t == TimeOfDay(r.0, f, z)
  {
    var rest := ReadFraction(t[9..]).value;
    f := FractionWasWritten(t[9..]);
    z := ZoneWasWritten(rest.1);
    ValueIsPadded(t[1..3]);
    ValueIsPadded(t[4..6]);
    ValueIsPadded(t[7..9]);
    NineChars(t);
    hide Value, Pad, ReadFraction, ReadZone, FractionText, ZoneText, Micros, Ahead, ValidDate;
  }

  // ---------------------------------------------------------------- the reader and the grammar

  /** `t` has the form of the subset, with the fields of `s`, once its digits after the date are put in ASCII. */
  ghost predicate IsWritten(digits: Decimals, t: string, s: Stamp, f: Fraction, z: Zone)
    requires ValidStamp(s) && ValidFraction(f) && ValidZone(z)
  {
    && |t| > 10 && t[..10] == DayText(s.date) && Plain(digits, t[10..]) == TimeOfDay(s, f, z)
    && s.micro == Micros(f)
  }

  lemma DayIsRead(d: Date)
    requires ValidDate(d)
    ensures |DayText(d)| == 10 && ReadDate(DayText(d)) == Some(d)
  {
    DateReads(d, "");
    DaySlices(d);
    hide ReadDate, Pad, ValidDate;
  }

  lemma DaySlices(d: Date)
    requires ValidDate(d)
    ensures |DayText(d)| == 10 && DateText(d, "")[..10] == DayText(d)
  {
    hide Pad;
    assert DateText(d, "") == DayText(d) + "T";
  }

  lemma TenChars(s: string)
    requires |s| == 10
    ensures s == s[0..4] + [s[4]] + s[5..7] + [s[7]] + s[8..10]
  {
  }

  lemma DayWasWritten(s: string)
    requires ReadDate(s).Some?
    ensures ValidDate(ReadDate(s).value) && s == DayText(ReadDate(s).value)
  {
    ValueIsPadded(s[0..4]);
    ValueIsPadded(s[5..7]);
    ValueIsPadded(s[8..10]);
    TenChars(s);
    hide Value, Pad;
  }

  /** A date and time is read exactly if it is written in the form of the subset and does not end in the unknown
      offset, and the fields that are read are those it is written with. A bare date is its midnight in UTC. */
  lemma ReadsExactlyWhatIsWritten(digits: Decimals, t: string, s: Stamp)
    ensures |t| > 10 ==>
              (Read(digits, t).Some? && Read(digits, t).value.0 == s <==>
                 && ValidStamp(s) && !EndsUnknown(t[10..])
                 && exists f, z :: ValidFraction(f) && ValidZone(z) && IsWritten(digits, t, s, f, z))
    ensures |t| == 10 ==>
              (Read(digits, t).Some? && Read(digits, t).value.0 == s <==>
                 ValidStamp(s) && t == DayText(s.date) && s == Stamp(s.date, 0, 0, 0, 0))
    ensures |t| < 10 ==> Read(digits, t) == None
  {
    if |t| >= 10 {
      if ReadDate(t[..10]).Some? {
        DayWasWritten(t[..10]);
      }
      if ValidDate(s.date) {
        DayIsRead(s.date);
      }
      assert |t| == 10 ==> t[..10] == t;
    }
    hide ReadDate, DayText, ReadTime, TimeOfDay, Micros, EndsUnknown, Plain, ValidDate, ValidFraction;
    if |t| > 10 {
      if Read(digits, t).Some? && Read(digits, t).value.0 == s {
        var f, z := TimeWasWritten(ReadDate(t[..10]).value, Plain(digits, t[10..]));
        assert IsWritten(digits, t, s, f, z);
      }
      if ValidStamp(s) && !EndsUnknown(t[10..]) {
        forall f, z | ValidFraction(f) && ValidZone(z) && IsWritten(digits, t, s, f, z)
          ensures Read(digits, t).Some? && Read(digits, t).value.0 == s
        {
          TimeIsRead(s, f, z);
        }
      }
    }
  }

  /** A text of the subset denotes its local time less its offset: east of UTC is earlier, west is later. */
  lemma WrittenDenotes(digits: Decimals, t: string, s: Stamp, f: Fraction, z: Zone)
    requires ValidStamp(s) && ValidFraction(f) && ValidZone(z) && IsWritten(digits, t, s, f, z)
    ensures Denotes(digits, t) == if EndsUnknown(t[10..]) then None else Some(Instant(s) - Ahead(z))
  {
    hide *;
    WrittenIsRead(digits, t, s, f, z);
    DenotesWhatIsRead(digits, t);
  }

  lemma WrittenIsRead(digits: Decimals, t: string, s: Stamp, f: Fraction, z: Zone)
    requires ValidStamp(s) && ValidFraction(f) && ValidZone(z) && IsWritten(digits, t, s, f, z)
    ensures Read(digits, t).Some? <==> !EndsUnknown(t[10..])
    ensures Read(digits, t).Some? ==> Read(digits, t).value.0 == s && Read(digits, t).value.1 * 60_000_000 == Ahead(z)
  {
    hide EndsUnknown;
    DayIsRead(s.date);
    TimeIsRead(s, f, z);
    hide *;
    WrittenParts(digits, t, s, f, z);
    ReadIs(digits, t);
  }

  lemma WrittenParts(digits: Decimals, t: string, s: Stamp, f: Fraction, z: Zone)
    requires ValidStamp(s) && ValidFraction(f) && ValidZone(z) && IsWritten(digits, t, s, f, z)
    ensures |t| > 10 && t[..10] == DayText(s.date) && Plain(digits, t[10..]) == TimeOfDay(s, f, z) && s.micro == Micros(f)
  {
  }

  lemma ReadIs(digits: Decimals, t: string)
    requires |t| > 10 && ReadDate(t[..10]).Some?
    ensures Read(digits, t) == if EndsUnknown(t[10..]) then None else ReadTime(ReadDate(t[..10]).value, Plain(digits, t[10..]))
  {
    hide EndsUnknown, ReadDate, ReadTime, Plain;
  }

  lemma DenotesWhatIsRead(digits: Decimals, t: string)
    ensures Denotes(digits, t).Some? <==> Read(digits, t).Some?
    ensures Read(digits, t).Some? ==>
              Denotes(digits, t).value == Instant(Read(digits, t).value.0) - Read(digits, t).value.1 * 60_000_000
  {
    hide Read, Instant;
  }

  lemma DigitsAreAscii(s: string)
    requires AllDigits(s)
    ensures Ascii(s)
  {
  }

  lemma FractionIsAscii(f: Fraction)
    requires ValidFraction(f)
    ensures Ascii(FractionText(f))
  {
    if f.width > 0 {
      PadReads(f.digits, f.width);
      DigitsAreAscii(Pad(f.digits, f.width));
      AsciiConcat(".", Pad(f.digits, f.width));
    }
    hide Value, Pad;
  }

  lemma ZoneIsAscii(z: Zone)
    requires ValidZone(z)
    ensures Ascii(ZoneText(z))
  {
    if !z.Utc? {
      TwoDigits(z.hours);
      TwoDigits(z.minutes);
      hide Value, Pad;
      AsciiConcat(":", Pad(z.minutes, 2));
      AsciiConcat(Pad(z.hours, 2), ":" + Pad(z.minutes, 2));
      AsciiConcat(if z.East? then "+" else "-", Pad(z.hours, 2) + (":" + Pad(z.minutes, 2)));
    }
  }

  lemma ClockIsAscii(s: Stamp, rest: string)
    requires ValidClock(s) && Ascii(rest)
    ensures Ascii(ClockText(s, rest))
  {
    TwoDigits(s.hour);
    TwoDigits(s.minute);
    TwoDigits(s.second);
    DigitsAreAscii(Pad(s.hour, 2));
    DigitsAreAscii(Pad(s.minute, 2));
    DigitsAreAscii(Pad(s.second, 2));
    assert Ascii("T") && Ascii(":");
    hide Value, Pad, Ascii;
    var t2 := Pad(s.second, 2) + rest;
    AsciiConcat(Pad(s.second, 2), rest);
    AsciiConcat(":", t2);
    var t1 := Pad(s.minute, 2) + (":" + t2);
    AsciiConcat(Pad(s.minute, 2), ":" + t2);
    AsciiConcat(":", t1);
    AsciiConcat(Pad(s.hour, 2), ":" + t1);
    AsciiConcat("T", Pad(s.hour, 2) + (":" + t1));
  }

  /** A text ends in the unknown offset exactly if its zone is written that way. */
  lemma UnknownIsWestZero(head: string, z: Zone)
    requires ValidZone(z) && |head| >= 5
    ensures EndsUnknown(head + ZoneText(z)) <==> z == West(0, 0)
  {
    var t := head + ZoneText(z);
    hide ZoneText, Pad, Value;
    if z.Utc? {
      UtcText();
      assert t[|t| - 6..][5] == 'Z';
    } else {
      ZoneSlices(z);
      assert t[|t| - 6..] == ZoneText(z);
      WestZeroText(z);
    }
  }

  lemma UtcText()
    ensures ZoneText(Utc) == "Z"
  {
  }

  lemma ZerosText(n: int)
    requires 0 <= n < 100
    ensures Pad(n, 2) == "00" <==> n == 0
  {
    TwoDigits(n);
    assert Pad(0, 2) == "00";
    TwoDigits(0);
    hide Value, Pad;
  }

  lemma WestZeroText(z: Zone)
    requires ValidZone(z) && !z.Utc?
    ensures ZoneText(z) == "-00:00" <==> z == West(0, 0)
  {
    ZoneSlices(z);
    ZerosText(z.hours);
    ZerosText(z.minutes);
    hide ZoneText, Pad;
    var u := "-00:00";
    assert u[1..3] == "00" && u[4..6] == "00" && u[0] == '-' && u[3] == ':';
    var s := ZoneText(z);
    SixChars(s);
    SixChars(u);
  }

  lemma TimeOfDayIs(s: Stamp, f: Fraction, z: Zone)
    requires ValidClock(s) && ValidFraction(f) && ValidZone(z)
    ensures Ascii(TimeOfDay(s, f, z))
    ensures EndsUnknown(TimeOfDay(s, f, z)) <==> z == West(0, 0)
  {
    FractionIsAscii(f);
    ZoneIsAscii(z);
    AsciiConcat(FractionText(f), ZoneText(z));
    ClockIsAscii(s, FractionText(f) + ZoneText(z));
    hide *;
    var head := ClockText(s, FractionText(f));
    ClockSlices(s, FractionText(f));
    TimeOfDaySplits(s, f, z);
    UnknownIsWestZero(head, z);
  }

  lemma TimeOfDaySplits(s: Stamp, f: Fraction, z: Zone)
    requires ValidClock(s) && ValidFraction(f) && ValidZone(z)
    ensures TimeOfDay(s, f, z) == ClockText(s, FractionText(f)) + ZoneText(z)
    ensures TimeOfDay(s, f, z) == ClockText(s, FractionText(f) + ZoneText(z))
  {
    hide Pad, ZoneText, FractionText;
  }

  /** So every text written with ASCII digits from the fields of a stamp, a fraction of up to six digits and an
      offset of up to 14 hours denotes that stamp, earlier by the offset east of UTC and later by it west; the
      single one that is refused is the offset `-00:00`. */
  lemma TextDenotes(digits: Decimals, s: Stamp, f: Fraction, z: Zone)
    requires AreDecimals(digits) && ValidStamp(s) && ValidFraction(f) && ValidZone(z) && s.micro == Micros(f)
    ensures Denotes(digits, DayText(s.date) + TimeOfDay(s, f, z)) == if z == West(0, 0) then None else Some(Instant(s) - Ahead(z))
  {
    var t := DayText(s.date) + TimeOfDay(s, f, z);
    DayIsRead(s.date);
    TimeOfDayIs(s, f, z);
    assert t[..10] == DayText(s.date) && t[10..] == TimeOfDay(s, f, z);
    PlainOfAscii(digits, TimeOfDay(s, f, z));
    ClockSlices(s, FractionText(f) + ZoneText(z));
    hide DayText, TimeOfDay, ClockText, Micros, EndsUnknown, Plain, ValidDate, ValidFraction, Instant, Ahead, Denotes, ReadDate, Ascii;
    WrittenDenotes(digits, t, s, f, z);
  }

  /** `u` is `v` with some of its digits written in another script. */
  ghost predicate InSomeScript(digits: Decimals, u: string, v: string) {
    |u| == |v| && forall i | 0 <= i < |u| :: u[i] == v[i] || (IsDigit(v[i]) && digits(u[i]) == Some(v[i] as int - '0' as int))
  }

  lemma ScriptsAgree(digits: Decimals, u: string, v: string)
    requires AreDecimals(digits) && Ascii(v) && InSomeScript(digits, u, v)
    ensures Plain(digits, u) == v
  {
    forall i | 0 <= i < |u| ensures PlainChar(digits, u[i]) == v[i] {
    }
  }

  /** The digits of the time of day, the fraction and the offset may come from any script; written so, not even the
      unknown offset is recognized, unless it is in ASCII digits. */
  lemma AnyScriptDenotes(digits: Decimals, t: string, s: Stamp, f: Fraction, z: Zone)
    requires AreDecimals(digits) && ValidStamp(s) && ValidFraction(f) && ValidZone(z) && s.micro == Micros(f)
    requires |t| > 10 && t[..10] == DayText(s.date) && InSomeScript(digits, t[10..], TimeOfDay(s, f, z))
    ensures Denotes(digits, t) == if EndsUnknown(t[10..]) then None else Some(Instant(s) - Ahead(z))
  {
    TimeOfDayIs(s, f, z);
    ScriptsAgree(digits, t[10..], TimeOfDay(s, f, z));
    hide DayText, TimeOfDay, Micros, EndsUnknown, Plain, ValidDate, ValidFraction, Instant, Ahead, Denotes, Ascii, InSomeScript;
    WrittenDenotes(digits, t, s, f, z);
  }
}
