/**
  The date and time texts of the calendar export: `parseTime` reads an
  "H:MM" or "HH:MM" time onto today's date, `formatICSDate` writes the
  floating DATE-TIME form of section 3.3.5 of RFC 5545, and the DTSTAMP
  value is derived from the ISO 8601 text of the current instant.
 */
module TimeCodec {
  import opened Strings

  /** A day of the local calendar, as `getFullYear`, `getMonth() + 1` and `getDate()` give it. */
  datatype CalendarDate = CalendarDate(year: nat, month: nat, day: nat)

  predicate ValidDate(d: CalendarDate) {
    1 <= d.month <= 12 && 1 <= d.day <= 31
  }

  /** A local date and time, the fields of a `Date` after `setHours(h, m, 0, 0)`. */
  datatype DateTime = DateTime(date: CalendarDate, hours: nat, minutes: nat, seconds: nat, millis: nat)

  /** A time of day; the second half of `parseTime` round trips with ClockText. */
  datatype ClockTime = ClockTime(hours: nat, minutes: nat)

  predicate ValidClock(t: ClockTime) {
    t.hours <= 23 && t.minutes <= 59
  }

  /**
    A time text that `setHours` takes without rolling over: split at ':'
    gives at least two pieces, the first two are digit strings (`Number`
    of the empty string is 0) and they denote an hour and a minute of the
    day. Pieces after the second are ignored, as the destructuring does.
   */
  predicate IsTimeText(s: string) {
    var parts := Split(s, ':');
    |parts| >= 2 && AllDigits(parts[0]) && AllDigits(parts[1])
    && DecimalValue(parts[0]) <= 23 && DecimalValue(parts[1]) <= 59
  }

  /** `parseTime`: today's date at the given hour and minute, seconds and milliseconds zero. */
  function ParseTime(today: CalendarDate, s: string): (d: DateTime)
    requires IsTimeText(s)
    ensures d.date == today && d.seconds == 0 && d.millis == 0
    ensures ValidClock(ClockTime(d.hours, d.minutes))
  {
    var parts := Split(s, ':');
    DateTime(today, DecimalValue(parts[0]), DecimalValue(parts[1]), 0, 0)
  }

  /** The clock reading of a time text. */
  function ClockOf(s: string): (t: ClockTime)
    requires IsTimeText(s)
    ensures ValidClock(t)
  {
    var d := ParseTime(CalendarDate(1970, 1, 1), s);
    ClockTime(d.hours, d.minutes)
  }

  /**
    The hour is everything before the first ':' and the minute everything
    from there to the next ':' or the end, read as decimal numbers.
   */
  lemma ParseTimeOfParts(today: CalendarDate, h: string, m: string, rest: string)
    requires AllDigits(h) && AllDigits(m) && DecimalValue(h) <= 23 && DecimalValue(m) <= 59
    requires rest == [] || rest[0] == ':'
    ensures IsTimeText(h + ":" + m + rest)
    ensures ParseTime(today, h + ":" + m + rest) == DateTime(today, DecimalValue(h), DecimalValue(m), 0, 0)
  {
    SecondPiece(h, m, rest);
  }

  /** A five-character "HH:MM" text whose hour and minute are in range is a time text. */
  lemma ClockDigits(s: string, h1: char, h0: char, m1: char, m0: char)
    requires s == [h1, h0, ':', m1, m0]
    requires IsDigit(h1) && IsDigit(h0) && IsDigit(m1) && IsDigit(m0)
    requires DigitValue(h1) * 10 + DigitValue(h0) <= 23 && DigitValue(m1) * 10 + DigitValue(m0) <= 59
    ensures IsTimeText(s)
    ensures ClockOf(s) == ClockTime(DigitValue(h1) * 10 + DigitValue(h0), DigitValue(m1) * 10 + DigitValue(m0))
  {
    var h := [h1, h0];
    var m := [m1, m0];
    assert s == h + ":" + m + [];
    assert h[..1] == [h1] && m[..1] == [m1];
    assert [h1][..0] == [] && [m1][..0] == [];
    assert DecimalValue([h1]) == DigitValue(h1) && DecimalValue([m1]) == DigitValue(m1);
    assert DecimalValue(h) == DecimalValue(h[..1]) * 10 + DigitValue(h[1]);
    assert DecimalValue(m) == DecimalValue(m[..1]) * 10 + DigitValue(m[1]);
    ParseTimeOfParts(CalendarDate(1970, 1, 1), h, m, []);
  }

  lemma SecondPiece(h: string, m: string, rest: string)
    requires AllDigits(h) && AllDigits(m)
    requires rest == [] || rest[0] == ':'
    ensures var parts := Split(h + ":" + m + rest, ':');
      |parts| >= 2 && parts[0] == h && parts[1] == m
  {
    DigitsHaveNoColon(h);
    DigitsHaveNoColon(m);
    var s := h + ":" + m + rest;
    assert s == h + [':'] + (m + rest);
    SplitFirst(h, ':', m + rest);
    if rest == [] {
      assert m + rest == m;
      SplitNone(m, ':');
    } else {
      assert m + rest == m + [':'] + rest[1..];
      SplitFirst(m, ':', rest[1..]);
    }
  }

  lemma DigitsHaveNoColon(s: string)
    requires AllDigits(s)
    ensures ':' !in s
  {
  }

  /** The "HH:MM" text of a clock reading. */
  function ClockText(t: ClockTime): (s: string)
    requires ValidClock(t)
    ensures |s| == 5 && s[2] == ':'
  {
    PadNumber(t.hours, 2) + ":" + PadNumber(t.minutes, 2)
  }

  /** Reading back a printed clock time gives the clock time. */
  lemma ClockRoundTrip(today: CalendarDate, t: ClockTime)
    requires ValidClock(t)
    ensures IsTimeText(ClockText(t))
    ensures ParseTime(today, ClockText(t)) == DateTime(today, t.hours, t.minutes, 0, 0)
    ensures ClockOf(ClockText(t)) == t
  {
    var h := PadNumber(t.hours, 2);
    var m := PadNumber(t.minutes, 2);
    assert ClockText(t) == h + ":" + m + [];
    ParseTimeOfParts(today, h, m, []);
    ParseTimeOfParts(CalendarDate(1970, 1, 1), h, m, []);
  }

  /** Hours may have one digit: "9:05" and "09:05" are the same time. */
  lemma OneDigitHour(today: CalendarDate)
    ensures IsTimeText("9:05") && IsTimeText("09:05")
    ensures ParseTime(today, "9:05") == ParseTime(today, "09:05") == DateTime(today, 9, 5, 0, 0)
  {
    assert DecimalValue("9") == 9;
    assert DecimalValue("09") == 9;
    assert DecimalValue("05") == 5;
    assert "9:05" == "9" + ":" + "05" + [];
    assert "09:05" == "09" + ":" + "05" + [];
    ParseTimeOfParts(today, "9", "05", []);
    ParseTimeOfParts(today, "09", "05", []);
  }

  /** Two-digit fields of values below 100. */
  lemma TwoDigits(n: nat)
    requires n < 100
    ensures |PadNumber(n, 2)| == 2
  {
    assert Pow10(2) == 100;
  }

  /** Digit strings joined, with one "T" between the date part and the time part. */
  lemma DateTimeChars(y: string, mo: string, dd: string, hh: string, mi: string, ss: string)
    requires AllDigits(y) && AllDigits(mo) && AllDigits(dd) && AllDigits(hh) && AllDigits(mi) && AllDigits(ss)
    ensures var r := y + mo + dd + "T" + hh + mi + ss;
      forall i :: 0 <= i < |r| ==> IsDigit(r[i]) || r[i] == 'T'
  {
  }

  /**
    `formatICSDate`: year, two-digit month and day, "T", two-digit hour,
    minute and second. No "Z": the value is a floating local time.
   */
  function FormatICSDate(today: CalendarDate, s: string): string
    requires ValidDate(today) && IsTimeText(s)
  {
    var d := ParseTime(today, s);
    var y := NatToString(d.date.year);
    var mo := PadNumber(d.date.month, 2);
    var dd := PadNumber(d.date.day, 2);
    var hh := PadNumber(d.hours, 2);
    var mi := PadNumber(d.minutes, 2);
    var ss := PadNumber(d.seconds, 2);
    y + mo + dd + "T" + hh + mi + ss
  }

  /** Every character of the text is a digit or the 'T' separator. */
  lemma FormatICSDateChars(today: CalendarDate, s: string)
    requires ValidDate(today) && IsTimeText(s)
    ensures var r := FormatICSDate(today, s);
      forall i :: 0 <= i < |r| ==> IsDigit(r[i]) || r[i] == 'T'
  {
    var d := ParseTime(today, s);
    DateTimeChars(NatToString(d.date.year), PadNumber(d.date.month, 2), PadNumber(d.date.day, 2),
                  PadNumber(d.hours, 2), PadNumber(d.minutes, 2), PadNumber(d.seconds, 2));
  }

  /** A digit-string slice of a FormatICSDate text, read as a number. */
  function Field(r: string, from: nat, to: nat): nat
    requires from <= to <= |r| && AllDigits(r[from..to])
  {
    DecimalValue(r[from..to])
  }

  /**
    For a four-digit year the text has 15 characters: digits 0-3 are the
    year, 4-5 the month, 6-7 the day, 8 is 'T', 9-10 the hour, 11-12 the
    minute and 13-14 the seconds, always "00".
   */
  lemma FormatICSDateLayout(today: CalendarDate, s: string)
    requires ValidDate(today) && IsTimeText(s) && 1000 <= today.year <= 9999
    ensures var r := FormatICSDate(today, s);
      |r| == 15 && r[8] == 'T' && r[13..15] == "00"
      && AllDigits(r[0..4]) && Field(r, 0, 4) == today.year
      && AllDigits(r[4..6]) && Field(r, 4, 6) == today.month
      && AllDigits(r[6..8]) && Field(r, 6, 8) == today.day
      && AllDigits(r[9..11]) && Field(r, 9, 11) == ClockOf(s).hours
      && AllDigits(r[11..13]) && Field(r, 11, 13) == ClockOf(s).minutes
  {
    var r := FormatICSDate(today, s);
    var d := ParseTime(today, s);
    var y := NatToString(today.year);
    var mo := PadNumber(today.month, 2);
    var dd := PadNumber(today.day, 2);
    var hh := PadNumber(d.hours, 2);
    var mi := PadNumber(d.minutes, 2);
    var ss := PadNumber(0, 2);
    YearWidth(today.year);
    TwoDigits(today.month);
    TwoDigits(today.day);
    TwoDigits(d.hours);
    TwoDigits(d.minutes);
    Zero2();
    assert r == y + mo + dd + "T" + hh + mi + ss;
    assert ClockOf(s).hours == d.hours && ClockOf(s).minutes == d.minutes;
    Fields(r, y, mo, dd, hh, mi, ss, today.year, today.month, today.day, d.hours, d.minutes);
  }

  /** The fields of a DATE-TIME text assembled from digit strings of the right widths. */
  lemma Fields(r: string, y: string, mo: string, dd: string, hh: string, mi: string, ss: string,
               year: nat, month: nat, day: nat, hours: nat, minutes: nat)
    requires |y| == 4 && |mo| == 2 && |dd| == 2 && |hh| == 2 && |mi| == 2 && ss == "00"
    requires AllDigits(y) && AllDigits(mo) && AllDigits(dd) && AllDigits(hh) && AllDigits(mi)
    requires DecimalValue(y) == year && DecimalValue(mo) == month && DecimalValue(dd) == day
    requires DecimalValue(hh) == hours && DecimalValue(mi) == minutes
    requires r == y + mo + dd + "T" + hh + mi + ss
    ensures |r| == 15 && r[8] == 'T' && r[13..15] == "00"
      && AllDigits(r[0..4]) && Field(r, 0, 4) == year
      && AllDigits(r[4..6]) && Field(r, 4, 6) == month
      && AllDigits(r[6..8]) && Field(r, 6, 8) == day
      && AllDigits(r[9..11]) && Field(r, 9, 11) == hours
      && AllDigits(r[11..13]) && Field(r, 11, 13) == minutes
  {
    Layout(y, mo, dd, hh, mi, ss);
  }

  lemma YearWidth(year: nat)
    requires 1000 <= year <= 9999
    ensures |NatToString(year)| == 4
  {
    NatToStringWidth(year, 4);
    assert Pow10(4) == 10000 && Pow10(3) == 1000;
  }

  lemma Zero2()
    ensures PadNumber(0, 2) == "00"
  {
    assert NatToString(0) == "0";
    TwoDigits(0);
  }

  /** The seven pieces of the DATE-TIME text are found at fixed offsets. */
  lemma Layout(y: string, mo: string, dd: string, hh: string, mi: string, ss: string)
    requires |y| == 4 && |mo| == 2 && |dd| == 2 && |hh| == 2 && |mi| == 2 && |ss| == 2
    ensures var r := y + mo + dd + "T" + hh + mi + ss;
      |r| == 15 && r[0..4] == y && r[4..6] == mo && r[6..8] == dd && r[8] == 'T'
      && r[9..11] == hh && r[11..13] == mi && r[13..15] == ss
  {
  }

  /**
    Two time texts give the same DTSTART or DTEND value on the same day
    exactly when they denote the same clock time.
   */
  lemma FormatICSDateInjective(today: CalendarDate, s1: string, s2: string)
    requires ValidDate(today) && IsTimeText(s1) && IsTimeText(s2) && 1000 <= today.year <= 9999
    ensures FormatICSDate(today, s1) == FormatICSDate(today, s2) <==> ClockOf(s1) == ClockOf(s2)
  {
    FormatICSDateLayout(today, s1);
    FormatICSDateLayout(today, s2);
  }

  /** One character class removed: `replace(/[-:]/g, '')`. */
  function RemoveChars(s: string, drop: set<char>): (r: string)
    ensures |r| <= |s|
    ensures forall i :: 0 <= i < |r| ==> r[i] !in drop
    ensures forall i :: 0 <= i < |r| ==> r[i] in s
    decreases |s|
  {
    if |s| == 0 then []
    else (if s[0] in drop then [] else [s[0]]) + RemoveChars(s[1..], drop)
  }

  lemma {:induction false} RemoveCharsAppend(a: string, b: string, drop: set<char>)
    ensures RemoveChars(a + b, drop) == RemoveChars(a, drop) + RemoveChars(b, drop)
    decreases |a|
  {
    if |a| > 0 {
      assert (a + b)[1..] == a[1..] + b;
      RemoveCharsAppend(a[1..], b, drop);
    } else {
      assert a + b == b;
    }
  }

  lemma {:induction false} RemoveCharsNone(s: string, drop: set<char>)
    requires forall i :: 0 <= i < |s| ==> s[i] !in drop
    ensures RemoveChars(s, drop) == s
    decreases |s|
  {
    if |s| > 0 {
      RemoveCharsNone(s[1..], drop);
      assert [s[0]] + s[1..] == s;
    }
  }

  /**
    The DTSTAMP value: the ISO text with every '-' and ':' removed, cut at
    the first '.', then "Z" appended.
   */
  function Timestamp(iso: string): (r: string)
    ensures |r| >= 1 && r[|r| - 1] == 'Z'
    ensures forall i :: 0 <= i < |r| ==> r[i] != '-' && r[i] != ':' && r[i] != '.'
    ensures forall i :: 0 <= i < |r| - 1 ==> r[i] in iso
  {
    var stripped := RemoveChars(iso, {'-', ':'});
    var head := Split(stripped, '.')[0];
    assert forall i :: 0 <= i < |head| ==> head[i] in stripped by {
      SplitPieceChars(stripped, '.');
    }
    head + "Z"
  }

  /** Every character of the first piece of `split` comes from the string. */
  lemma {:induction false} SplitPieceChars(s: string, sep: char)
    ensures forall i :: 0 <= i < |Split(s, sep)[0]| ==> Split(s, sep)[0][i] in s
    decreases |s|
  {
    if |s| > 0 && s[0] != sep {
      SplitPieceChars(s[1..], sep);
      var rest := Split(s[1..], sep);
      forall i | 0 <= i < |Split(s, sep)[0]|
        ensures Split(s, sep)[0][i] in s
      {
        if i > 0 {
          assert Split(s, sep)[0][i] == rest[0][i - 1];
          assert rest[0][i - 1] in s[1..];
        }
      }
    }
  }

  /** Removing characters piece by piece: a piece that is dropped entirely. */
  lemma DropPiece(a: string, b: string, drop: set<char>, a': string)
    requires RemoveChars(a, drop) == a' && RemoveChars(b, drop) == []
    ensures RemoveChars(a + b, drop) == a'
  {
    RemoveCharsAppend(a, b, drop);
    assert a' + [] == a';
  }

  /** Removing characters piece by piece: a piece that is kept entirely. */
  lemma KeepPiece(a: string, b: string, drop: set<char>, a': string)
    requires RemoveChars(a, drop) == a' && forall i :: 0 <= i < |b| ==> b[i] !in drop
    ensures RemoveChars(a + b, drop) == a' + b
  {
    RemoveCharsAppend(a, b, drop);
    RemoveCharsNone(b, drop);
  }

  lemma DigitsSurvive(s: string)
    requires AllDigits(s)
    ensures forall i :: 0 <= i < |s| ==> s[i] !in {'-', ':'}
  {
  }

  /**
    For any digit fields, the DTSTAMP derivation maps
    Y-M-DTh:m:s.fZ to YMDThmsZ.
   */
  lemma TimestampOfFields(y: string, mo: string, d: string, h: string, mi: string, s: string, ms: string)
    requires AllDigits(y) && AllDigits(mo) && AllDigits(d) && AllDigits(h)
    requires AllDigits(mi) && AllDigits(s) && AllDigits(ms)
    ensures Timestamp(y + "-" + mo + "-" + d + "T" + h + ":" + mi + ":" + s + "." + ms + "Z")
            == y + mo + d + "T" + h + mi + s + "Z"
  {
    var head := y + mo + d + "T" + h + mi + s;
    StripFields(y, mo, d, h, mi, s, ms);
    HeadHasNoDot(y, mo, d, h, mi, s);
    SplitFirst(head, '.', ms + "Z");
  }

  /** Removing '-' and ':' from the ISO text leaves the digits, "T", "." and "Z". */
  lemma StripFields(y: string, mo: string, d: string, h: string, mi: string, s: string, ms: string)
    requires AllDigits(y) && AllDigits(mo) && AllDigits(d) && AllDigits(h)
    requires AllDigits(mi) && AllDigits(s) && AllDigits(ms)
    ensures RemoveChars(y + "-" + mo + "-" + d + "T" + h + ":" + mi + ":" + s + "." + ms + "Z", {'-', ':'})
            == y + mo + d + "T" + h + mi + s + ['.'] + (ms + "Z")
  {
    var drop := {'-', ':'};
    var date := y + "-" + mo + "-" + d + "T";
    StripDate(y, mo, d);
    DigitsSurvive(h);
    DigitsSurvive(mi);
    DigitsSurvive(s);
    DigitsSurvive(ms);
    assert RemoveChars(":", drop) == [];
    var k := y + mo + d + "T";
    KeepPiece(date, h, drop, k);
    DropPiece(date + h, ":", drop, k + h);
    KeepPiece(date + h + ":", mi, drop, k + h);
    DropPiece(date + h + ":" + mi, ":", drop, k + h + mi);
    KeepPiece(date + h + ":" + mi + ":", s, drop, k + h + mi);
    var x := date + h + ":" + mi + ":" + s;
    var rest := "." + ms + "Z";
    assert forall i :: 0 <= i < |rest| ==> rest[i] !in drop;
    KeepPiece(x, rest, drop, k + h + mi + s);
    assert x + "." + ms + "Z" == x + rest;
    assert k + h + mi + s + rest == k + h + mi + s + ['.'] + (ms + "Z");
  }

  lemma StripDate(y: string, mo: string, d: string)
    requires AllDigits(y) && AllDigits(mo) && AllDigits(d)
    ensures RemoveChars(y + "-" + mo + "-" + d + "T", {'-', ':'}) == y + mo + d + "T"
  {
    var drop := {'-', ':'};
    DigitsSurvive(y);
    DigitsSurvive(mo);
    DigitsSurvive(d);
    assert RemoveChars("-", drop) == [];
    RemoveCharsNone(y, drop);
    DropPiece(y, "-", drop, y);
    KeepPiece(y + "-", mo, drop, y);
    DropPiece(y + "-" + mo, "-", drop, y + mo);
    KeepPiece(y + "-" + mo + "-", d, drop, y + mo);
    KeepPiece(y + "-" + mo + "-" + d, "T", drop, y + mo + d);
  }

  lemma HeadHasNoDot(y: string, mo: string, d: string, h: string, mi: string, s: string)
    requires AllDigits(y) && AllDigits(mo) && AllDigits(d) && AllDigits(h) && AllDigits(mi) && AllDigits(s)
    ensures '.' !in y + mo + d + "T" + h + mi + s
  {
    DateTimeChars(y, mo, d, h, mi, s);
  }

  /** A UTC instant as `toISOString` prints it. */
  datatype Instant = Instant(year: nat, month: nat, day: nat, hours: nat, minutes: nat, seconds: nat, millis: nat)

  /** An instant whose year `toISOString` prints with four digits. */
  predicate ValidInstant(t: Instant) {
    t.year <= 9999 && 1 <= t.month <= 12 && 1 <= t.day <= 31
    && t.hours <= 23 && t.minutes <= 59 && t.seconds <= 59 && t.millis <= 999
  }

  /** `toISOString`: YYYY-MM-DDTHH:mm:ss.sssZ, four-digit year, three-digit milliseconds. */
  function IsoString(t: Instant): string
    requires ValidInstant(t)
  {
    PadNumber(t.year, 4) + "-" + PadNumber(t.month, 2) + "-" + PadNumber(t.day, 2)
    + "T" + PadNumber(t.hours, 2) + ":" + PadNumber(t.minutes, 2) + ":" + PadNumber(t.seconds, 2)
    + "." + PadNumber(t.millis, 3) + "Z"
  }

  /** The basic format of section 3.3.5 of RFC 5545 in UTC: YYYYMMDDTHHMMSSZ. */
  function BasicUtc(t: Instant): string
    requires ValidInstant(t)
  {
    PadNumber(t.year, 4) + PadNumber(t.month, 2) + PadNumber(t.day, 2)
    + "T" + PadNumber(t.hours, 2) + PadNumber(t.minutes, 2) + PadNumber(t.seconds, 2) + "Z"
  }

  /**
    The DTSTAMP derivation turns the ISO text of any instant into its UTC
    basic form: 16 characters, milliseconds dropped.
   */
  lemma TimestampOfInstant(t: Instant)
    requires ValidInstant(t)
    ensures Timestamp(IsoString(t)) == BasicUtc(t)
    ensures |BasicUtc(t)| == 16
  {
    TimestampOfFields(PadNumber(t.year, 4), PadNumber(t.month, 2), PadNumber(t.day, 2),
      PadNumber(t.hours, 2), PadNumber(t.minutes, 2), PadNumber(t.seconds, 2), PadNumber(t.millis, 3));
    FourDigits(t.year);
    TwoDigits(t.month);
    TwoDigits(t.day);
    TwoDigits(t.hours);
    TwoDigits(t.minutes);
    TwoDigits(t.seconds);
  }

  lemma FourDigits(n: nat)
    requires n < 10000
    ensures |PadNumber(n, 4)| == 4
  {
    assert Pow10(4) == 10000;
  }

  /** The generation time 2024-01-02T03:04:05.678Z is stamped 20240102T030405Z. */
  lemma TimestampExample(iso: string)
    requires iso == "2024-01-02T03:04:05.678Z"
    ensures Timestamp(iso) == "20240102T030405Z"
  {
    ExamplePieces(iso);
    ExampleFields(iso);
  }

  lemma ExamplePieces(iso: string)
    requires iso == "2024-01-02T03:04:05.678Z"
    ensures iso == "2024" + "-" + "01" + "-" + "02" + "T" + "03" + ":" + "04" + ":" + "05" + "." + "678" + "Z"
    ensures "2024" + "01" + "02" + "T" + "03" + "04" + "05" + "Z" == "20240102T030405Z"
  {
  }

  lemma ExampleFields(iso: string)
    requires iso == "2024" + "-" + "01" + "-" + "02" + "T" + "03" + ":" + "04" + ":" + "05" + "." + "678" + "Z"
    ensures Timestamp(iso) == "2024" + "01" + "02" + "T" + "03" + "04" + "05" + "Z"
  {
    TimestampOfFields("2024", "01", "02", "03", "04", "05", "678");
  }
}
