/** Reading and printing RFC 3339 timestamps (`desktop/src/clock.rs`).

    A text is its UTF-8 encoding, one character per byte. Slicing a Rust `str`
    inside a multi-byte character panics, so reading has three outcomes. */
module Timestamps {
  import opened Wrappers
  import opened Numerals
  import opened Calendar

  datatype Outcome = Time(value: int) | Rejected | Panics

  datatype Fields = Fields(year: int, month: int, day: int, hour: int, minute: int, second: int)

  /** The ranges the reader accepts: any month may have 31 days, a minute a leap second. */
  predicate InRange(f: Fields) {
    1 <= f.month <= 12 && 1 <= f.day <= 31 && 0 <= f.hour <= 23 && 0 <= f.minute <= 59 && 0 <= f.second <= 60
  }

  /** The ranges of a moment that exists on the UTC clock. */
  predicate IsReal(f: Fields) {
    InRange(f) && IsDate(Date(f.year, f.month, f.day)) && f.second <= 59
  }

  function Instant(f: Fields): int
    requires InRange(f)
  {
    DaysFromCivil(f.year, f.month, f.day) * 86_400 + f.hour * 3600 + f.minute * 60 + f.second
  }

  // ---------------------------------------------------------- reading

  function Number(value: string, lo: nat, hi: nat): Option<int>
    requires lo <= hi <= |value|
  {
    if AllDigits(value[lo..hi]) then Some(ValueOf(value[lo..hi])) else None
  }

  function ReadFields(value: string): (r: Option<Fields>)
    ensures r.Some? ==> |value| >= 20 && InRange(r.value)
  {
    if |value| < 20 || value[4] != '-' || value[7] != '-' || !(value[10] == 'T' || value[10] == 't' || value[10] == ' ')
       || value[13] != ':' || value[16] != ':' then None
    else
      var year, month, day := Number(value, 0, 4), Number(value, 5, 7), Number(value, 8, 10);
      var hour, minute, second := Number(value, 11, 13), Number(value, 14, 16), Number(value, 17, 19);
      if year.None? || month.None? || day.None? || hour.None? || minute.None? || second.None? then None
      else
        var f := Fields(year.value, month.value, day.value, hour.value, minute.value, second.value);
        if InRange(f) then Some(f) else None
  }

  function DigitRun(s: string): (n: nat)
    ensures n <= |s| && AllDigits(s[..n]) && (n < |s| ==> !IsDigit(s[n]))
  {
    if s == [] || !IsDigit(s[0]) then 0 else 1 + DigitRun(s[1..])
  }

  function AfterFraction(rest: string): Option<string>
    requires rest != []
  {
    if rest[0] != '.' then Some(rest)
    else
      var digits := DigitRun(rest[1..]);
      if digits == 0 then None else Some(rest[1..][digits..])
  }

  predicate IsContinuation(c: char) {
    0x80 <= c as int < 0xC0
  }

  /** `str::parse::<i64>` of two bytes: two digits, or a sign and a digit. */
  function SmallInteger(a: char, b: char): Option<int> {
    if !IsDigit(b) then None
    else if IsDigit(a) then Some(10 * DigitValue(a) + DigitValue(b))
    else if a == '+' then Some(DigitValue(b))
    else if a == '-' then Some(-DigitValue(b))
    else None
  }

  function Offset(rest: string): Outcome {
    if rest == "Z" || rest == "z" then Time(0)
    else if |rest| != 6 then Rejected
    else if IsContinuation(rest[1]) then Panics
    else if rest[0] != '+' && rest[0] != '-' then Rejected
    else if IsContinuation(rest[3]) || IsContinuation(rest[4]) then Panics
    else if rest[3] != ':' then Rejected
    else
      var hours, minutes := SmallInteger(rest[1], rest[2]), SmallInteger(rest[4], rest[5]);
      if hours.None? || minutes.None? then Rejected
      else Time((if rest[0] == '-' then -1 else 1) * (hours.value * 3600 + minutes.value * 60))
  }

  /** `parse`: seconds since the Unix epoch. */
  function Parse(value: string): Outcome {
    var fields := ReadFields(value);
    if fields.None? then Rejected
    else
      var rest := AfterFraction(value[19..]);
      if rest.None? then Rejected
      else match Offset(rest.value)
        case Time(offset) =>
          if fields.value.year < 1970 then Rejected else Time(Instant(fields.value) - offset)
        case other => other
  }

  function FractionDigit(rest: string, i: nat): int {
    if 1 + i < |rest| && rest[0] == '.' && i < DigitRun(rest[1..]) then DigitValue(rest[1 + i]) else 0
  }

  function ParseMillis(value: string): (r: Outcome)
    ensures r.Time? <==> Parse(value).Time?
    ensures r.Time? ==> r.value / 1000 == Parse(value).value
  {
    match Parse(value)
    case Time(seconds) =>
      var rest := value[19..];
      Time(seconds * 1000 + FractionDigit(rest, 0) * 100 + FractionDigit(rest, 1) * 10 + FractionDigit(rest, 2))
    case other => other
  }

  // ---------------------------------------------------------- printing

  function At(date: Date, time: int): Fields {
    Fields(date.year, date.month, date.day, time / 3600, time / 60 % 60, time % 60)
  }

  function FieldsOf(seconds: int): Fields {
    At(CivilFromDays(seconds / 86_400), seconds % 86_400)
  }

  /** Everything up to the fraction or the zone. */
  function Head(f: Fields): string {
    Triple(Padded(f.year, 4), '-', Padded(f.month, 2), Padded(f.day, 2)) + "T"
    + Triple(Padded(f.hour, 2), ':', Padded(f.minute, 2), Padded(f.second, 2))
  }

  function Triple(a: string, separator: char, b: string, c: string): string {
    a + [separator] + b + [separator] + c
  }

  function Format(seconds: int): (s: string)
    ensures |s| >= 20
  {
    Head(FieldsOf(seconds)) + "Z"
  }

  function FormatMillis(millis: int): string {
    Format(millis / 1000)[..19] + "." + Padded(millis % 1000, 3) + "Z"
  }

  // ---------------------------------------------------------- round trips

  /** The first second of the year 10000. */
  const FAR_FUTURE := 253_402_300_800

  lemma TimeOfDay(date: Date, time: int)
    requires IsDate(date) && 0 <= time < 86_400
    ensures var f := At(date, time);
      IsReal(f) && f.hour * 3600 + f.minute * 60 + f.second == time
  {
    assert time == time / 3600 * 3600 + time % 3600;
    assert time / 60 / 60 == time / 3600;
  }

  lemma InstantDeterminesFields(f: Fields)
    requires IsReal(f)
    ensures FieldsOf(Instant(f)) == f
  {
    var days := DaysFromCivil(f.year, f.month, f.day);
    var time := f.hour * 3600 + f.minute * 60 + f.second;
    DayAndTime(Instant(f), days, time);
    CivilInvertsDays(Date(f.year, f.month, f.day));
    TimeParts(f.hour, f.minute, f.second);
  }

  lemma TimeParts(hour: int, minute: int, second: int)
    requires 0 <= minute < 60 && 0 <= second < 60
    ensures var time := hour * 3600 + minute * 60 + second;
      time / 3600 == hour && time / 60 % 60 == minute && time % 60 == second
  {
    var time := hour * 3600 + minute * 60 + second;
    assert time / 60 == 60 * hour + minute;
  }

  lemma DayAndTime(seconds: int, days: int, time: int)
    requires seconds == days * 86_400 + time && 0 <= time < 86_400
    ensures seconds / 86_400 == days && seconds % 86_400 == time
  {
  }

  /** The fields printed for a time are real and denote it. */
  lemma FieldsDenote(seconds: int)
    ensures IsReal(FieldsOf(seconds)) && Instant(FieldsOf(seconds)) == seconds
  {
    var days := seconds / 86_400;
    CalendarBijection(days, EPOCH);
    TimeOfDay(CivilFromDays(days), seconds % 86_400);
  }

  lemma YearOf(seconds: int)
    ensures FieldsOf(seconds).year >= 1970 <==> seconds >= 0
    ensures FieldsOf(seconds).year >= 10_000 <==> seconds >= FAR_FUTURE
  {
    var days := seconds / 86_400;
    assert DaysFromCivil(1970, 1, 1) == 0 && DaysFromCivil(10_000, 1, 1) * 86_400 == FAR_FUTURE;
    YearBoundary(1970, days);
    YearBoundary(10_000, days);
    assert days >= DaysFromCivil(10_000, 1, 1) <==> seconds >= FAR_FUTURE;
  }

  lemma FieldReadsBack(n: int, width: nat, value: string, at: nat)
    requires n >= 0 && at + width <= |value| && value[at..at + width] == Padded(n, width)
    ensures Number(value, at, at + width) == Some(n)
  {
    PaddedReadsBack(n, width);
  }

  /** Where the three parts of a triple lie, in a text that holds it. */
  lemma TripleParts(value: string, at: nat, a: string, separator: char, b: string, c: string)
    requires |b| == |c| == 2 && at + |a| + 6 <= |value|
    requires value[at..at + |a| + 6] == Triple(a, separator, b, c)
    ensures value[at..at + |a|] == a
    ensures value[at + |a|] == separator && value[at + |a| + 3] == separator
    ensures value[at + |a| + 1..at + |a| + 3] == b
    ensures value[at + |a| + 4..at + |a| + 6] == c
  {
    var t := value[at..at + |a| + 6];
    assert value[at..at + |a|] == t[..|a|];
    assert value[at + |a|] == t[|a|] && value[at + |a| + 3] == t[|a| + 3];
    assert value[at + |a| + 1] == t[|a| + 1] && value[at + |a| + 2] == t[|a| + 2];
    assert value[at + |a| + 1..at + |a| + 3] == [t[|a| + 1], t[|a| + 2]];
    assert value[at + |a| + 4] == t[|a| + 4] && value[at + |a| + 5] == t[|a| + 5];
    assert value[at + |a| + 4..at + |a| + 6] == [t[|a| + 4], t[|a| + 5]];
  }

  /** A head of four-digit year reads back as its fields, whatever follows. */
  lemma HeadReadsBack(f: Fields, tail: string)
    requires InRange(f) && 0 <= f.year < 10_000 && tail != []
    ensures |Head(f)| == 19 && (Head(f) + tail)[10] == 'T' && ReadFields(Head(f) + tail) == Some(f)
  {
    PaddedLength(f.year);
    PaddedLength(f.month);
    PaddedLength(f.day);
    PaddedLength(f.hour);
    PaddedLength(f.minute);
    PaddedLength(f.second);
    HeadFieldsRead(f, Head(f) + tail);
  }

  lemma HeadFieldsRead(f: Fields, v: string)
    requires InRange(f) && f.year >= 0 && |v| >= 20 && v[10] == 'T'
    requires |Padded(f.year, 4)| == 4 && |Padded(f.month, 2)| == |Padded(f.day, 2)| == 2
    requires |Padded(f.hour, 2)| == |Padded(f.minute, 2)| == |Padded(f.second, 2)| == 2
    requires v[0..10] == Triple(Padded(f.year, 4), '-', Padded(f.month, 2), Padded(f.day, 2))
    requires v[11..19] == Triple(Padded(f.hour, 2), ':', Padded(f.minute, 2), Padded(f.second, 2))
    ensures ReadFields(v) == Some(f)
  {
    TripleParts(v, 0, Padded(f.year, 4), '-', Padded(f.month, 2), Padded(f.day, 2));
    TripleParts(v, 11, Padded(f.hour, 2), ':', Padded(f.minute, 2), Padded(f.second, 2));
    FieldReadsBack(f.year, 4, v, 0);
    FieldReadsBack(f.month, 2, v, 5);
    FieldReadsBack(f.day, 2, v, 8);
    FieldReadsBack(f.hour, 2, v, 11);
    FieldReadsBack(f.minute, 2, v, 14);
    FieldReadsBack(f.second, 2, v, 17);
  }

  /** And the text of read fields is the head of that text. */
  lemma FieldsPrintBack(value: string)
    requires ReadFields(value).Some? && value[10] == 'T'
    ensures Head(ReadFields(value).value) == value[..19]
  {
    ValuePrintsBack(value[0..4]);
    ValuePrintsBack(value[5..7]);
    ValuePrintsBack(value[8..10]);
    ValuePrintsBack(value[11..13]);
    ValuePrintsBack(value[14..16]);
    ValuePrintsBack(value[17..19]);
    assert value[..19] == value[0..4] + "-" + value[5..7] + "-" + value[8..10] + "T"
                       + value[11..13] + ":" + value[14..16] + ":" + value[17..19];
  }

  lemma UnreadableYear(f: Fields, value: string)
    requires InRange(f) && (f.year < 0 || f.year >= 10_000)
    requires |value| >= 5 && |Head(f)| >= 19 && value[..5] == Head(f)[..5]
    ensures Parse(value) == Rejected
  {
    PaddedOutOfRange(f.year);
    assert value[0] == Padded(f.year, 4)[0];
    assert value[0..4][0] == value[0];
  }

  /** What a printed head and a UTC zone read as. */
  lemma HeadParses(f: Fields, tail: string)
    requires InRange(f) && 0 <= f.year < 10_000 && tail != [] && AfterFraction(tail) == Some("Z")
    ensures |Head(f)| == 19 && (Head(f) + tail)[19..] == tail
    ensures Parse(Head(f) + tail) == if f.year < 1970 then Rejected else Time(Instant(f))
  {
    HeadReadsBack(f, tail);
    assert (Head(f) + tail)[19..] == tail;
  }

  /** Printing is inverted by reading exactly from 1970 to the end of 9999. */
  lemma FormatRoundTrip(seconds: int)
    ensures Parse(Format(seconds)) == Time(seconds) <==> 0 <= seconds < FAR_FUTURE
  {
    hide FieldsOf, Instant, Head;
    var f := FieldsOf(seconds);
    YearOf(seconds);
    FieldsDenote(seconds);
    if 0 <= f.year < 10_000 {
      HeadParses(f, "Z");
    } else {
      UnreadableYear(f, Format(seconds));
    }
  }

  lemma FormatMillisRoundTrip(millis: int)
    ensures ParseMillis(FormatMillis(millis)) == Time(millis) <==> 0 <= millis < FAR_FUTURE * 1000
  {
    hide FieldsOf, Instant, Head, Padded;
    var f := FieldsOf(millis / 1000);
    YearOf(millis / 1000);
    FieldsDenote(millis / 1000);
    var value := FormatMillis(millis);
    if 0 <= f.year < 10_000 {
      var tail := "." + Padded(millis % 1000, 3) + "Z";
      FractionReadsBack(millis % 1000, tail);
      HeadParses(f, tail);
      assert value == Head(f) + tail;
    } else {
      UnreadableYear(f, value);
    }
  }

  lemma FractionReadsBack(n: int, tail: string)
    requires 0 <= n < 1000 && tail == "." + Padded(n, 3) + "Z"
    ensures AfterFraction(tail) == Some("Z")
    ensures FractionDigit(tail, 0) * 100 + FractionDigit(tail, 1) * 10 + FractionDigit(tail, 2) == n
  {
    Padded3(n);
    hide Padded;
    ThreeDigitRun(Digit(n / 100), Digit(n / 10 % 10), Digit(n % 10), tail[1..]);
  }

  lemma ThreeDigitRun(a: char, b: char, c: char, s: string)
    requires IsDigit(a) && IsDigit(b) && IsDigit(c) && s == [a, b, c, 'Z']
    ensures DigitRun(s) == 3 && s[3..] == "Z"
  {
    assert s[1..] == [b, c, 'Z'];
    assert s[1..][1..] == [c, 'Z'];
    assert s[1..][1..][1..] == "Z";
    assert DigitRun(s) == 1 + DigitRun(s[1..]);
    assert DigitRun(s[1..]) == 1 + DigitRun(s[1..][1..]);
  }

  /** A UTC text in the printed form that names a moment that exists. */
  predicate IsCanonical(value: string) {
    |value| == 20 && value[10] == 'T' && value[19] == 'Z'
    && ReadFields(value).Some? && IsReal(ReadFields(value).value)
  }

  /** Reading is inverted by printing exactly on the canonical texts: any other
      accepted text (an offset, a fraction, a 31st of April, a leap second)
      prints as something else. */
  lemma ParseRoundTrip(value: string)
    requires Parse(value).Time?
    ensures Format(Parse(value).value) == value <==> IsCanonical(value)
  {
    hide FieldsOf, Instant, Head, ReadFields;
    var seconds := Parse(value).value;
    var f := ReadFields(value).value;
    if IsCanonical(value) {
      assert value[19..] == "Z";
      FieldsPrintBack(value);
      InstantDeterminesFields(f);
      assert value == value[..19] + "Z";
    } else if Format(seconds) == value {
      FormatRoundTrip(seconds);
      YearOf(seconds);
      FieldsDenote(seconds);
      HeadReadsBack(FieldsOf(seconds), "Z");
      assert false;
    }
  }

  /** The reader slices inside a character, and panics, exactly on six-byte
      zones whose cut points fall there. */
  lemma ParsePanics(value: string)
    ensures Parse(value).Panics? <==>
      ReadFields(value).Some? && AfterFraction(value[19..]).Some?
      && var rest := AfterFraction(value[19..]).value;
         |rest| == 6 && (IsContinuation(rest[1])
         || ((rest[0] == '+' || rest[0] == '-') && (IsContinuation(rest[3]) || IsContinuation(rest[4]))))
  {
  }

  /** Well-formed UTF-8 (section 4 of RFC 3629). */
  predicate IsUtf8(s: string) {
    if s == [] then true
    else
      var lead := s[0] as int;
      if lead < 0x80 then IsUtf8(s[1..])
      else if 0xC2 <= lead < 0xE0 then |s| >= 2 && IsContinuation(s[1]) && IsUtf8(s[2..])
      else if 0xE0 <= lead < 0xF0 then
        && |s| >= 3 && IsContinuation(s[1]) && IsContinuation(s[2])
        && (lead == 0xE0 ==> s[1] as int >= 0xA0) && (lead == 0xED ==> (s[1] as int) < 0xA0) && IsUtf8(s[3..])
      else
        && 0xF0 <= lead < 0xF5 && |s| >= 4 && IsContinuation(s[1]) && IsContinuation(s[2]) && IsContinuation(s[3])
        && (lead == 0xF0 ==> s[1] as int >= 0x90) && (lead == 0xF4 ==> (s[1] as int) < 0x90) && IsUtf8(s[4..])
  }

  lemma {:induction false} AsciiFirst(a: string, b: string)
    requires forall i :: 0 <= i < |a| ==> a[i] as int < 0x80
    ensures IsUtf8(a + b) <==> IsUtf8(b)
  {
    if a == [] {
      assert a + b == b;
    } else {
      AsciiFirst(a[1..], b);
      assert (a + b)[1..] == a[1..] + b;
    }
  }

  lemma TwoDigits(a: char, b: char)
    requires IsDigit(a) && IsDigit(b)
    ensures AllDigits([a, b]) && ValueOf([a, b]) == 10 * DigitValue(a) + DigitValue(b)
  {
    assert ValueOf([]) == 0;
    assert [a][..0] == [];
    assert ValueOf([a]) == DigitValue(a);
    assert [a, b][..1] == [a];
  }

  const MOMENT := "2026-09-22T09:42:06"
  const ACCENTED := [0xC3 as char, 0xA9 as char, '1', ':', '0', '0']

  lemma FourDigits(a: char, b: char, c: char, d: char)
    requires IsDigit(a) && IsDigit(b) && IsDigit(c) && IsDigit(d)
    ensures AllDigits([a, b, c, d])
    ensures ValueOf([a, b, c, d]) == 1000 * DigitValue(a) + 100 * DigitValue(b) + 10 * DigitValue(c) + DigitValue(d)
  {
    TwoDigits(a, b);
    assert [a, b, c][..2] == [a, b];
    assert ValueOf([a, b, c]) == 10 * ValueOf([a, b]) + DigitValue(c);
    assert [a, b, c, d][..3] == [a, b, c];
  }

  lemma MomentReads(zone: string)
    requires zone != []
    ensures ReadFields(MOMENT + zone) == Some(Fields(2026, 9, 22, 9, 42, 6)) && (MOMENT + zone)[19..] == zone
  {
    hide ReadFields;
    var value := MOMENT + zone;
    assert forall i :: 0 <= i < 19 ==> value[i] == MOMENT[i];
    assert value[0..4] == ['2', '0', '2', '6'];
    assert value[5..7] == ['0', '9'] && value[8..10] == ['2', '2'] && value[11..13] == ['0', '9'];
    assert value[14..16] == ['4', '2'] && value[17..19] == ['0', '6'];
    MomentFields(value);
  }

  lemma MomentFields(value: string)
    requires |value| >= 20 && value[4] == '-' && value[7] == '-' && value[10] == 'T'
    requires value[13] == ':' && value[16] == ':'
    requires value[0..4] == ['2', '0', '2', '6'] && value[5..7] == ['0', '9'] && value[8..10] == ['2', '2']
    requires value[11..13] == ['0', '9'] && value[14..16] == ['4', '2'] && value[17..19] == ['0', '6']
    ensures ReadFields(value) == Some(Fields(2026, 9, 22, 9, 42, 6))
  {
    FourDigits('2', '0', '2', '6');
    TwoDigits('0', '9');
    TwoDigits('2', '2');
    TwoDigits('4', '2');
    TwoDigits('0', '6');
    hide ValueOf;
  }

  lemma AccentedIsUtf8()
    ensures IsUtf8(MOMENT + ACCENTED)
  {
    AsciiFirst(MOMENT, ACCENTED);
    assert ACCENTED[2..] == "1:00";
    AsciiFirst("1:00", "");
    assert "1:00" + "" == "1:00";
  }

  /** Such a text exists: an accented letter where the sign of the zone is expected. */
  lemma AccentedZonePanics()
    ensures IsUtf8(MOMENT + ACCENTED) && Parse(MOMENT + ACCENTED).Panics?
  {
    hide IsUtf8, ReadFields;
    AccentedIsUtf8();
    MomentReads(ACCENTED);
    ParsePanics(MOMENT + ACCENTED);
  }
}
