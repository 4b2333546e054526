/** Every text the timestamp reader of `desktop/src/clock.rs` accepts, and the moment each
    names: a writer of stamps with fractions and zones that the reader inverts. */
module ZonedTimestamps {
  import opened Wrappers
  import opened Numerals
  import opened Calendar
  import opened Timestamps

  /** Two characters of a zone: two digits, or a sign and a digit. */
  datatype Two = Plain(n: nat) | Signed(minus: bool, digit: nat)

  datatype Zone = Utc(small: bool) | Away(minus: bool, hours: Two, minutes: Two)

  predicate IsTwo(t: Two) {
    match t
    case Plain(n) => n < 100
    case Signed(_, digit) => digit < 10
  }

  function TwoText(t: Two): string
    requires IsTwo(t)
  {
    match t
    case Plain(n) => Padded(n, 2)
    case Signed(minus, digit) => [if minus then '-' else '+', Digit(digit)]
  }

  function TwoValue(t: Two): int {
    match t
    case Plain(n) => n
    case Signed(minus, digit) => if minus then 0 - digit else digit
  }

  predicate IsZone(z: Zone) {
    z.Away? ==> IsTwo(z.hours) && IsTwo(z.minutes)
  }

  function ZoneText(z: Zone): string
    requires IsZone(z)
  {
    match z
    case Utc(small) => if small then "z" else "Z"
    case Away(minus, hours, minutes) => [if minus then '-' else '+'] + TwoText(hours) + ":" + TwoText(minutes)
  }

  /** How far ahead of UTC a zone is. */
  function Ahead(z: Zone): int {
    match z
    case Utc(_) => 0
    case Away(minus, hours, minutes) =>
      var seconds := 3600 * TwoValue(hours) + 60 * TwoValue(minutes);
      if minus then -seconds else seconds
  }

  /** No fraction, or a point and digits. */
  predicate IsFraction(fraction: string) {
    fraction == "" || (|fraction| > 1 && fraction[0] == '.' && AllDigits(fraction[1..]))
  }

  /** The first three digits of a fraction, missing ones being zero. */
  function Millis(fraction: string): int
    requires IsFraction(fraction)
  {
    if fraction == "" then 0
    else
      var digits := fraction[1..] + "000";
      100 * DigitValue(digits[0]) + 10 * DigitValue(digits[1]) + DigitValue(digits[2])
  }

  predicate IsStamp(f: Fields, separator: char, fraction: string, zone: Zone) {
    && 0 <= f.year <= 9999 && 1 <= f.month <= 12 && 1 <= f.day <= 31
    && 0 <= f.hour <= 23 && 0 <= f.minute <= 59 && 0 <= f.second <= 60
    && (separator == 'T' || separator == 't' || separator == ' ')
    && IsFraction(fraction) && IsZone(zone)
  }

  function Stamp(f: Fields, separator: char, fraction: string, zone: Zone): string
    requires IsStamp(f, separator, fraction, zone)
  {
    HeadLength(f);
    Head(f)[10 := separator] + fraction + ZoneText(zone)
  }

  lemma HeadLength(f: Fields)
    requires InRange(f) && 0 <= f.year <= 9999
    ensures |Head(f)| == 19 && Head(f)[10] == 'T'
  {
    HeadReadsBack(f, "Z");
  }

  // ---------------------------------------------------------- parts

  lemma TwoReads(t: Two)
    requires IsTwo(t)
    ensures |TwoText(t)| == 2 && SmallInteger(TwoText(t)[0], TwoText(t)[1]) == Some(TwoValue(t))
    ensures !IsContinuation(TwoText(t)[0]) && !IsContinuation(TwoText(t)[1])
  {
    if t.Plain? {
      Padded2(t.n);
      hide Padded;
    }
  }

  lemma ZoneReads(z: Zone)
    requires IsZone(z)
    ensures Offset(ZoneText(z)) == Time(Ahead(z))
    ensures ZoneText(z) != [] && !IsDigit(ZoneText(z)[0]) && ZoneText(z)[0] != '.'
  {
    if z.Away? {
      TwoReads(z.hours);
      TwoReads(z.minutes);
      hide TwoText, SmallInteger, TwoValue, IsTwo;
      var rest := ZoneText(z);
      var hours, minutes := TwoText(z.hours), TwoText(z.minutes);
      assert rest == [rest[0], hours[0], hours[1], ':', minutes[0], minutes[1]];
    }
  }

  lemma {:induction false} RunOfDigits(digits: string, rest: string)
    requires AllDigits(digits) && rest != [] && !IsDigit(rest[0])
    ensures DigitRun(digits + rest) == |digits|
  {
    if digits == [] {
      assert digits + rest == rest;
    } else {
      assert (digits + rest)[1..] == digits[1..] + rest;
      RunOfDigits(digits[1..], rest);
    }
  }

  lemma FractionSkipped(fraction: string, rest: string)
    requires IsFraction(fraction) && rest != [] && !IsDigit(rest[0]) && rest[0] != '.'
    ensures AfterFraction(fraction + rest) == Some(rest)
  {
    if fraction == "" {
      assert fraction + rest == rest;
    } else {
      var all := fraction + rest;
      assert all[1..] == fraction[1..] + rest;
      RunOfDigits(fraction[1..], rest);
      assert all[1..][|fraction[1..]|..] == rest;
    }
  }

  lemma FractionMillis(fraction: string, rest: string)
    requires IsFraction(fraction) && rest != [] && !IsDigit(rest[0]) && rest[0] != '.'
    ensures
      var all := fraction + rest;
      100 * FractionDigit(all, 0) + 10 * FractionDigit(all, 1) + FractionDigit(all, 2) == Millis(fraction)
  {
    var all := fraction + rest;
    if fraction == "" {
      assert all == rest;
    } else {
      var digits := fraction[1..];
      assert all[1..] == digits + rest;
      RunOfDigits(digits, rest);
      hide DigitRun;
      forall i | 0 <= i < 3
        ensures FractionDigit(all, i) == DigitValue((digits + "000")[i])
      {
        if i < |digits| {
          assert all[1 + i] == digits[i];
        } else {
          assert (digits + "000")[i] == '0';
        }
      }
    }
  }

  lemma AnySeparator(value: string, separator: char)
    requires |value| >= 20 && value[10] == 'T' && (separator == 'T' || separator == 't' || separator == ' ')
    ensures ReadFields(value[10 := separator]) == ReadFields(value)
  {
    var other := value[10 := separator];
    hide ValueOf;
    assert other[0..4] == value[0..4] && other[5..7] == value[5..7] && other[8..10] == value[8..10];
    assert other[11..13] == value[11..13] && other[14..16] == value[14..16] && other[17..19] == value[17..19];
  }

  // ---------------------------------------------------------- reading stamps

  lemma StampParts(f: Fields, separator: char, fraction: string, zone: Zone)
    requires IsStamp(f, separator, fraction, zone)
    ensures
      var value := Stamp(f, separator, fraction, zone);
      |value| >= 20 && ReadFields(value) == Some(f) && value[19..] == fraction + ZoneText(zone)
  {
    hide ReadFields, Head, ZoneText;
    ZoneReads(zone);
    HeadLength(f);
    var tail := fraction + ZoneText(zone);
    HeadReadsBack(f, tail);
    AnySeparator(Head(f) + tail, separator);
    assert Stamp(f, separator, fraction, zone) == (Head(f) + tail)[10 := separator];
  }

  /** The reader gives every stamp from 1970 on the moment it names: its date and time of
      day on the UTC clock, less what its zone is ahead; and rejects earlier years. */
  lemma StampReads(f: Fields, separator: char, fraction: string, zone: Zone)
    requires IsStamp(f, separator, fraction, zone)
    ensures
      var value := Stamp(f, separator, fraction, zone);
      if f.year < 1970 then Parse(value) == Rejected && ParseMillis(value) == Rejected
      else
        && Parse(value) == Time(Instant(f) - Ahead(zone))
        && ParseMillis(value) == Time(1000 * (Instant(f) - Ahead(zone)) + Millis(fraction))
  {
    hide Stamp, ReadFields, Instant, Offset, ZoneText, Ahead, Millis, FractionDigit, AfterFraction;
    StampParts(f, separator, fraction, zone);
    ZoneReads(zone);
    FractionSkipped(fraction, ZoneText(zone));
    FractionMillis(fraction, ZoneText(zone));
  }

  // ---------------------------------------------------------- nothing else is read

  lemma TwoOf(a: char, b: char) returns (t: Two)
    requires SmallInteger(a, b).Some?
    ensures IsTwo(t) && TwoText(t) == [a, b]
  {
    if IsDigit(a) {
      t := Plain(10 * DigitValue(a) + DigitValue(b));
      Padded2(t.n);
    } else {
      t := Signed(a == '-', DigitValue(b));
    }
  }

  lemma ZoneOf(rest: string) returns (z: Zone)
    requires Offset(rest).Time?
    ensures IsZone(z) && ZoneText(z) == rest
  {
    if rest == "Z" || rest == "z" {
      z := Utc(rest == "z");
    } else {
      var hours := TwoOf(rest[1], rest[2]);
      var minutes := TwoOf(rest[4], rest[5]);
      hide TwoText, SmallInteger;
      z := Away(rest[0] == '-', hours, minutes);
      assert ZoneText(z) == rest;
    }
  }

  lemma FractionOf(text: string) returns (fraction: string)
    requires text != [] && AfterFraction(text).Some?
    ensures IsFraction(fraction) && text == fraction + AfterFraction(text).value
  {
    if text[0] != '.' {
      fraction := "";
    } else {
      var n := DigitRun(text[1..]);
      fraction := text[..n + 1];
      assert fraction[1..] == text[1..][..n];
      assert text[1..][n..] == text[n + 1..];
    }
  }

  lemma HeadOf(value: string)
    requires ReadFields(value).Some?
    ensures
      var f := ReadFields(value).value;
      && IsStamp(f, value[10], "", Utc(false)) && |Head(f)| == 19 && value[..19] == Head(f)[10 := value[10]]
  {
    var f := ReadFields(value).value;
    var plain := value[10 := 'T'];
    assert plain[10 := value[10]] == value;
    var year := value[0..4];
    PrintedYear(year);
    AnySeparatorBack(value);
    FieldsPrintBack(plain);
    HeadLength(f);
    assert plain[..19][10 := value[10]] == value[..19];
  }

  lemma PrintedYear(year: string)
    requires |year| == 4 && AllDigits(year)
    ensures ValueOf(year) <= 9999
  {
    ValuePrintsBack(year);
    DecimalWidth(ValueOf(year));
  }

  lemma AnySeparatorBack(value: string)
    requires ReadFields(value).Some?
    ensures ReadFields(value[10 := 'T']) == ReadFields(value)
  {
    var plain := value[10 := 'T'];
    hide ValueOf;
    assert plain[0..4] == value[0..4] && plain[5..7] == value[5..7] && plain[8..10] == value[8..10];
    assert plain[11..13] == value[11..13] && plain[14..16] == value[14..16] && plain[17..19] == value[17..19];
  }

  /** The stamp with these parts is the text, and names a year from 1970 on. */
  ghost predicate Spells(value: string, f: Fields, separator: char, fraction: string, zone: Zone) {
    IsStamp(f, separator, fraction, zone) && f.year >= 1970 && value == Stamp(f, separator, fraction, zone)
  }

  /** The reader accepts a text exactly when it is a stamp of a year from 1970 on. */
  lemma AcceptsExactlyStamps(value: string)
    ensures Parse(value).Time? <==> exists f, separator, fraction, zone :: Spells(value, f, separator, fraction, zone)
  {
    hide ReadFields, Instant, Head, Offset, ZoneText, AfterFraction;
    if Parse(value).Time? {
      HeadOf(value);
      var f := ReadFields(value).value;
      var fraction := FractionOf(value[19..]);
      var zone := ZoneOf(AfterFraction(value[19..]).value);
      assert value == value[..19] + value[19..];
      assert value == Head(f)[10 := value[10]] + fraction + ZoneText(zone);
      assert Spells(value, f, value[10], fraction, zone);
    }
    if exists f, separator, fraction, zone :: Spells(value, f, separator, fraction, zone) {
      var f, separator, fraction, zone :| Spells(value, f, separator, fraction, zone);
      hide Stamp;
      StampReads(f, separator, fraction, zone);
    }
  }

  // ---------------------------------------------------------- local time

  /** A zone a whole number of minutes ahead of UTC, or behind. */
  function ZoneAt(minutes: int): (z: Zone)
    requires -1440 < minutes < 1440
    ensures IsZone(z) && Ahead(z) == 60 * minutes
  {
    var n := if minutes < 0 then -minutes else minutes;
    Away(minutes < 0, Plain(n / 60), Plain(n % 60))
  }

  /** A moment printed on the clock of any zone reads back as the moment. */
  lemma ZoneRoundTrip(seconds: int, minutes: int, fraction: string)
    requires -1440 < minutes < 1440 && 0 <= seconds + 60 * minutes < FAR_FUTURE && IsFraction(fraction)
    ensures
      var text := Format(seconds + 60 * minutes)[..19] + fraction + ZoneText(ZoneAt(minutes));
      Parse(text) == Time(seconds) && ParseMillis(text) == Time(1000 * seconds + Millis(fraction))
  {
    hide FieldsOf, Instant, Head, ZoneText, ZoneAt, Parse, ParseMillis, Millis;
    var local := seconds + 60 * minutes;
    var f := FieldsOf(local);
    YearOf(local);
    FieldsDenote(local);
    HeadLength(f);
    StampReads(f, 'T', fraction, ZoneAt(minutes));
    assert Format(local)[..19] == Head(f);
    assert Head(f)[10 := 'T'] == Head(f);
  }

  /** A known moment, in UTC and on a clock two hours ahead. */
  lemma KnownMoment()
    ensures Parse(MOMENT + "Z") == Time(1_790_070_126)
    ensures Parse(MOMENT + "+02:00") == Time(1_790_062_926)
  {
    MomentReads("Z");
    MomentReads("+02:00");
    hide ReadFields;
    assert DaysFromCivil(2026, 9, 22) == 20_718;
    hide DaysFromCivil;
    assert Offset("+02:00") == Time(7200);
  }
}
