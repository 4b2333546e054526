/** The proleptic Gregorian calendar, counted day by day, and the closed-form
    conversions of `desktop/src/clock.rs` that must agree with the count. */
module Calendar {

  datatype Date = Date(year: int, month: int, day: int)

  predicate IsLeap(year: int) {
    year % 4 == 0 && (year % 100 != 0 || year % 400 == 0)
  }

  function DaysInMonth(year: int, month: int): (n: int)
    requires 1 <= month <= 12
    ensures 28 <= n <= 31
  {
    if month == 2 then (if IsLeap(year) then 29 else 28)
    else if month == 4 || month == 6 || month == 9 || month == 11 then 30
    else 31
  }

  predicate IsDate(d: Date) {
    1 <= d.month <= 12 && 1 <= d.day <= DaysInMonth(d.year, d.month)
  }

  const EPOCH := Date(1970, 1, 1)

  function Tomorrow(d: Date): (t: Date)
    requires IsDate(d)
    ensures IsDate(t)
  {
    if d.day < DaysInMonth(d.year, d.month) then d.(day := d.day + 1)
    else if d.month < 12 then Date(d.year, d.month + 1, 1)
    else Date(d.year + 1, 1, 1)
  }

  function Yesterday(d: Date): (t: Date)
    requires IsDate(d)
    ensures IsDate(t)
  {
    if d.day > 1 then d.(day := d.day - 1)
    else if d.month > 1 then Date(d.year, d.month - 1, DaysInMonth(d.year, d.month - 1))
    else Date(d.year - 1, 12, 31)
  }

  lemma TomorrowUndoesYesterday(d: Date)
    requires IsDate(d)
    ensures Tomorrow(Yesterday(d)) == d && Yesterday(Tomorrow(d)) == d
  {
  }

  /** The reference calendar: the date `n` days after the epoch, found by
      turning one page at a time. */
  function Counted(n: int): (d: Date)
    ensures IsDate(d)
    decreases if n < 0 then -n else n
  {
    if n == 0 then EPOCH
    else if n > 0 then Tomorrow(Counted(n - 1))
    else Yesterday(Counted(n + 1))
  }

  // ---------------------------------------------------------- closed forms

  /** Days from 0000-03-01 to the 1st of March of `year` (years begin in March here). */
  function DaysBeforeYear(year: int): int {
    var era := year / 400;
    var yoe := year - era * 400;
    era * 146_097 + yoe * 365 + yoe / 4 - yoe / 100
  }

  /** Days of a March-based year before its month `mp`, 0 being March. */
  function DaysBeforeMonth(mp: int): int {
    (153 * mp + 2) / 5
  }

  function DaysFromCivil(year: int, month: int, day: int): int
    requires 1 <= month <= 12
  {
    var y := if month <= 2 then year - 1 else year;
    var mp := month + if month > 2 then -3 else 9;
    DaysBeforeYear(y) + DaysBeforeMonth(mp) + day - 1 - 719_468
  }

  function YearOfEra(doe: int): int {
    (doe - doe / 1460 + doe / 36_524 - doe / 146_096) / 365
  }

  function CivilFromDays(days: int): Date {
    var z := days + 719_468;
    var era := z / 146_097;
    var doe := z - era * 146_097;
    var yoe := YearOfEra(doe);
    var doy := doe - (365 * yoe + yoe / 4 - yoe / 100);
    var mp := (5 * doy + 2) / 153;
    var day := doy - (153 * mp + 2) / 5 + 1;
    var month := if mp < 10 then mp + 3 else mp - 9;
    Date(yoe + era * 400 + (if month <= 2 then 1 else 0), month, day)
  }

  // ---------------------------------------------------------- years

  /** A March-based year ends with the February of the next calendar year. */
  function YearLength(year: int): int {
    if IsLeap(year + 1) then 366 else 365
  }

  /** A year's place in its era: centuries, leap cycles and years left over. */
  datatype Place = Place(era: int, c: int, q: int, r: int) {
    predicate Fits() {
      0 <= c <= 3 && 0 <= q <= 24 && 0 <= r <= 3
    }
    function Year(): int {
      400 * era + 100 * c + 4 * q + r
    }
    function Days(): int {
      146_097 * era + 36_524 * c + 1461 * q + 365 * r
    }
    function Length(): int {
      if r == 3 && (q < 24 || c == 3) then 366 else 365
    }
  }

  lemma PlaceOf(year: int) returns (p: Place)
    ensures p.Fits() && p.Year() == year
  {
    var yoe := year % 400;
    p := Place(year / 400, yoe / 100, yoe % 100 / 4, yoe % 4);
  }

  lemma PlaceCounts(p: Place)
    requires p.Fits()
    ensures DaysBeforeYear(p.Year()) == p.Days()
  {
    var year := p.Year();
    assert year / 400 == p.era;
    assert (year - p.era * 400) / 100 == p.c;
    assert (year - p.era * 400) / 4 == 25 * p.c + p.q;
  }

  lemma Remainder4(n: int, k: int, r: int)
    requires n == 4 * k + r && 0 <= r < 4
    ensures n % 4 == r
  {
  }

  lemma Remainder100(n: int, k: int, r: int)
    requires n == 100 * k + r && 0 <= r < 100
    ensures n % 100 == r
  {
  }

  lemma Remainder400(n: int, k: int, r: int)
    requires n == 400 * k + r && 0 <= r < 400
    ensures n % 400 == r
  {
  }

  lemma PlaceLength(p: Place)
    requires p.Fits()
    ensures YearLength(p.Year()) == p.Length()
  {
    var Place(era, c, q, r) := p;
    var next := p.Year() + 1;
    var a, b, d := (r + 1) / 4, (4 * q + r + 1) / 100, (100 * c + 4 * q + r + 1) / 400;
    Remainder4(next, 100 * era + 25 * c + q + a, r + 1 - 4 * a);
    Remainder100(next, 4 * era + c + b, 4 * q + r + 1 - 100 * b);
    Remainder400(next, era + d, 100 * c + 4 * q + r + 1 - 400 * d);
  }

  lemma YearsFollow(year: int)
    ensures DaysBeforeYear(year + 1) == DaysBeforeYear(year) + YearLength(year)
  {
    var p := PlaceOf(year);
    PlaceCounts(p);
    PlaceLength(p);
    var next :=
      if p.r < 3 then p.(r := p.r + 1)
      else if p.q < 24 then p.(q := p.q + 1, r := 0)
      else if p.c < 3 then p.(c := p.c + 1, q := 0, r := 0)
      else Place(p.era + 1, 0, 0, 0);
    assert next.Year() == year + 1;
    PlaceCounts(next);
  }

  lemma LeapYears(doe: int, k: int, s: int)
    requires doe == 1460 * k + s && 0 <= s < 2920
    ensures doe / 1460 == k + if s >= 1460 then 1 else 0
  {
  }

  lemma WholeYears(n: int, k: int, r: int)
    requires n == 365 * k + r && 0 <= r < 365
    ensures n / 365 == k
  {
  }

  lemma Centuries(p: Place, doy: int)
    requires p.Fits() && 0 <= doy < p.Length()
    ensures var doe := 36_524 * p.c + 1461 * p.q + 365 * p.r + doy;
      doe / 36_524 - doe / 146_096 == p.c
  {
  }

  /** The division formula finds the year of the era a day of the era lies in. */
  lemma YearOfEraIsYear(p: Place, doy: int)
    requires p.Fits() && 0 <= doy < p.Length()
    ensures var doe := p.Days() - 146_097 * p.era + doy;
      0 <= doe < 146_097 && YearOfEra(doe) == 100 * p.c + 4 * p.q + p.r
  {
    var Place(_, c, q, r) := p;
    var doe := 36_524 * c + 1461 * q + 365 * r + doy;
    var s := 24 * c + q + 365 * r + doy;
    assert doe == 1460 * (25 * c + q) + s && 0 <= s < 2920;
    var carry := if s >= 1460 then 1 else 0;
    LeapYears(doe, 25 * c + q, s);
    Centuries(p, doy);
    assert 0 <= doy - carry < 365;
    WholeYears(doe - doe / 1460 + doe / 36_524 - doe / 146_096, 100 * c + 4 * q + r, doy - carry);
  }

  // ---------------------------------------------------------- months

  lemma MonthOfYear(mp: int, day: int)
    requires 0 <= mp <= 11
    requires 1 <= day && (mp < 11 ==> day <= DaysBeforeMonth(mp + 1) - DaysBeforeMonth(mp)) && (mp == 11 ==> day <= 29)
    ensures (5 * (DaysBeforeMonth(mp) + day - 1) + 2) / 153 == mp
  {
  }

  lemma MonthsFollow(year: int, month: int)
    requires 1 <= month <= 12 && month != 2
    ensures var mp := month + if month > 2 then -3 else 9;
      0 <= mp < 11 && DaysBeforeMonth(mp + 1) == DaysBeforeMonth(mp) + DaysInMonth(year, month)
  {
  }

  // ---------------------------------------------------------- the theorems

  /** Turning one page adds one to the closed-form day number. */
  lemma TomorrowIsOneDayLater(d: Date)
    requires IsDate(d)
    ensures var t := Tomorrow(d);
      DaysFromCivil(t.year, t.month, t.day) == DaysFromCivil(d.year, d.month, d.day) + 1
  {
    assert DaysBeforeMonth(11) == 337 && DaysBeforeMonth(0) == 0;
    hide DaysBeforeYear, DaysBeforeMonth;
    if d.day == DaysInMonth(d.year, d.month) {
      if d.month == 2 {
        YearsFollow(d.year - 1);
      } else {
        MonthsFollow(d.year, d.month);
      }
    }
  }

  /** Reading a day of the era back gives its place, and its day of the year. */
  lemma DayOfEraIsPlace(p: Place, doy: int)
    requires p.Fits() && 0 <= doy < p.Length()
    ensures var z := DaysBeforeYear(p.Year()) + doy;
      var doe := z - z / 146_097 * 146_097;
      var yoe := YearOfEra(doe);
      z / 146_097 == p.era && yoe + z / 146_097 * 400 == p.Year()
      && doe - (365 * yoe + yoe / 4 - yoe / 100) == doy
  {
    PlaceCounts(p);
    YearOfEraIsYear(p, doy);
    var doe := p.Days() - 146_097 * p.era + doy;
    assert (146_097 * p.era + doe) / 146_097 == p.era;
    var yoe := 100 * p.c + 4 * p.q + p.r;
    assert yoe / 4 == 25 * p.c + p.q && yoe / 100 == p.c;
  }

  /** A real date's day of its March-based year, and the month that day lies in. */
  lemma DayOfYear(d: Date) returns (y: int, mp: int, doy: int)
    requires IsDate(d)
    ensures y == (if d.month <= 2 then d.year - 1 else d.year)
    ensures mp == d.month + (if d.month > 2 then -3 else 9)
    ensures doy == (153 * mp + 2) / 5 + d.day - 1 && 0 <= doy < YearLength(y)
    ensures (5 * doy + 2) / 153 == mp
    ensures DaysFromCivil(d.year, d.month, d.day) + 719_468 == DaysBeforeYear(y) + doy
  {
    y := if d.month <= 2 then d.year - 1 else d.year;
    mp := d.month + if d.month > 2 then -3 else 9;
    doy := DaysBeforeMonth(mp) + d.day - 1;
    if d.month != 2 {
      MonthsFollow(d.year, d.month);
    }
    assert DaysBeforeMonth(11) == 337;
    MonthOfYear(mp, d.day);
  }

  /** Reading a real date's day number back gives the date. */
  lemma CivilInvertsDays(d: Date)
    requires IsDate(d)
    ensures CivilFromDays(DaysFromCivil(d.year, d.month, d.day)) == d
  {
    hide CivilFromDays, DaysFromCivil, YearOfEra, DaysBeforeYear, YearLength, IsLeap;
    var y, mp, doy := DayOfYear(d);
    var p := PlaceOf(y);
    PlaceLength(p);
    DayOfEraIsPlace(p, doy);
    FromParts(DaysFromCivil(d.year, d.month, d.day), y, mp, doy);
  }

  lemma FromParts(days: int, y: int, mp: int, doy: int)
    requires var z := days + 719_468;
      var doe := z - z / 146_097 * 146_097;
      var yoe := YearOfEra(doe);
      yoe + z / 146_097 * 400 == y && doe - (365 * yoe + yoe / 4 - yoe / 100) == doy
    requires (5 * doy + 2) / 153 == mp
    ensures var month := if mp < 10 then mp + 3 else mp - 9;
      CivilFromDays(days) == Date(y + (if month <= 2 then 1 else 0), month, doy - (153 * mp + 2) / 5 + 1)
  {
  }

  lemma EpochIsZero()
    ensures DaysFromCivil(1970, 1, 1) == 0
  {
  }

  /** The closed form numbers the counted calendar. */
  lemma {:induction false} CountedHasItsNumber(n: int)
    ensures var d := Counted(n); DaysFromCivil(d.year, d.month, d.day) == n
    decreases if n < 0 then -n else n
  {
    EpochIsZero();
    hide DaysFromCivil, Tomorrow, Yesterday, IsDate;
    if n > 0 {
      CountedHasItsNumber(n - 1);
      TomorrowIsOneDayLater(Counted(n - 1));
    } else if n < 0 {
      CountedHasItsNumber(n + 1);
      TomorrowIsOneDayLater(Counted(n));
      TomorrowUndoesYesterday(Counted(n + 1));
    }
  }

  /** `civil_from_days` is the counted calendar, on every integer. */
  lemma CivilIsCounted(n: int)
    ensures CivilFromDays(n) == Counted(n)
  {
    CountedHasItsNumber(n);
    CivilInvertsDays(Counted(n));
  }

  /** The two conversions are mutual inverses between all integers and all real dates. */
  lemma CalendarBijection(n: int, d: Date)
    ensures var e := CivilFromDays(n); IsDate(e) && DaysFromCivil(e.year, e.month, e.day) == n
    ensures IsDate(d) ==> Counted(DaysFromCivil(d.year, d.month, d.day)) == d
  {
    CivilIsCounted(n);
    CountedHasItsNumber(n);
    if IsDate(d) {
      CivilInvertsDays(d);
      CivilIsCounted(DaysFromCivil(d.year, d.month, d.day));
    }
  }

  /** Later days never lie in earlier years. */
  lemma {:induction false} YearsNeverDecrease(m: int, n: int)
    requires m <= n
    ensures Counted(m).year <= Counted(n).year
    decreases n - m
  {
    if m < n {
      YearsNeverDecrease(m, n - 1);
      if n <= 0 {
        TomorrowUndoesYesterday(Counted(n));
      }
    }
  }

  /** The years on either side of a new year. */
  lemma YearBoundary(year: int, n: int)
    ensures CivilFromDays(n).year < year <==> n < DaysFromCivil(year, 1, 1)
  {
    hide CivilFromDays, DaysFromCivil, Counted;
    var first := DaysFromCivil(year, 1, 1);
    CivilIsCounted(n);
    CalendarBijection(n, Date(year, 1, 1));
    if n >= first {
      YearsNeverDecrease(first, n);
    } else {
      YearsNeverDecrease(n, first - 1);
      LastOfYear(year);
    }
  }

  lemma LastOfYear(year: int)
    ensures Counted(DaysFromCivil(year, 1, 1) - 1) == Date(year - 1, 12, 31)
  {
    hide CivilFromDays, DaysFromCivil, Counted, IsLeap;
    var last := Date(year - 1, 12, 31);
    TomorrowIsOneDayLater(last);
    CalendarBijection(0, last);
  }
}
