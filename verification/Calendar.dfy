// UTC instants as text: the calendar of the schedule tools, from 1970 through 9999.

module Calendar {
  import opened Options

  const FIRST_YEAR: nat := 1970
  const LAST_YEAR: nat := 9999
  const DAY_MILLIS: nat := 86_400_000
  const YEAR_10000: nat := 253_402_300_800_000   // the first instant after 9999

  // ----- The Gregorian calendar -----

  predicate IsLeap(year: nat) {
    year % 4 == 0 && (year % 100 != 0 || year % 400 == 0)
  }

  function YearLength(year: nat): nat {
    if IsLeap(year) then 366 else 365
  }

  function MonthLength(year: nat, month: nat): (n: nat)
    ensures 28 <= n <= 31
  {
    if month == 2 then (if IsLeap(year) then 29 else 28)
    else if month == 4 || month == 6 || month == 9 || month == 11 then 30
    else 31
  }

  datatype Date = Date(year: nat, month: nat, day: nat)

  predicate Exists(d: Date) {
    FIRST_YEAR <= d.year && 1 <= d.month <= 12 && 1 <= d.day <= MonthLength(d.year, d.month)
  }

  /** Days from 1 January 1970 to the first of January of a year. */
  function DaysBeforeYear(year: nat): nat {
    if year <= FIRST_YEAR then 0 else DaysBeforeYear(year - 1) + YearLength(year - 1)
  }

  function DaysBeforeMonth(year: nat, month: nat): nat {
    if month <= 1 then 0 else DaysBeforeMonth(year, month - 1) + MonthLength(year, month - 1)
  }

  /** Days from 1 January 1970. */
  function DayNumber(d: Date): nat
    requires Exists(d)
  {
    DaysBeforeYear(d.year) + DaysBeforeMonth(d.year, d.month) + d.day - 1
  }

  /** The date `n` days after the first of January of `year`. */
  function DateFrom(year: nat, n: nat): Date
    decreases n
  {
    if n >= YearLength(year) then DateFrom(year + 1, n - YearLength(year)) else DateInYear(year, 1, n)
  }

  function DateInYear(year: nat, month: nat, n: nat): Date
    decreases 12 - month
  {
    if month < 12 && n >= MonthLength(year, month) then DateInYear(year, month + 1, n - MonthLength(year, month))
    else Date(year, month, n + 1)
  }

  function DateOf(n: nat): Date { DateFrom(FIRST_YEAR, n) }

  lemma MonthsMakeAYear(year: nat)
    ensures DaysBeforeMonth(year, 12) + MonthLength(year, 12) == YearLength(year)
  {
    assert DaysBeforeMonth(year, 2) == 31;
    assert DaysBeforeMonth(year, 3) == 31 + MonthLength(year, 2);
    assert DaysBeforeMonth(year, 5) == DaysBeforeMonth(year, 3) + 61;
    assert DaysBeforeMonth(year, 7) == DaysBeforeMonth(year, 5) + 61;
    assert DaysBeforeMonth(year, 9) == DaysBeforeMonth(year, 7) + 62;
    assert DaysBeforeMonth(year, 11) == DaysBeforeMonth(year, 9) + 61;
  }

  lemma {:induction false} DateInYearIs(year: nat, month: nat, n: nat)
    requires 1 <= month <= 12 && year >= FIRST_YEAR && DaysBeforeMonth(year, month) + n < YearLength(year)
    ensures var d := DateInYear(year, month, n);
            d.year == year && Exists(d) && DaysBeforeMonth(year, d.month) + d.day - 1 == DaysBeforeMonth(year, month) + n
    decreases 12 - month
  {
    if month < 12 && n >= MonthLength(year, month) {
      DateInYearIs(year, month + 1, n - MonthLength(year, month));
    } else if month == 12 {
      MonthsMakeAYear(year);
    }
  }

  lemma {:induction false} DateFromIs(year: nat, n: nat)
    requires year >= FIRST_YEAR
    ensures var d := DateFrom(year, n);
            Exists(d) && d.year >= year && DayNumber(d) == DaysBeforeYear(year) + n
    decreases n
  {
    hide DateInYear, MonthLength;
    if n >= YearLength(year) {
      DateFromIs(year + 1, n - YearLength(year));
    } else {
      DateInYearIs(year, 1, n);
    }
  }

  /** Every day number names a date. */
  lemma DateNumbers(n: nat)
    ensures Exists(DateOf(n)) && DayNumber(DateOf(n)) == n
  {
    DateFromIs(FIRST_YEAR, n);
  }

  lemma {:induction false} MonthsAscend(year: nat, a: nat, b: nat)
    requires 1 <= a < b
    ensures DaysBeforeMonth(year, a) + MonthLength(year, a) <= DaysBeforeMonth(year, b)
    decreases b
  {
    if a + 1 < b {
      MonthsAscend(year, a, b - 1);
    }
  }

  lemma {:induction false} YearsAscend(a: nat, b: nat)
    requires FIRST_YEAR <= a < b
    ensures DaysBeforeYear(a) + YearLength(a) <= DaysBeforeYear(b)
    decreases b
  {
    if a + 1 < b {
      YearsAscend(a, b - 1);
    }
  }

  lemma DayFitsYear(d: Date)
    requires Exists(d)
    ensures DaysBeforeYear(d.year) <= DayNumber(d) < DaysBeforeYear(d.year) + YearLength(d.year)
  {
    MonthsMakeAYear(d.year);
    if d.month < 12 {
      MonthsAscend(d.year, d.month, 12);
    }
  }

  /** Different dates have different numbers, in calendar order. */
  lemma DatesAreDistinct(d: Date, e: Date)
    requires Exists(d) && Exists(e) && DayNumber(d) == DayNumber(e)
    ensures d == e
  {
    DayFitsYear(d);
    DayFitsYear(e);
    if d.year < e.year {
      YearsAscend(d.year, e.year);
    } else if e.year < d.year {
      YearsAscend(e.year, d.year);
    } else if d.month < e.month {
      MonthsAscend(d.year, d.month, e.month);
    } else if e.month < d.month {
      MonthsAscend(d.year, e.month, d.month);
    }
  }

  /** The leap-year count in closed form. */
  lemma {:induction false} DaysBeforeYearClosed(year: nat)
    requires year >= FIRST_YEAR
    ensures DaysBeforeYear(year) == 365 * (year - 1970) + (year - 1) / 4 - (year - 1) / 100 + (year - 1) / 400 - 477
  {
    if year > FIRST_YEAR {
      DaysBeforeYearClosed(year - 1);
      LeapCount(year - 1);
    }
  }

  lemma LeapCount(y: nat)
    requires y >= 1
    ensures (y / 4 - (y - 1) / 4) - (y / 100 - (y - 1) / 100) + (y / 400 - (y - 1) / 400) == if IsLeap(y) then 1 else 0
  {
    FoursStep(y);
    HundredsStep(y);
    FourHundredsStep(y);
    Divisors(y);
  }

  lemma Divisors(y: nat)
    ensures y % 400 == 0 ==> y % 100 == 0
    ensures y % 100 == 0 ==> y % 4 == 0
  {
    assert y % 400 == 0 ==> y == 100 * (4 * (y / 400));
    assert y % 100 == 0 ==> y == 4 * (25 * (y / 100));
  }

  lemma FoursStep(y: nat)
    requires y >= 1
    ensures y / 4 - (y - 1) / 4 == if y % 4 == 0 then 1 else 0
  {
  }

  lemma HundredsStep(y: nat)
    requires y >= 1
    ensures y / 100 - (y - 1) / 100 == if y % 100 == 0 then 1 else 0
  {
  }

  lemma FourHundredsStep(y: nat)
    requires y >= 1
    ensures y / 400 - (y - 1) / 400 == if y % 400 == 0 then 1 else 0
  {
  }

  // ----- Digits -----

  predicate IsDigit(c: char) { '0' <= c <= '9' }

  function DigitValue(c: char): (n: nat)
    requires IsDigit(c)
    ensures n <= 9
  {
    (c - '0') as nat
  }

  function DigitOf(n: nat): (c: char)
    requires n <= 9
    ensures IsDigit(c) && DigitValue(c) == n
  {
    '0' + n as char
  }

  predicate AllDigits(s: string) {
    forall i | 0 <= i < |s| :: IsDigit(s[i])
  }

  function Number(s: string): nat
    requires AllDigits(s)
  {
    if s == [] then 0 else 10 * Number(s[..|s| - 1]) + DigitValue(s[|s| - 1])
  }

  /** `count` digits of `n`, zero-padded. */
  function Padded(n: nat, count: nat): (s: string)
    ensures |s| == count && AllDigits(s)
  {
    if count == 0 then [] else Padded(n / 10, count - 1) + [DigitOf(n % 10)]
  }

  function Power(count: nat): nat {
    if count == 0 then 1 else 10 * Power(count - 1)
  }

  lemma {:induction false} NumberOfPadded(n: nat, count: nat)
    requires n < Power(count)
    ensures Number(Padded(n, count)) == n
  {
    if count > 0 {
      NumberOfPadded(n / 10, count - 1);
      var s := Padded(n, count);
      assert s[..|s| - 1] == Padded(n / 10, count - 1);
    }
  }

  lemma {:induction false} PaddedOfNumber(s: string)
    requires AllDigits(s)
    ensures Number(s) < Power(|s|) && Padded(Number(s), |s|) == s
  {
    if s != [] {
      var front, last := s[..|s| - 1], s[|s| - 1];
      PaddedOfNumber(front);
      var n := Number(s);
      assert n / 10 == Number(front) && n % 10 == DigitValue(last);
      assert DigitOf(DigitValue(last)) == last;
      assert s == front + [last];
    }
  }

  // ----- Text of an instant -----

  function Clock(hour: nat, minute: nat, second: nat): nat {
    (hour * 60 + minute) * 60 + second
  }

  function Text(d: Date, hour: nat, minute: nat, second: nat): (s: string)
    ensures |s| == 20
  {
    Padded(d.year, 4) + "-" + Padded(d.month, 2) + "-" + Padded(d.day, 2) + "T"
    + Padded(hour, 2) + ":" + Padded(minute, 2) + ":" + Padded(second, 2) + "Z"
  }

  /** utc: the text of an instant from 1970 through 9999. */
  function Utc(millis: nat): (s: string)
    ensures |s| == 20
  {
    var seconds := millis % DAY_MILLIS / 1000;
    Text(DateOf(millis / DAY_MILLIS), seconds / 3600, seconds / 60 % 60, seconds % 60)
  }

  predicate HasShape(s: string) {
    |s| == 20 && s[4] == '-' && s[7] == '-' && s[10] == 'T' && s[13] == ':' && s[16] == ':' && s[19] == 'Z'
  }

  datatype Fields = Fields(date: Date, hour: nat, minute: nat, second: nat)

  predicate InRange(f: Fields) {
    Exists(f.date) && f.date.year <= LAST_YEAR && f.hour <= 23 && f.minute <= 59 && f.second <= 59
  }

  function Instant(f: Fields): nat
    requires Exists(f.date)
  {
    DayNumber(f.date) * DAY_MILLIS + Clock(f.hour, f.minute, f.second) * 1000
  }

  /** parseUtc as a relation: the text of these fields, which are a supported calendar time. */
  predicate Names(s: string, f: Fields) {
    InRange(f) && s == Text(f.date, f.hour, f.minute, f.second)
  }

  method Digits(value: string, begin: nat, count: nat) returns (number: Option<nat>)
    requires begin + count <= |value|
    ensures number.Some? <==> AllDigits(value[begin..begin + count])
    ensures number.Some? ==> number.value == Number(value[begin..begin + count])
  {
    var n := 0;
    for index := begin to begin + count
      invariant AllDigits(value[begin..index]) && n == Number(value[begin..index])
    {
      if !IsDigit(value[index]) {
        assert value[begin..begin + count][index - begin] == value[index];
        return None;
      }
      assert value[begin..index + 1][..index - begin] == value[begin..index];
      n := n * 10 + DigitValue(value[index]);
    }
    return Some(n);
  }

  method ReadFields(value: string) returns (f: Option<Fields>)
    requires |value| == 20
    ensures f.Some? ==> Parts(value, f.value)
    ensures f.None? ==> forall g :: !Parts(value, g)
  {
    var year := Digits(value, 0, 4);
    var hour := Digits(value, 11, 2);
    var minute := Digits(value, 14, 2);
    var second := Digits(value, 17, 2);
    var month := Digits(value, 5, 2);
    var day := Digits(value, 8, 2);
    hide Number, AllDigits;
    if year.None? || hour.None? || minute.None? || second.None? || month.None? || day.None? {
      return None;
    }
    return Some(Fields(Date(year.value, month.value, day.value), hour.value, minute.value, second.value));
  }

  /** Accepts exactly the texts of supported calendar times, and answers their instant. */
  method ParseUtc(value: string) returns (millis: Option<nat>)
    ensures millis.Some? <==> exists f :: Names(value, f)
    ensures forall f :: Names(value, f) ==> millis == Some(Instant(f))
  {
    if !HasShape(value) {
      NamesHaveShape(value);
      return None;
    }
    NamesHaveParts(value);
    PartsName(value);
    hide HasShape, Names, DayNumber;
    var read := ReadFields(value);
    if read.None? || !InRange(read.value) {
      NothingNamed(value, read);
      return None;
    }
    assert forall f :: Parts(value, f) ==> f == read.value;
    return Some(Instant(read.value));
  }

  lemma NothingNamed(s: string, read: Option<Fields>)
    requires |s| == 20 && (if read.Some? then Parts(s, read.value) && !InRange(read.value) else forall g :: !Parts(s, g))
    ensures forall f :: !Names(s, f)
  {
    NamesHaveParts(s);
  }

  /** The six numbers of a text of the right shape. */
  predicate Parts(s: string, f: Fields)
    requires |s| == 20
  {
    && AllDigits(s[0..4]) && AllDigits(s[5..7]) && AllDigits(s[8..10])
    && AllDigits(s[11..13]) && AllDigits(s[14..16]) && AllDigits(s[17..19])
    && f.date == Date(Number(s[0..4]), Number(s[5..7]), Number(s[8..10]))
    && f.hour == Number(s[11..13]) && f.minute == Number(s[14..16]) && f.second == Number(s[17..19])
  }

  lemma TextParts(f: Fields)
    ensures var s := Text(f.date, f.hour, f.minute, f.second);
            && HasShape(s)
            && s[0..4] == Padded(f.date.year, 4) && s[5..7] == Padded(f.date.month, 2) && s[8..10] == Padded(f.date.day, 2)
            && s[11..13] == Padded(f.hour, 2) && s[14..16] == Padded(f.minute, 2) && s[17..19] == Padded(f.second, 2)
  {
    hide Padded;
  }

  lemma NamesHaveShape(s: string)
    ensures (exists f :: Names(s, f)) ==> HasShape(s)
  {
    if f :| Names(s, f) {
      TextParts(f);
    }
  }

  lemma NumbersOfText(f: Fields)
    requires InRange(f)
    ensures Parts(Text(f.date, f.hour, f.minute, f.second), f)
  {
    TextParts(f);
    assert Power(2) == 100 && Power(4) == 10_000 by {
      assert Power(1) == 10 && Power(3) == 1000;
    }
    NumberOfPadded(f.date.year, 4);
    NumberOfPadded(f.date.month, 2);
    NumberOfPadded(f.date.day, 2);
    NumberOfPadded(f.hour, 2);
    NumberOfPadded(f.minute, 2);
    NumberOfPadded(f.second, 2);
  }

  lemma NamesHaveParts(s: string)
    requires |s| == 20
    ensures forall f :: Names(s, f) ==> Parts(s, f)
  {
    forall f | Names(s, f)
      ensures Parts(s, f)
    {
      NumbersOfText(f);
    }
  }

  lemma TheseName(s: string, f: Fields)
    requires HasShape(s) && Parts(s, f) && InRange(f)
    ensures Names(s, f)
  {
    PaddedOfNumber(s[0..4]);
    PaddedOfNumber(s[5..7]);
    PaddedOfNumber(s[8..10]);
    PaddedOfNumber(s[11..13]);
    PaddedOfNumber(s[14..16]);
    PaddedOfNumber(s[17..19]);
    hide Padded, Number, AllDigits, Exists, Text;
    TextParts(f);
    PiecesMakeText(s, Text(f.date, f.hour, f.minute, f.second));
  }

  lemma PartsName(s: string)
    requires HasShape(s)
    ensures forall f :: Parts(s, f) && InRange(f) ==> Names(s, f)
  {
    assert |s| == 20;
    hide Names, HasShape;
    forall f | Parts(s, f) && InRange(f)
      ensures Names(s, f)
    {
      hide Parts, InRange;
      TheseName(s, f);
    }
  }

  lemma PiecesMakeText(s: string, t: string)
    requires HasShape(s) && HasShape(t)
    requires s[0..4] == t[0..4] && s[5..7] == t[5..7] && s[8..10] == t[8..10]
    requires s[11..13] == t[11..13] && s[14..16] == t[14..16] && s[17..19] == t[17..19]
    ensures s == t
  {
    forall i | 0 <= i < 20
      ensures s[i] == t[i]
    {
      if i < 4 {
        assert s[0..4][i] == t[0..4][i];
      } else if 5 <= i < 7 {
        assert s[5..7][i - 5] == t[5..7][i - 5];
      } else if 8 <= i < 10 {
        assert s[8..10][i - 8] == t[8..10][i - 8];
      } else if 11 <= i < 13 {
        assert s[11..13][i - 11] == t[11..13][i - 11];
      } else if 14 <= i < 16 {
        assert s[14..16][i - 14] == t[14..16][i - 14];
      } else if 17 <= i < 19 {
        assert s[17..19][i - 17] == t[17..19][i - 17];
      }
    }
  }

  // ----- Round trips -----

  lemma InstantSplits(f: Fields)
    requires InRange(f)
    ensures var m := Instant(f);
            && m / DAY_MILLIS == DayNumber(f.date)
            && m % DAY_MILLIS / 1000 == Clock(f.hour, f.minute, f.second)
            && m % 1000 == 0
  {
    var c := Clock(f.hour, f.minute, f.second) * 1000;
    assert 0 <= c < DAY_MILLIS;
  }

  lemma ClockSplits(hour: nat, minute: nat, second: nat)
    requires hour <= 23 && minute <= 59 && second <= 59
    ensures var s := Clock(hour, minute, second); s / 3600 == hour && s / 60 % 60 == minute && s % 60 == second
  {
  }

  /** Text to instant to text: every accepted text comes back. */
  lemma TextRoundTrip(s: string, f: Fields)
    requires Names(s, f)
    ensures Utc(Instant(f)) == s
  {
    InstantSplits(f);
    ClockSplits(f.hour, f.minute, f.second);
    DateNumbers(DayNumber(f.date));
    DatesAreDistinct(DateOf(DayNumber(f.date)), f.date);
  }

  /** Instant to text to instant: every instant through 9999 comes back, down to whole seconds. */
  lemma InstantRoundTrip(millis: nat)
    requires millis < YEAR_10000
    ensures exists f :: Names(Utc(millis), f) && Instant(f) == millis - millis % 1000
  {
    var day, seconds := millis / DAY_MILLIS, millis % DAY_MILLIS / 1000;
    DayOfInstant(millis);
    SecondsSplit(seconds);
    var f := Fields(DateOf(day), seconds / 3600, seconds / 60 % 60, seconds % 60);
    hide DateOf, Exists, Text, Clock, DaysBeforeYear;
    assert Names(Utc(millis), f);
    assert Instant(f) == day * DAY_MILLIS + seconds * 1000;
    WholeSeconds(millis);
  }

  lemma WholeSeconds(millis: nat)
    ensures millis / DAY_MILLIS * DAY_MILLIS + millis % DAY_MILLIS / 1000 * 1000 == millis - millis % 1000
  {
  }

  lemma SecondsSplit(seconds: nat)
    requires seconds < 86_400
    ensures seconds / 3600 <= 23 && Clock(seconds / 3600, seconds / 60 % 60, seconds % 60) == seconds
  {
  }

  lemma DayOfInstant(millis: nat)
    requires millis < YEAR_10000
    ensures var d := DateOf(millis / DAY_MILLIS);
            Exists(d) && d.year <= LAST_YEAR && DayNumber(d) == millis / DAY_MILLIS
  {
    var n := millis / DAY_MILLIS;
    DaysBeforeYearClosed(LAST_YEAR + 1);
    assert n < DaysBeforeYear(LAST_YEAR + 1);
    DateNumbers(n);
    var d := DateOf(n);
    hide DateOf, DaysBeforeYear, DaysBeforeMonth;
    DayFitsYear(d);
    if d.year > LAST_YEAR + 1 {
      YearsAscend(LAST_YEAR + 1, d.year);
    }
  }
}
