/**
 * Calendar dates as Python's `datetime` module handles them: the proleptic Gregorian
 * calendar from 0001-01-01 to 9999-12-31, `date + timedelta(days=n)` (which raises
 * OverflowError past the last day), `strftime("%Y/%m/%d")` and `isoformat()` (one printer
 * with the separator as parameter), `strftime("%A")`, `strftime("%a")` and
 * `strptime(s, "%Y/%m/%d")`.
 */
module Calendar {
  import opened Wrappers
  import Text

  datatype Date = Date(year: int, month: int, day: int)

  const MinYear := 1
  const MaxYear := 9999

  predicate IsLeap(y: int) {
    y % 4 == 0 && (y % 100 != 0 || y % 400 == 0)
  }

  function DaysInMonth(y: int, m: int): int {
    if m == 2 then (if IsLeap(y) then 29 else 28)
    else if m == 4 || m == 6 || m == 9 || m == 11 then 30
    else 31
  }

  /** The dates Python's `date` type can represent. */
  predicate Valid(d: Date) {
    MinYear <= d.year <= MaxYear && 1 <= d.month <= 12 && 1 <= d.day <= DaysInMonth(d.year, d.month)
  }

  // ---------------------------------------------------------------------------
  // Day numbers: the independent description of the calendar

  function DaysBeforeYear(y: int): int
    requires y >= 1
  {
    var p := y - 1;
    365 * p + p / 4 - p / 100 + p / 400
  }

  function DaysBeforeMonth(y: int, m: int): int
    requires 1 <= m <= 12
  {
    if m == 1 then 0 else DaysBeforeMonth(y, m - 1) + DaysInMonth(y, m - 1)
  }

  /** Python's `date.toordinal()`: 0001-01-01 is day 1. */
  function Ordinal(d: Date): int
    requires Valid(d)
  {
    DaysBeforeYear(d.year) + DaysBeforeMonth(d.year, d.month) + d.day
  }

  /** Python's `date.weekday()`: Monday is 0 and Sunday is 6. */
  function Weekday(d: Date): (w: int)
    requires Valid(d)
    ensures 0 <= w < 7
  {
    (Ordinal(d) + 6) % 7
  }

  const DayNames: seq<string> := ["Monday", "Tuesday", "Wednesday", "Thursday", "Friday", "Saturday", "Sunday"]

  /**
   * `strftime("%A")` in the C locale. Day 1, 0001-01-01, was a Monday, so the k-th name of
   * `DayNames` (Monday first) belongs to the days whose ordinal leaves remainder k + 1 modulo 7.
   */
  function WeekdayName(d: Date): (name: string)
    requires Valid(d)
    ensures name in DayNames
    ensures forall k :: 0 <= k < 7 ==> (name == DayNames[k] <==> Ordinal(d) % 7 == (k + 1) % 7)
    ensures name == "Monday" <==> Ordinal(d) % 7 == 1
    ensures name == "Sunday" <==> Ordinal(d) % 7 == 0
  {
    var w := Weekday(d);
    assert forall k :: 0 <= k < 7 ==> (DayNames[w] == DayNames[k] <==> Ordinal(d) % 7 == (k + 1) % 7) by {
      DayNamesDistinct();
      forall k | 0 <= k < 7
        ensures DayNames[w] == DayNames[k] <==> Ordinal(d) % 7 == (k + 1) % 7
      {
        WeekdayRemainder(Ordinal(d), k);
      }
    }
    DayNames[w]
  }

  /** No two days share a name. */
  lemma DayNamesDistinct()
    ensures forall i, j :: 0 <= i < j < 7 ==> DayNames[i] != DayNames[j]
  {
    assert DayNames[1][1] != DayNames[3][1] && DayNames[5][1] != DayNames[6][1];
  }

  /** The weekday `(o + 6) % 7` is k exactly when the ordinal leaves remainder k + 1 modulo 7. */
  lemma WeekdayRemainder(o: int, k: int)
    requires 0 <= k < 7
    ensures (o + 6) % 7 == k <==> o % 7 == (k + 1) % 7
  {
    var q, r := o / 7, o % 7;
    assert o + 6 == 7 * q + (r + 6);
    if r == 0 {
      assert (o + 6) % 7 == 6;
    } else {
      assert o + 6 == 7 * (q + 1) + (r - 1);
      assert (o + 6) % 7 == r - 1;
    }
  }

  /** `strftime("%a")` in the C locale: the first three letters of the `%A` name. */
  function WeekdayAbbrev(d: Date): (abbrev: string)
    requires Valid(d)
    ensures |abbrev| == 3 && abbrev == WeekdayName(d)[..3]
  {
    DayNames[Weekday(d)][..3]
  }

  lemma DaysBeforeDecember(y: int)
    ensures DaysBeforeMonth(y, 12) == if IsLeap(y) then 335 else 334
  {
    var f := if IsLeap(y) then 1 else 0;
    assert DaysBeforeMonth(y, 2) == 31;
    assert DaysBeforeMonth(y, 3) == 59 + f;
    assert DaysBeforeMonth(y, 4) == 90 + f;
    assert DaysBeforeMonth(y, 5) == 120 + f;
    assert DaysBeforeMonth(y, 6) == 151 + f;
    assert DaysBeforeMonth(y, 7) == 181 + f;
    assert DaysBeforeMonth(y, 8) == 212 + f;
    assert DaysBeforeMonth(y, 9) == 243 + f;
    assert DaysBeforeMonth(y, 10) == 273 + f;
    assert DaysBeforeMonth(y, 11) == 304 + f;
  }

  /** A year has 365 days, plus one when it is a leap year. */
  lemma YearLength(y: int)
    requires y >= 1
    ensures DaysBeforeYear(y + 1) == DaysBeforeYear(y) + DaysBeforeMonth(y, 12) + 31
  {
    DaysBeforeDecember(y);
    LeapCount(y);
    var p := y - 1;
    assert DaysBeforeYear(y + 1) - DaysBeforeYear(y)
           == 365 + (y / 4 - p / 4) - (y / 100 - p / 100) + (y / 400 - p / 400);
  }

  /** The leap-day counts grow by one from year `y - 1` to year `y` exactly when `y` is a leap year. */
  lemma LeapCount(y: int)
    requires y >= 1
    ensures (y / 4 - (y - 1) / 4) - (y / 100 - (y - 1) / 100) + (y / 400 - (y - 1) / 400)
            == if IsLeap(y) then 1 else 0
  {
    CountStep4(y - 1);
    CountStep100(y - 1);
    CountStep400(y - 1);
    DivisorChain(y);
  }

  lemma DivisorChain(y: int)
    ensures y % 400 == 0 ==> y % 100 == 0
    ensures y % 100 == 0 ==> y % 4 == 0
  {
    if y % 400 == 0 {
      MultipleOf100(y / 400 * 4, y);
    }
    if y % 100 == 0 {
      MultipleOf4(y / 100 * 25, y);
    }
  }

  /** A multiple of 100, or of 4, leaves no remainder: the step `DivisorChain` needs. */
  lemma MultipleOf100(j: int, y: int)
    requires y == 100 * j
    ensures y % 100 == 0
  {
  }

  lemma MultipleOf4(j: int, y: int)
    requires y == 4 * j
    ensures y % 4 == 0
  {
  }

  // How the leap-day counts p / 4, p / 100 and p / 400 change from one year to the next.

  lemma CountStep4(p: int)
    requires p >= 0
    ensures (p + 1) / 4 - p / 4 == if (p + 1) % 4 == 0 then 1 else 0
  {
    var q, r := p / 4, p % 4;
    assert p == 4 * q + r;
    if r == 3 {
      assert p + 1 == 4 * (q + 1);
    } else {
      assert p + 1 == 4 * q + (r + 1);
    }
  }

  lemma CountStep100(p: int)
    requires p >= 0
    ensures (p + 1) / 100 - p / 100 == if (p + 1) % 100 == 0 then 1 else 0
  {
    var q, r := p / 100, p % 100;
    assert p == 100 * q + r;
    if r == 99 {
      assert p + 1 == 100 * (q + 1);
    } else {
      assert p + 1 == 100 * q + (r + 1);
    }
  }

  lemma CountStep400(p: int)
    requires p >= 0
    ensures (p + 1) / 400 - p / 400 == if (p + 1) % 400 == 0 then 1 else 0
  {
    var q, r := p / 400, p % 400;
    assert p == 400 * q + r;
    if r == 399 {
      assert p + 1 == 400 * (q + 1);
    } else {
      assert p + 1 == 400 * q + (r + 1);
    }
  }

  /** The day after `d`; None where Python raises OverflowError (after 9999-12-31). */
  function NextDay(d: Date): (r: Option<Date>)
    requires Valid(d)
    ensures r.None? <==> d == Date(MaxYear, 12, 31)
    ensures r.Some? ==> Valid(r.value) && Ordinal(r.value) == Ordinal(d) + 1
  {
    if d.day < DaysInMonth(d.year, d.month) then Some(Date(d.year, d.month, d.day + 1))
    else if d.month < 12 then Some(Date(d.year, d.month + 1, 1))
    else if d.year < MaxYear then YearLength(d.year); Some(Date(d.year + 1, 1, 1))
    else None
  }

  /** `d + timedelta(days=n)`; None where Python raises OverflowError. */
  function AddDays(d: Date, n: nat): (r: Option<Date>)
    requires Valid(d)
    ensures r.Some? ==> Valid(r.value) && Ordinal(r.value) == Ordinal(d) + n
    decreases n
  {
    if n == 0 then Some(d)
    else match NextDay(d)
      case None => None
      case Some(e) => AddDays(e, n - 1)
  }

  /** An anchor for the day numbering: 1 January 2024 was a Monday. */
  lemma NewYear2024IsMonday()
    ensures Ordinal(Date(2024, 1, 1)) == 738886
    ensures WeekdayName(Date(2024, 1, 1)) == "Monday" && WeekdayAbbrev(Date(2024, 1, 1)) == "Mon"
  {
  }

  /** The weekday advances by one, cyclically, from one day to the next. */
  lemma NextDayWeekday(d: Date)
    requires Valid(d) && NextDay(d).Some?
    ensures Weekday(NextDay(d).value) == (Weekday(d) + 1) % 7
  {
  }

  // ---------------------------------------------------------------------------
  // Printing

  function Pad2(n: int): string
    requires 0 <= n < 100
  {
    [Text.DigitChar(n / 10), Text.DigitChar(n % 10)]
  }

  function Pad4(n: int): string
    requires 0 <= n < 10000
  {
    Pad2(n / 100) + Pad2(n % 100)
  }

  /**
   * The printed form of a date: four year digits, `sep`, two month digits, `sep`, two day
   * digits. With '/' it is `strftime("%Y/%m/%d")`; with '-' it is `date.isoformat()`.
   */
  function Format(d: Date, sep: char): (s: string)
    requires Valid(d)
    ensures DateText(s, sep, d)
  {
    var s := Pad4(d.year) + [sep] + Pad2(d.month) + [sep] + Pad2(d.day);
    Pad4Numeral(d.year);
    Pad2Numeral(d.month);
    Pad2Numeral(d.day);
    assert s[..4] == Pad4(d.year) && s[5..7] == Pad2(d.month) && s[8..] == Pad2(d.day);
    s
  }

  // ---------------------------------------------------------------------------
  // Reading digits back: the independent description of the printed forms

  /** The value of a string of ASCII digits read in decimal. */
  function Decimal(t: string): nat
    requires forall i :: 0 <= i < |t| ==> IsDigit(t[i])
    decreases |t|
  {
    if t == [] then 0 else 10 * Decimal(t[..|t| - 1]) + DigitValue(t[|t| - 1])
  }

  /** `t` consists of ASCII digits and reads as `n`. */
  predicate Numeral(t: string, n: int) {
    (forall i :: 0 <= i < |t| ==> IsDigit(t[i])) && Decimal(t) == n
  }

  /** `t` is `YYYY`, `sep`, `MM`, `sep`, `DD`, the three fields reading as the date's year, month and day. */
  predicate DateText(t: string, sep: char, d: Date) {
    |t| == 10 && t[4] == sep && t[7] == sep
    && Numeral(t[..4], d.year) && Numeral(t[5..7], d.month) && Numeral(t[8..], d.day)
  }

  lemma DigitRoundTrip(k: int)
    requires 0 <= k < 10
    ensures IsDigit(Text.DigitChar(k)) && DigitValue(Text.DigitChar(k)) == k
  {
  }

  lemma Pad2Numeral(n: int)
    requires 0 <= n < 100
    ensures Numeral(Pad2(n), n)
  {
    var t := Pad2(n);
    DigitRoundTrip(n / 10);
    DigitRoundTrip(n % 10);
    assert t[..1][..0] == [] && t[..1] == [t[0]];
    assert Decimal(t[..1]) == DigitValue(t[0]);
  }

  lemma Pad4Numeral(n: int)
    requires 0 <= n < 10000
    ensures Numeral(Pad4(n), n)
  {
    var t := Pad4(n);
    Pad4Digits(n);
    assert t[..1][..0] == [] && t[..2][..1] == t[..1] && t[..3][..2] == t[..2] && t[..4][..3] == t[..3];
    assert t[..4] == t;
    assert Decimal(t[..1]) == DigitValue(t[0]);
    assert Decimal(t[..2]) == 10 * DigitValue(t[0]) + DigitValue(t[1]);
    assert Decimal(t[..3]) == 100 * DigitValue(t[0]) + 10 * DigitValue(t[1]) + DigitValue(t[2]);
  }

  // ---------------------------------------------------------------------------
  // Parsing: strptime(s, "%Y/%m/%d")

  predicate IsDigit(c: char) {
    '0' <= c <= '9'
  }

  function DigitValue(c: char): (v: int)
    requires IsDigit(c)
    ensures 0 <= v < 10
  {
    c as int - '0' as int
  }

  /** The directive `%m`, which accepts `1[0-2]`, `0[1-9]` or `[1-9]`. */
  function MonthToken(t: string): (r: Option<int>)
    ensures r.Some? ==> 1 <= r.value <= 12
  {
    if |t| == 1 && '1' <= t[0] <= '9' then Some(DigitValue(t[0]))
    else if |t| == 2 && t[0] == '0' && '1' <= t[1] <= '9' then Some(DigitValue(t[1]))
    else if |t| == 2 && t[0] == '1' && '0' <= t[1] <= '2' then Some(10 + DigitValue(t[1]))
    else None
  }

  /** The directive `%d`, which accepts `3[01]`, `[12][0-9]`, `0[1-9]`, `[1-9]` or a space and `[1-9]`. */
  function DayToken(t: string): (r: Option<int>)
    ensures r.Some? ==> 1 <= r.value <= 31
  {
    if |t| == 1 && '1' <= t[0] <= '9' then Some(DigitValue(t[0]))
    else if |t| == 2 && (t[0] == '0' || t[0] == ' ') && '1' <= t[1] <= '9' then Some(DigitValue(t[1]))
    else if |t| == 2 && '1' <= t[0] <= '2' && IsDigit(t[1]) then Some(10 * DigitValue(t[0]) + DigitValue(t[1]))
    else if |t| == 2 && t[0] == '3' && '0' <= t[1] <= '1' then Some(30 + DigitValue(t[1]))
    else None
  }

  /** Index of the first `c` in `s`. */
  function IndexOf(s: string, c: char): (r: Option<nat>)
    ensures r.Some? ==> r.value < |s| && s[r.value] == c && c !in s[..r.value]
    ensures r.None? ==> c !in s
  {
    if s == [] then None
    else if s[0] == c then Some(0)
    else match IndexOf(s[1..], c)
      case None => None
      case Some(i) => Some(i + 1)
  }

  /**
   * `datetime.strptime(s, "%Y/%m/%d")`: exactly four digits for the year, then `/`, a `%m`
   * token, `/` and a `%d` token with nothing after it. The year must not be 0 and the day must
   * exist in that month, or Python raises ValueError, modelled as None.
   */
  function Parse(s: string): (r: Option<Date>)
    ensures r.Some? ==> Valid(r.value)
  {
    if |s| < 5 || !(IsDigit(s[0]) && IsDigit(s[1]) && IsDigit(s[2]) && IsDigit(s[3])) || s[4] != '/' then None
    else
      var year := 1000 * DigitValue(s[0]) + 100 * DigitValue(s[1]) + 10 * DigitValue(s[2]) + DigitValue(s[3]);
      var rest := s[5..];
      match IndexOf(rest, '/')
      case None => None
      case Some(j) =>
        match (MonthToken(rest[..j]), DayToken(rest[j + 1..]))
        case (Some(m), Some(dd)) =>
          if year >= MinYear && dd <= DaysInMonth(year, m) then Some(Date(year, m, dd)) else None
        case _ => None
  }

  lemma Pad2Month(m: int)
    requires 1 <= m <= 12
    ensures MonthToken(Pad2(m)) == Some(m)
  {
  }

  lemma Pad2Day(d: int)
    requires 1 <= d <= 31
    ensures DayToken(Pad2(d)) == Some(d)
  {
  }

  lemma Pad2Digits(n: int)
    requires 0 <= n < 100
    ensures var t := Pad2(n);
      IsDigit(t[0]) && IsDigit(t[1]) && 10 * DigitValue(t[0]) + DigitValue(t[1]) == n
  {
    DigitRoundTrip(n / 10);
    DigitRoundTrip(n % 10);
  }

  lemma Pad4Digits(n: int)
    requires 0 <= n < 10000
    ensures var t := Pad4(n);
      IsDigit(t[0]) && IsDigit(t[1]) && IsDigit(t[2]) && IsDigit(t[3])
      && 1000 * DigitValue(t[0]) + 100 * DigitValue(t[1]) + 10 * DigitValue(t[2]) + DigitValue(t[3]) == n
  {
    var hi, lo := n / 100, n % 100;
    Pad2Digits(hi);
    Pad2Digits(lo);
    var t := Pad4(n);
    assert t[0] == Pad2(hi)[0] && t[1] == Pad2(hi)[1] && t[2] == Pad2(lo)[0] && t[3] == Pad2(lo)[1];
    assert n == 100 * hi + lo;
  }

  lemma SlashAfterPad2(a: int, b: int)
    requires 0 <= a < 100 && 0 <= b < 100
    ensures IndexOf(Pad2(a) + "/" + Pad2(b), '/') == Some(2)
  {
    var t := Pad2(a) + "/" + Pad2(b);
    assert t[0] != '/' && t[1] != '/' && t[2] == '/';
    assert t[1..][1..] == t[2..];
  }

  /** Reading back a printed date gives the same date: `strptime(strftime(d))` never raises. */
  lemma ParseFormat(d: Date)
    requires Valid(d)
    ensures Parse(Format(d, '/')) == Some(d)
  {
    var s := Format(d, '/');
    var rest := Pad2(d.month) + "/" + Pad2(d.day);
    assert s == Pad4(d.year) + "/" + rest;
    assert s[5..] == rest;
    Pad4Digits(d.year);
    SlashAfterPad2(d.month, d.day);
    assert rest[..2] == Pad2(d.month) && rest[3..] == Pad2(d.day);
    Pad2Month(d.month);
    Pad2Day(d.day);
  }
}
