/** Gregorian dates in the range of Python's `date` (years 1 to 9999), the
    `DD-MM-YYYY` text form the remote API expects, and the choice of the
    booking date (`get_booking_date` in main.py). */
module Calendar {
  import opened Outcomes
  import opened Text

  datatype Date = Date(year: int, month: int, day: int)

  const MinYear: int := 1
  const MaxYear: int := 9999

  predicate IsLeapYear(y: int) {
    y % 4 == 0 && (y % 100 != 0 || y % 400 == 0)
  }

  function DaysInMonth(y: int, m: int): int
    requires 1 <= m <= 12
  {
    if m == 2 then (if IsLeapYear(y) then 29 else 28)
    else if m == 4 || m == 6 || m == 9 || m == 11 then 30
    else 31
  }

  function DaysInYear(y: int): int {
    if IsLeapYear(y) then 366 else 365
  }

  predicate IsValidDate(d: Date) {
    MinYear <= d.year <= MaxYear && 1 <= d.month <= 12 && 1 <= d.day <= DaysInMonth(d.year, d.month)
  }

  /** A date a Python `date` can hold. */
  type CalendarDate = d: Date | IsValidDate(d) witness Date(1, 1, 1)

  /** The last representable date; the day after it overflows. */
  const LastDate: CalendarDate := Date(MaxYear, 12, 31)

  /** Days in the years before `y`, counted from year 1. */
  function DaysBeforeYear(y: int): nat
    requires y >= MinYear
    decreases y
  {
    if y == MinYear then 0 else DaysBeforeYear(y - 1) + DaysInYear(y - 1)
  }

  /** Days in the months of year `y` before month `m`. */
  function DaysBeforeMonth(y: int, m: int): nat
    requires 1 <= m <= 12
  {
    var common := [0, 31, 59, 90, 120, 151, 181, 212, 243, 273, 304, 334][m - 1];
    if m > 2 && IsLeapYear(y) then common + 1 else common
  }

  /** The day number of `d`, 1 for 0001-01-01 (the proleptic Gregorian
      ordinal of Python's `date.toordinal`). */
  function Ordinal(d: CalendarDate): nat {
    DaysBeforeYear(d.year) + DaysBeforeMonth(d.year, d.month) + d.day
  }

  /** `d + timedelta(days=1)`: the next calendar day, or `None` where Python
      raises `OverflowError`. */
  function NextDay(d: CalendarDate): (r: Option<CalendarDate>)
    ensures r.None? <==> d == LastDate
    ensures r.Some? ==> Ordinal(r.value) == Ordinal(d) + 1
  {
    if d.day < DaysInMonth(d.year, d.month) then
      Some(Date(d.year, d.month, d.day + 1))
    else if d.month < 12 then
      Some(Date(d.year, d.month + 1, 1))
    else if d.year < MaxYear then
      Some(Date(d.year + 1, 1, 1))
    else
      None
  }

  /** Days are numbered without gaps or repeats: distinct dates have distinct
      ordinals, so `NextDay` names the one day whose ordinal is one more. */
  lemma {:induction false} OrdinalIsInjective(a: CalendarDate, b: CalendarDate)
    requires Ordinal(a) == Ordinal(b)
    ensures a == b
  {
    if a.year < b.year {
      DaysBeforeYearGrows(a.year, b.year);
      assert false;
    } else if b.year < a.year {
      DaysBeforeYearGrows(b.year, a.year);
      assert false;
    } else if a.month != b.month {
      assert false;
    }
  }

  /** Every day of year `y` has an ordinal below the first day of any later year. */
  lemma {:induction false} DaysBeforeYearGrows(y: int, z: int)
    requires MinYear <= y < z
    ensures DaysBeforeYear(y) + DaysInYear(y) <= DaysBeforeYear(z)
    decreases z - y
  {
    if y + 1 < z {
      DaysBeforeYearGrows(y + 1, z);
    }
  }

  /** Two-digit zero-padded decimal, as `%d` and `%m` write. */
  function Pad2(n: int): string
    requires 0 <= n <= 99
  {
    [DigitChar(n / 10), DigitChar(n % 10)]
  }

  /** Four-digit zero-padded decimal, as `%Y` writes. */
  function Pad4(n: int): string
    requires 0 <= n <= 9999
  {
    [DigitChar(n / 1000), DigitChar(n / 100 % 10), DigitChar(n / 10 % 10), DigitChar(n % 10)]
  }

  /** `strftime("%d-%m-%Y")`. */
  function Format(d: CalendarDate): (s: string)
    ensures |s| == 10 && s[2] == '-' && s[5] == '-'
    ensures forall i :: 0 <= i < 10 && i != 2 && i != 5 ==> IsDigit(s[i])
  {
    Pad2(d.day) + "-" + Pad2(d.month) + "-" + Pad4(d.year)
  }

  /** The decimal value of the digits s[lo .. hi]. */
  function DigitsValue(s: string, lo: nat, hi: nat): nat
    requires lo <= hi <= |s|
    requires forall i :: lo <= i < hi ==> IsDigit(s[i])
    decreases hi - lo
  {
    if lo == hi then 0 else DigitsValue(s, lo, hi - 1) * 10 + DigitValue(s[hi - 1])
  }

  /** A well-formed `DD-MM-YYYY` text: digits with dashes at positions 2 and 5. */
  predicate IsDateText(s: string) {
    |s| == 10 && s[2] == '-' && s[5] == '-' &&
    forall i :: 0 <= i < 10 && i != 2 && i != 5 ==> IsDigit(s[i])
  }

  /** Reads a `DD-MM-YYYY` text back into a date; `None` when the text is
      not of that form or names no calendar date. */
  function Parse(s: string): Option<CalendarDate> {
    if !IsDateText(s) then None
    else
      var d := Date(DigitsValue(s, 6, 10), DigitsValue(s, 3, 5), DigitsValue(s, 0, 2));
      if IsValidDate(d) then Some(d) else None
  }

  /** `Pad2` writes `n` in two digits. */
  lemma Pad2Value(n: int)
    requires 0 <= n <= 99
    ensures forall i :: 0 <= i < 2 ==> IsDigit(Pad2(n)[i])
    ensures DigitsValue(Pad2(n), 0, 2) == n
  {
    var s := Pad2(n);
    assert DigitsValue(s, 0, 1) == n / 10;
  }

  /** `Pad4` writes `n` in four digits. */
  lemma Pad4Value(n: int)
    requires 0 <= n <= 9999
    ensures forall i :: 0 <= i < 4 ==> IsDigit(Pad4(n)[i])
    ensures DigitsValue(Pad4(n), 0, 4) == n
  {
    var s := Pad4(n);
    var q1, e := n / 10, n % 10;
    var q2, c := q1 / 10, q1 % 10;
    var a, b := q2 / 10, q2 % 10;
    DivisionOf(n, 100, q2, c * 10 + e);
    DivisionOf(n, 1000, a, b * 100 + c * 10 + e);
    assert DigitsValue(s, 0, 1) == a;
    assert DigitsValue(s, 0, 2) == q2;
    assert DigitsValue(s, 0, 3) == q1;
  }

  /** Two digits read by `DigitsValue` and written back by `Pad2` are unchanged. */
  lemma Pad2OfDigits(s: string, lo: nat)
    requires lo + 2 <= |s| && IsDigit(s[lo]) && IsDigit(s[lo + 1])
    ensures DigitsValue(s, lo, lo + 2) <= 99
    ensures Pad2(DigitsValue(s, lo, lo + 2)) == s[lo..lo + 2]
  {
    var a, b := DigitValue(s[lo]), DigitValue(s[lo + 1]);
    assert DigitsValue(s, lo, lo + 1) == a;
    assert DigitsValue(s, lo, lo + 2) == a * 10 + b;
    DigitCharOfValue(s[lo]);
    DigitCharOfValue(s[lo + 1]);
  }

  /** Quotient and remainder by a power of ten are determined by the
      division equation. */
  lemma DivisionOf(n: int, d: int, q: int, r: int)
    requires d == 10 || d == 100 || d == 1000
    requires 0 <= r < d && n == q * d + r
    ensures n / d == q && n % d == r
  {
    if d == 10 {
      assert n == q * 10 + r;
    } else if d == 100 {
      assert n == q * 100 + r;
    } else {
      assert n == q * 1000 + r;
    }
  }

  /** Four digits read by `DigitsValue` and written back by `Pad4` are unchanged. */
  lemma Pad4OfDigits(s: string, lo: nat)
    requires lo + 4 <= |s| && forall i :: lo <= i < lo + 4 ==> IsDigit(s[i])
    ensures DigitsValue(s, lo, lo + 4) <= 9999
    ensures Pad4(DigitsValue(s, lo, lo + 4)) == s[lo..lo + 4]
  {
    var a, b, c, e := DigitValue(s[lo]), DigitValue(s[lo + 1]), DigitValue(s[lo + 2]), DigitValue(s[lo + 3]);
    var n := DigitsValue(s, lo, lo + 4);
    assert DigitsValue(s, lo, lo + 1) == a;
    assert DigitsValue(s, lo, lo + 2) == a * 10 + b;
    assert DigitsValue(s, lo, lo + 3) == a * 100 + b * 10 + c;
    assert n == a * 1000 + b * 100 + c * 10 + e;
    DivisionOf(n, 1000, a, b * 100 + c * 10 + e);
    DivisionOf(n, 100, a * 10 + b, c * 10 + e);
    DivisionOf(a * 10 + b, 10, a, b);
    DivisionOf(n, 10, a * 100 + b * 10 + c, e);
    DivisionOf(a * 100 + b * 10 + c, 10, a * 10 + b, c);
    DigitCharOfValue(s[lo]);
    DigitCharOfValue(s[lo + 1]);
    DigitCharOfValue(s[lo + 2]);
    DigitCharOfValue(s[lo + 3]);
  }

  /** `DigitsValue` reads only the characters between its bounds. */
  lemma {:induction false} DigitsValueLocal(s: string, t: string, lo: nat, hi: nat, shift: nat)
    requires lo <= hi <= |s| && shift + hi <= |t|
    requires forall i :: lo <= i < hi ==> IsDigit(s[i]) && t[shift + i] == s[i]
    ensures forall i :: shift + lo <= i < shift + hi ==> IsDigit(t[i])
    ensures DigitsValue(t, shift + lo, shift + hi) == DigitsValue(s, lo, hi)
    decreases hi - lo
  {
    assert forall i :: shift + lo <= i < shift + hi ==> IsDigit(t[i]) by {
      forall i | shift + lo <= i < shift + hi ensures IsDigit(t[i]) {
        assert t[shift + (i - shift)] == s[i - shift];
      }
    }
    if lo < hi {
      DigitsValueLocal(s, t, lo, hi - 1, shift);
    }
  }

  /** Formatting then reading gives back the date. */
  lemma ParseFormat(d: CalendarDate)
    ensures Parse(Format(d)) == Some(d)
  {
    var s := Format(d);
    var dd, mm, yy := Pad2(d.day), Pad2(d.month), Pad4(d.year);
    assert s == dd + "-" + mm + "-" + yy;
    Pad2Value(d.day);
    Pad2Value(d.month);
    Pad4Value(d.year);
    assert s[0] == dd[0] && s[1] == dd[1] && s[3] == mm[0] && s[4] == mm[1];
    assert s[6] == yy[0] && s[7] == yy[1] && s[8] == yy[2] && s[9] == yy[3];
    DigitsValueLocal(dd, s, 0, 2, 0);
    DigitsValueLocal(mm, s, 0, 2, 3);
    DigitsValueLocal(yy, s, 0, 4, 6);
  }

  /** Reading then formatting gives back the text: every well-formed text
      that names a date is that date's only text. */
  lemma FormatParse(s: string)
    requires Parse(s).Some?
    ensures Format(Parse(s).value) == s
  {
    var d := Parse(s).value;
    Pad2OfDigits(s, 0);
    Pad2OfDigits(s, 3);
    Pad4OfDigits(s, 6);
    assert s == s[0..2] + "-" + s[3..5] + "-" + s[6..10];
  }

  /** How the booking date is configured. */
  datatype DateSetting =
    | NotConfigured          // no date, or a value Python treats as false
    | TomorrowLiteral        // the string "tomorrow"
    | OnDate(date: CalendarDate)
    | Unrecognised           // any other value: the `isinstance` assertion fails

  /** After this local hour, the default booking date is tomorrow. */
  const LastSameDayHour: int := 8

  /** `get_booking_date`, with today's date and the local hour given. */
  function BookingDate(setting: DateSetting, today: CalendarDate, hour: int): (r: Attempt<string>)
    ensures r.Ok? ==> Parse(r.value).Some? && IsDateText(r.value)
    ensures r.Raise? ==> r.error == DateOverflow || r.error == BadDateSetting
    ensures setting.Unrecognised? <==> r == Raise(BadDateSetting)
    ensures setting.OnDate? ==> r.Ok? && Parse(r.value) == Some(setting.date)
    ensures setting.TomorrowLiteral? || (setting.NotConfigured? && hour > LastSameDayHour) ==>
              (r.Ok? <==> today != LastDate) &&
              (r.Ok? ==> Ordinal(Parse(r.value).value) == Ordinal(today) + 1)
    ensures setting.NotConfigured? && hour <= LastSameDayHour ==> r.Ok? && Parse(r.value) == Some(today)
  {
    match setting
    case TomorrowLiteral => Tomorrow(today)
    case OnDate(d) =>
      ParseFormat(d);
      Ok(Format(d))
    case Unrecognised => Raise(BadDateSetting)
    case NotConfigured =>
      if hour > LastSameDayHour then
        Tomorrow(today)
      else
        ParseFormat(today);
        Ok(Format(today))
  }

  /** `date.today() + timedelta(days=1)`, formatted. */
  function Tomorrow(today: CalendarDate): (r: Attempt<string>)
    ensures r.Ok? <==> today != LastDate
    ensures r.Raise? ==> r.error == DateOverflow
    ensures r.Ok? ==> Parse(r.value).Some? && Ordinal(Parse(r.value).value) == Ordinal(today) + 1
  {
    match NextDay(today)
    case None => Raise(DateOverflow)
    case Some(next) =>
      ParseFormat(next);
      Ok(Format(next))
  }
}
