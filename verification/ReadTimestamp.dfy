/** Reading a stored time back, as RFC 3339, section 5.6, defines its fields: four digits of the
    year, two each of month, day, hour, minute and second, a fraction of up to nine digits, and
    "Z". The calendar is written out in numbers here, apart from the one that prints. */
module ReadTimestamp {
  import opened Timestamps

  predicate Digits(s: string) { forall k :: 0 <= k < |s| ==> '0' <= s[k] <= '9' }

  /** The number that a string of digits stands for. */
  function Value(s: string): (n: nat)
    requires Digits(s)
  {
    if s == [] then 0 else 10 * Value(s[..|s| - 1]) + (s[|s| - 1] as int - '0' as int)
  }

  const DAYS_BEFORE_MONTH: seq<nat> := [0, 31, 59, 90, 120, 151, 181, 212, 243, 273, 304, 334]
  const MONTH_DAYS: seq<nat> := [31, 28, 31, 30, 31, 30, 31, 31, 30, 31, 30, 31]

  /** Every fourth year, but of the full centuries only every fourth. */
  predicate HasLeapDay(year: nat) { if year % 100 == 0 then year % 400 == 0 else year % 4 == 0 }

  predicate IsDate(year: nat, month: nat, day: nat) {
    1 <= month <= 12 && 1 <= day <= MONTH_DAYS[month - 1] + if month == 2 && HasLeapDay(year) then 1 else 0
  }

  /** Days from 0000-01-01 to a date. */
  function DayNumber(year: nat, month: nat, day: nat): (n: int)
    requires 1 <= month <= 12
  {
    365 * year + (year + 3) / 4 - (year + 99) / 100 + (year + 399) / 400 +
    DAYS_BEFORE_MONTH[month - 1] + (if month > 2 && HasLeapDay(year) then 1 else 0) + day - 1
  }

  // ---------- the date ----------

  lemma {:induction false} MonthsInClosedForm(leap: bool, month: nat)
    requires 1 <= month <= 12
    ensures DaysBeforeMonth(leap, month) == DAYS_BEFORE_MONTH[month - 1] + if month > 2 && leap then 1 else 0
    ensures MonthDays(leap, month) == MONTH_DAYS[month - 1] + if month == 2 && leap then 1 else 0
  {
    if month > 1 { MonthsInClosedForm(leap, month - 1); }
  }

  /** What the calendar search finds. */
  lemma {:induction false} DateFound(n: nat)
    ensures var d := DateOf(n); var leap := IsLeap(d.year);
            && 1 <= d.month <= 12 && d.day >= 1 && n == DaysBeforeYear(d.year) + DaysBeforeMonth(leap, d.month) + d.day - 1
            && DaysBeforeMonth(leap, d.month) + d.day - 1 < DaysBeforeMonth(leap, d.month + 1)
  {
    DateInRange(n);
  }

  lemma {:induction false} MonthIsOver(leap: bool, month: nat)
    requires month >= 1
    ensures DaysBeforeMonth(leap, month + 1) == DaysBeforeMonth(leap, month) + MonthDays(leap, month)
  {}

  lemma {:induction false} SameLeapYears(year: nat)
    ensures IsLeap(year) <==> HasLeapDay(year)
  {
    var century := year / 100;
    if year % 100 == 0 { FourDivides(year, 25 * century); }
  }

  lemma {:induction false} FourDivides(n: nat, quarter: nat)
    requires n == 4 * quarter
    ensures n % 4 == 0
  {}

  lemma {:induction false} DateReads(n: nat)
    ensures var d := DateOf(n); IsDate(d.year, d.month, d.day) && DayNumber(d.year, d.month, d.day) == n
  {
    hide DateOf, IsLeap, HasLeapDay, DaysBeforeYear, DaysBeforeMonth, MonthDays;
    var d := DateOf(n);
    DateFound(n);
    DaysInClosedForm(d.year);
    SameLeapYears(d.year);
    MonthsInClosedForm(IsLeap(d.year), d.month);
    MonthIsOver(IsLeap(d.year), d.month);
  }

  // ---------- the digits ----------

  lemma {:induction false} ValueOfPad(n: nat, width: nat)
    requires n < Pow10(width)
    ensures Value(Pad(n, width)) == n
  {
    if width > 0 {
      ValueOfPad(n / 10, width - 1);
      var p := Pad(n, width);
      assert p[..|p| - 1] == Pad(n / 10, width - 1) && p[|p| - 1] == Digit(n % 10);
    }
  }

  lemma {:induction false} TenTimes(v: nat, p: nat, q: nat)
    requires q == 10 * p
    ensures v * q == 10 * (v * p)
  {}

  /** Zeros behind a fraction scale it. */
  lemma {:induction false} ValueOfTrimmed(s: string, n: nat)
    requires Digits(s) && n <= |s| && forall k :: n <= k < |s| ==> s[k] == '0'
    ensures Value(s) == Value(s[..n]) * Pow10(|s| - n)
    decreases |s|
  {
    if n < |s| {
      var t := s[..|s| - 1];
      ValueOfTrimmed(t, n);
      assert t[..n] == s[..n] && Value(s) == 10 * Value(t);
      TenTimes(Value(s[..n]), Pow10(|t| - n), Pow10(|s| - n));
    } else {
      assert s[..n] == s;
    }
  }

  // ---------- the fields ----------

  lemma {:induction false} Join3Parts(sep: char, a: string, b: string, c: string)
    ensures var s := Join3(sep, a, b, c); var i, j := |a|, |a| + 1 + |b|;
            s[..i] == a && s[i] == sep && s[i + 1..j] == b && s[j] == sep && s[j + 1..] == c
  {
    var tail := b + ([sep] + c);
    var s := Join3(sep, a, b, c);
    assert s == a + ([sep] + tail) && s[|a| + 1..] == tail;
    assert s[|a| + 1..|a| + 1 + |b|] == tail[..|b|] == b;
    assert s[|a| + 1 + |b|] == tail[|b|] == sep && s[|a| + 2 + |b|..] == tail[|b| + 1..] == c;
  }

  /** The text of a day is its date. */
  lemma {:induction false} DateTextReads(day: nat)
    requires Printable(day)
    ensures var s := DateText(day);
            && s[4] == '-' && s[7] == '-' && Digits(s[..4]) && Digits(s[5..7]) && Digits(s[8..])
            && IsDate(Value(s[..4]), Value(s[5..7]), Value(s[8..])) && DayNumber(Value(s[..4]), Value(s[5..7]), Value(s[8..])) == day
  {
    hide DateOf, IsDate, DayNumber;
    var d := DateOf(day);
    DateInRange(day);
    FourDigitYears(day);
    Powers();
    DateReads(day);
    Join3Parts('-', Pad(d.year, 4), Pad(d.month, 2), Pad(d.day, 2));
    ValueOfPad(d.year, 4);
    ValueOfPad(d.month, 2);
    ValueOfPad(d.day, 2);
  }

  /** The text of a second of the day is its time. */
  lemma {:induction false} ClockTextReads(n: nat)
    requires n < SECONDS_PER_DAY
    ensures var s := ClockText(n);
            && s[2] == ':' && s[5] == ':' && Digits(s[..2]) && Digits(s[3..5]) && Digits(s[6..])
            && Value(s[..2]) < 24 && Value(s[3..5]) < 60 && Value(s[6..]) < 60
            && 3600 * Value(s[..2]) + 60 * Value(s[3..5]) + Value(s[6..]) == n
  {
    Powers();
    var h, m, s := n / 3600, n / 60 % 60, n % 60;
    ClockFields(n, h, m, s);
    Join3Parts(':', Pad(h, 2), Pad(m, 2), Pad(s, 2));
    ValueOfPad(h, 2);
    ValueOfPad(m, 2);
    ValueOfPad(s, 2);
  }

  /** The text behind the seconds: nothing, or a point and up to nine digits that do not end in
      zero, and then "Z". */
  lemma {:induction false} FractionTextReads(nanos: nat)
    requires nanos < NANOS_PER_SECOND
    ensures var s := FractionText(nanos); var n := |s| - 1;
            && n >= 0 && s[n] == 'Z'
            && if nanos == 0 then n == 0
               else 2 <= n <= 10 && s[0] == '.' && s[n - 1] != '0' && Digits(s[1..n]) && Value(s[1..n]) * Pow10(10 - n) == nanos
  {
    Powers();
    var p, f := Pad(nanos, 9), Fraction(nanos);
    FractionEmpty(nanos);
    ValueOfPad(nanos, 9);
    ValueOfTrimmed(p, |f|);
    var s := FractionText(nanos);
    if nanos != 0 { assert s == "." + (f + "Z") && s[1..|s| - 1] == f; }
  }

  /** A stored time reads back as the instant: its fields are a date of the calendar, a time of
      the day and a fraction, and together they number the nanoseconds since year 0. */
  lemma {:induction false} FormatReadsBack(t: nat)
    requires InRange(t)
    ensures var s := Format(t); var n := |s| - 1;
            && n >= 19 && s[4] == '-' && s[7] == '-' && s[10] == 'T' && s[13] == ':' && s[16] == ':' && s[n] == 'Z'
            && Digits(s[..4]) && Digits(s[5..7]) && Digits(s[8..10]) && Digits(s[11..13]) && Digits(s[14..16]) && Digits(s[17..19])
            && IsDate(Value(s[..4]), Value(s[5..7]), Value(s[8..10]))
            && Value(s[11..13]) < 24 && Value(s[14..16]) < 60 && Value(s[17..19]) < 60
            && var second := 86_400 * DayNumber(Value(s[..4]), Value(s[5..7]), Value(s[8..10])) + 3600 * Value(s[11..13]) + 60 * Value(s[14..16]) + Value(s[17..19]);
               if n == 19 then t == 1_000_000_000 * second
               else n <= 29 && s[19] == '.' && s[n - 1] != '0' && Digits(s[20..n]) && t == 1_000_000_000 * second + Value(s[20..n]) * Pow10(29 - n)
  {
    hide DateText, ClockText, FractionText, Value, Digits, IsDate, DayNumber;
    var second, nanos := WholeSecond(t), Nanos(t);
    var day, clock := second / SECONDS_PER_DAY, second % SECONDS_PER_DAY;
    var d, c, f := DateText(day), ClockText(clock), FractionText(nanos);
    DateTextReads(day);
    ClockTextReads(clock);
    FractionTextReads(nanos);
    FieldsOf(d, c, f);
    assert Format(t) == d + (['T'] + c) + f;
  }

  /** Where the fields stand. */
  lemma {:induction false} FieldsOf(d: string, c: string, f: string)
    requires |d| == 10 && |c| == 8 && |f| >= 1
    ensures var s := d + (['T'] + c) + f; var n := |s| - 1;
            && |s| == 19 + |f| && s[..4] == d[..4] && s[4] == d[4] && s[5..7] == d[5..7] && s[7] == d[7] && s[8..10] == d[8..]
            && s[10] == 'T' && s[11..13] == c[..2] && s[13] == c[2] && s[14..16] == c[3..5] && s[16] == c[5] && s[17..19] == c[6..]
            && s[n] == f[|f| - 1] && s[19] == f[0] && (|f| >= 2 ==> s[n - 1] == f[|f| - 2] && s[20..n] == f[1..|f| - 1])
  {}
}
