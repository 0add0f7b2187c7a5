/** The text timestamps of the store. Every time column holds a UTC instant printed with
    time.RFC3339Nano, and SQLite compares those columns byte by byte. RFC 3339, section 5.1,
    allows that only if all fractions have the same number of digits; RFC3339Nano trims
    trailing zeros, so byte order and time order differ within one second.

    An instant is a number of nanoseconds since 0000-01-01T00:00:00Z. */
module Timestamps {

  const NANOS_PER_SECOND: int := 1_000_000_000
  const SECONDS_PER_DAY: int := 86_400
  const DAYS_OF_FOUR_DIGIT_YEARS: int := 3_652_425

  // ---------- the proleptic Gregorian calendar ----------

  predicate IsLeap(year: nat) {
    year % 4 == 0 && (year % 100 != 0 || year % 400 == 0)
  }

  function YearDays(year: nat): (days: nat) {
    if IsLeap(year) then 366 else 365
  }

  function DaysBeforeYear(year: nat): (days: nat) {
    if year == 0 then 0 else DaysBeforeYear(year - 1) + YearDays(year - 1)
  }

  /** The year that contains a day, searched upwards from `year`. */
  function YearOfDay(day: nat, year: nat): (result: nat)
    requires DaysBeforeYear(year) <= day
    ensures DaysBeforeYear(result) <= day < DaysBeforeYear(result + 1)
    decreases day - DaysBeforeYear(year)
  {
    if day < DaysBeforeYear(year + 1) then year else YearOfDay(day, year + 1)
  }

  function MonthDays(leap: bool, month: nat): (days: nat) {
    if month == 2 then (if leap then 29 else 28)
    else if month in {4, 6, 9, 11} then 30
    else 31
  }

  function DaysBeforeMonth(leap: bool, month: nat): (days: nat) {
    if month <= 1 then 0 else DaysBeforeMonth(leap, month - 1) + MonthDays(leap, month - 1)
  }

  function MonthOfDay(leap: bool, dayOfYear: nat, month: nat): (result: nat)
    requires 1 <= month && DaysBeforeMonth(leap, month) <= dayOfYear
    ensures 1 <= result
    ensures DaysBeforeMonth(leap, result) <= dayOfYear < DaysBeforeMonth(leap, result + 1)
    decreases dayOfYear - DaysBeforeMonth(leap, month)
  {
    if dayOfYear < DaysBeforeMonth(leap, month + 1) then month else MonthOfDay(leap, dayOfYear, month + 1)
  }

  datatype Date = Date(year: nat, month: nat, day: nat)

  function DateOf(day: nat): (date: Date) {
    var year := YearOfDay(day, 0);
    var dayOfYear := day - DaysBeforeYear(year);
    var month := MonthOfDay(IsLeap(year), dayOfYear, 1);
    Date(year, month, dayOfYear - DaysBeforeMonth(IsLeap(year), month) + 1)
  }

  predicate DateLess(a: Date, b: Date) {
    a.year < b.year || (a.year == b.year && (a.month < b.month || (a.month == b.month && a.day < b.day)))
  }

  lemma {:induction false} DaysBeforeYearMonotone(a: nat, b: nat)
    requires a <= b
    ensures DaysBeforeYear(a) <= DaysBeforeYear(b)
    decreases b
  {
    if a < b { DaysBeforeYearMonotone(a, b - 1); }
  }

  lemma {:induction false} DaysBeforeMonthMonotone(leap: bool, a: nat, b: nat)
    requires a <= b
    ensures DaysBeforeMonth(leap, a) <= DaysBeforeMonth(leap, b)
    decreases b
  {
    if a < b { DaysBeforeMonthMonotone(leap, a, b - 1); }
  }

  /** Two-digit fields suffice for month and day. */
  lemma {:induction false} DateInRange(day: nat)
    ensures var d := DateOf(day); 1 <= d.month <= 12 && 1 <= d.day <= 31
  {
    var d := DateOf(day);
    var leap := IsLeap(d.year);
    DaysOfYear(leap);
    assert day - DaysBeforeYear(d.year) < YearDays(d.year);
    if d.month > 12 { DaysBeforeMonthMonotone(leap, 13, d.month); }
  }

  lemma {:induction false} DaysOfYear(leap: bool)
    ensures DaysBeforeMonth(leap, 13) == if leap then 366 else 365
  {
    var d: nat, m: nat := 0, 1;
    while m < 13
      invariant 1 <= m <= 13 && d == DaysBeforeMonth(leap, m)
      invariant d == 31 * (m - 1) - (if m > 2 then (if leap then 2 else 3) else 0)
                  - (if m > 4 then 1 else 0) - (if m > 6 then 1 else 0) - (if m > 9 then 1 else 0) - (if m > 11 then 1 else 0)
    {
      d, m := d + MonthDays(leap, m), m + 1;
    }
  }

  /** A later day has a later calendar date. */
  lemma {:induction false} DateOrder(a: nat, b: nat)
    requires a < b
    ensures DateLess(DateOf(a), DateOf(b))
  {
    var da, db := DateOf(a), DateOf(b);
    if db.year < da.year { DaysBeforeYearMonotone(db.year + 1, da.year); }
    if da.year == db.year && db.month < da.month {
      DaysBeforeMonthMonotone(IsLeap(da.year), db.month + 1, da.month);
    }
  }

  /** A day of the years 0000 to 9999. */
  predicate Printable(day: nat) {
    day < DAYS_OF_FOUR_DIGIT_YEARS
  }

  lemma {:induction false} DaysInClosedForm(year: nat)
    ensures DaysBeforeYear(year) == 365 * year + (year + 3) / 4 - (year + 99) / 100 + (year + 399) / 400
  {
    if year > 0 {
      DaysInClosedForm(year - 1);
      LeapDays(year - 1);
    }
  }

  /** Year 0 is a leap year, so the leap days before a year round up. */
  lemma {:induction false} LeapDays(year: nat)
    ensures (year + 4) / 4 - (year + 100) / 100 + (year + 400) / 400 ==
            (year + 3) / 4 - (year + 99) / 100 + (year + 399) / 400 + if IsLeap(year) then 1 else 0
  {
    assert (year + 4) / 4 == (year + 3) / 4 + if year % 4 == 0 then 1 else 0;
    assert (year + 100) / 100 == (year + 99) / 100 + if year % 100 == 0 then 1 else 0;
    assert (year + 400) / 400 == (year + 399) / 400 + if year % 400 == 0 then 1 else 0;
  }

  lemma {:induction false} YearsBefore(day: nat, year: nat, end: nat)
    requires DaysBeforeYear(year) <= day < DaysBeforeYear(year + 1)
    ensures year < end <==> day < DaysBeforeYear(end)
  {
    if year < end { DaysBeforeYearMonotone(year + 1, end); } else { DaysBeforeYearMonotone(end, year); }
  }

  lemma {:induction false} TenMillennia(end: nat, days: int)
    requires end == 10_000 && days == 365 * end + (end + 3) / 4 - (end + 99) / 100 + (end + 399) / 400
    ensures days == DAYS_OF_FOUR_DIGIT_YEARS
  {}

  lemma {:induction false} YearOf(day: nat)
    ensures var year := DateOf(day).year; DaysBeforeYear(year) <= day < DaysBeforeYear(year + 1)
  {}

  lemma {:induction false} FourDigitYears(day: nat)
    ensures Printable(day) <==> DateOf(day).year <= 9999
  {
    YearOf(day);
    PrintableYear(day, DateOf(day).year, 10_000);
  }

  lemma {:induction false} PrintableYear(day: nat, year: nat, end: nat)
    requires DaysBeforeYear(year) <= day < DaysBeforeYear(year + 1) && end == 10_000
    ensures Printable(day) <==> year < end
  {
    var days := DaysBeforeYear(end);
    DaysInClosedForm(end);
    TenMillennia(end, days);
    YearsBefore(day, year, end);
  }

  // ---------- byte order ----------

  /** SQLite's BINARY collation on the ASCII text the columns hold. */
  predicate LexLess(a: string, b: string) {
    if a == [] then b != []
    else b != [] && (a[0] < b[0] || (a[0] == b[0] && LexLess(a[1..], b[1..])))
  }

  lemma {:induction false} LexConcat(a: string, b: string, x: string, y: string)
    requires |a| == |b|
    ensures LexLess(a + x, b + y) <==> LexLess(a, b) || (a == b && LexLess(x, y))
  {
    if a == [] {
      assert a + x == x && b + y == y;
    } else {
      assert (a + x)[1..] == a[1..] + x && (b + y)[1..] == b[1..] + y;
      LexConcat(a[1..], b[1..], x, y);
      assert a == [a[0]] + a[1..] && b == [b[0]] + b[1..];
    }
  }

  lemma {:induction false} LexIrreflexive(a: string)
    ensures !LexLess(a, a)
  {
    if a != [] { LexIrreflexive(a[1..]); }
  }

  // ---------- printing ----------

  function Pow10(n: nat): (p: nat)
    ensures p >= 1
  {
    if n == 0 then 1 else 10 * Pow10(n - 1)
  }

  function Digit(n: nat): (c: char)
    requires n < 10
  {
    '0' + n as char
  }

  /** `n` in exactly `width` decimal digits. */
  function Pad(n: nat, width: nat): (s: string)
    requires n < Pow10(width)
    ensures |s| == width
    ensures forall k :: 0 <= k < width ==> '0' <= s[k] <= '9'
  {
    if width == 0 then [] else Pad(n / 10, width - 1) + [Digit(n % 10)]
  }

  /** The texts `s` and `t` compare as the numbers `a` and `b` do. */
  predicate ComparesAs(s: string, t: string, a: int, b: int) {
    |s| == |t| && (LexLess(s, t) <==> a < b) && (s == t <==> a == b)
  }

  lemma {:induction false} PadOrder(a: nat, b: nat, width: nat)
    requires a < Pow10(width) && b < Pow10(width)
    ensures ComparesAs(Pad(a, width), Pad(b, width), a, b)
  {
    if width > 0 {
      PadOrder(a / 10, b / 10, width - 1);
      LexConcat(Pad(a / 10, width - 1), Pad(b / 10, width - 1), [Digit(a % 10)], [Digit(b % 10)]);
      assert Pad(a, width)[..width - 1] == Pad(a / 10, width - 1);
      assert Pad(b, width)[..width - 1] == Pad(b / 10, width - 1);
      assert Pad(a, width)[width - 1] == Digit(a % 10) && Pad(b, width)[width - 1] == Digit(b % 10);
    }
  }

  lemma {:induction false} LexSameHead(c: char, x: string, y: string)
    ensures LexLess([c] + x, [c] + y) <==> LexLess(x, y)
  {
    assert ([c] + x)[1..] == x && ([c] + y)[1..] == y;
  }

  /** Equal-length fields joined by the same separator compare field by field. */
  lemma {:induction false} FieldOrder(a: string, b: string, sep: char, x: string, y: string)
    requires |a| == |b|
    ensures LexLess(a + ([sep] + x), b + ([sep] + y)) <==> LexLess(a, b) || (a == b && LexLess(x, y))
  {
    LexSameHead(sep, x, y);
    LexConcat(a, b, [sep] + x, [sep] + y);
  }

  function Join3(sep: char, a: string, b: string, c: string): (s: string)
    ensures |s| == |a| + |b| + |c| + 2
  {
    a + ([sep] + (b + ([sep] + c)))
  }

  /** Three fields of fixed width compare as the triple of their numbers. */
  lemma {:induction false} Join3Order(sep: char, s1: string, s2: string, s3: string, t1: string, t2: string, t3: string,
                   a1: int, a2: int, a3: int, b1: int, b2: int, b3: int)
    requires ComparesAs(s1, t1, a1, b1) && ComparesAs(s2, t2, a2, b2) && ComparesAs(s3, t3, a3, b3)
    ensures LexLess(Join3(sep, s1, s2, s3), Join3(sep, t1, t2, t3)) <==>
            a1 < b1 || (a1 == b1 && (a2 < b2 || (a2 == b2 && a3 < b3)))
  {
    FieldOrder(s2, t2, sep, s3, t3);
    FieldOrder(s1, t1, sep, s2 + ([sep] + s3), t2 + ([sep] + t3));
  }

  function DateText(day: nat): (s: string)
    requires Printable(day)
    ensures |s| == 10
  {
    DateInRange(day);
    FourDigitYears(day);
    Powers();
    var d := DateOf(day);
    Join3('-', Pad(d.year, 4), Pad(d.month, 2), Pad(d.day, 2))
  }

  function ClockText(secondOfDay: nat): (s: string)
    requires secondOfDay < SECONDS_PER_DAY
    ensures |s| == 8
  {
    Powers();
    Join3(':', Pad(secondOfDay / 3600, 2), Pad(secondOfDay / 60 % 60, 2), Pad(secondOfDay % 60, 2))
  }

  lemma {:induction false} Powers()
    ensures Pow10(2) == 100 && Pow10(4) == 10_000 && Pow10(9) == NANOS_PER_SECOND
  {
    assert Pow10(3) == 1_000;
    assert Pow10(6) == 1_000_000;
    assert Pow10(8) == 100_000_000;
  }

  function SecondText(second: nat): (s: string)
    requires Printable(second / SECONDS_PER_DAY)
    ensures |s| == 19
  {
    DateText(second / SECONDS_PER_DAY) + (['T'] + ClockText(second % SECONDS_PER_DAY))
  }

  function TrimZeros(s: string): (t: string)
    ensures |t| <= |s| && s[..|t|] == t
    ensures forall k :: |t| <= k < |s| ==> s[k] == '0'
    ensures t != [] ==> t[|t| - 1] != '0'
  {
    if s != [] && s[|s| - 1] == '0' then TrimZeros(s[..|s| - 1]) else s
  }

  /** The fraction digits RFC3339Nano keeps. */
  function Fraction(nanos: nat): (s: string)
    requires nanos < NANOS_PER_SECOND
  {
    Powers();
    TrimZeros(Pad(nanos, 9))
  }

  function FractionText(nanos: nat): (s: string)
    requires nanos < NANOS_PER_SECOND
  {
    Terminated(Fraction(nanos))
  }

  function WholeSecond(t: nat): (s: nat) { t / NANOS_PER_SECOND }

  function Nanos(t: nat): (n: nat)
    ensures n < NANOS_PER_SECOND
  {
    t % NANOS_PER_SECOND
  }

  /** The instants of years 0000 to 9999. */
  predicate InRange(t: int) {
    0 <= t < DAYS_OF_FOUR_DIGIT_YEARS * SECONDS_PER_DAY * NANOS_PER_SECOND
  }

  /** t.UTC().Format(time.RFC3339Nano) */
  function Format(t: nat): (s: string)
    requires InRange(t)
  {
    SecondText(WholeSecond(t)) + FractionText(Nanos(t))
  }

  /** What `ORDER BY` and `<` on a time column compare. */
  predicate TextBefore(a: nat, b: nat)
    requires InRange(a) && InRange(b)
  {
    LexLess(Format(a), Format(b))
  }

  // ---------- text order against time order ----------

  lemma {:induction false} Join3PadOrder(sep: char, w: nat, v: nat, a1: nat, a2: nat, a3: nat, b1: nat, b2: nat, b3: nat)
    requires a1 < Pow10(w) && b1 < Pow10(w)
    requires a2 < Pow10(v) && a3 < Pow10(v) && b2 < Pow10(v) && b3 < Pow10(v)
    ensures LexLess(Join3(sep, Pad(a1, w), Pad(a2, v), Pad(a3, v)), Join3(sep, Pad(b1, w), Pad(b2, v), Pad(b3, v))) <==>
            a1 < b1 || (a1 == b1 && (a2 < b2 || (a2 == b2 && a3 < b3)))
  {
    var s1, s2, s3, t1, t2, t3 := Pad(a1, w), Pad(a2, v), Pad(a3, v), Pad(b1, w), Pad(b2, v), Pad(b3, v);
    PadOrder(a1, b1, w);
    PadOrder(a2, b2, v);
    PadOrder(a3, b3, v);
    Join3Order(sep, s1, s2, s3, t1, t2, t3, a1, a2, a3, b1, b2, b3);
  }

  lemma {:induction false} DateTextOrder(a: nat, b: nat)
    requires Printable(a) && Printable(b)
    ensures LexLess(DateText(a), DateText(b)) <==> a < b
  {
    var da, db := DateOf(a), DateOf(b);
    DateInRange(a);
    DateInRange(b);
    FourDigitYears(a);
    FourDigitYears(b);
    Powers();
    Join3PadOrder('-', 4, 2, da.year, da.month, da.day, db.year, db.month, db.day);
    if a < b { DateOrder(a, b); }
    if b < a { DateOrder(b, a); }
  }

  lemma {:induction false} ClockFields(a: nat, h: nat, m: nat, s: nat)
    requires h == a / 3600 && m == a / 60 % 60 && s == a % 60
    ensures a == 3600 * h + 60 * m + s && m < 60 && s < 60
  {
    assert a / 60 / 60 == a / 3600;
  }

  lemma {:induction false} ClockTextOrder(a: nat, b: nat)
    requires a < SECONDS_PER_DAY && b < SECONDS_PER_DAY
    ensures LexLess(ClockText(a), ClockText(b)) <==> a < b
  {
    Powers();
    var ha, ma, sa := a / 3600, a / 60 % 60, a % 60;
    var hb, mb, sb := b / 3600, b / 60 % 60, b % 60;
    ClockFields(a, ha, ma, sa);
    ClockFields(b, hb, mb, sb);
    Join3PadOrder(':', 2, 2, ha, ma, sa, hb, mb, sb);
  }

  lemma {:induction false} SecondTextOrder(a: nat, b: nat)
    requires Printable(a / SECONDS_PER_DAY) && Printable(b / SECONDS_PER_DAY)
    ensures LexLess(SecondText(a), SecondText(b)) <==> a < b
    ensures SecondText(a) == SecondText(b) <==> a == b
  {
    LexIrreflexive(SecondText(a));
    DateTextOrder(a / SECONDS_PER_DAY, b / SECONDS_PER_DAY);
    ClockTextOrder(a % SECONDS_PER_DAY, b % SECONDS_PER_DAY);
    DateTextOrder(b / SECONDS_PER_DAY, a / SECONDS_PER_DAY);
    ClockTextOrder(b % SECONDS_PER_DAY, a % SECONDS_PER_DAY);
    FieldOrder(DateText(a / SECONDS_PER_DAY), DateText(b / SECONDS_PER_DAY), 'T',
               ClockText(a % SECONDS_PER_DAY), ClockText(b % SECONDS_PER_DAY));
    FieldOrder(DateText(b / SECONDS_PER_DAY), DateText(a / SECONDS_PER_DAY), 'T',
               ClockText(b % SECONDS_PER_DAY), ClockText(a % SECONDS_PER_DAY));
    LexIrreflexive(DateText(a / SECONDS_PER_DAY));
  }

  predicate ProperPrefix(a: string, b: string) {
    |a| < |b| && a == b[..|a|]
  }

  /** The first place where two strings of equal length differ. */
  lemma {:induction false} FirstDifference(a: string, b: string) returns (k: nat)
    requires |a| == |b| && LexLess(a, b)
    ensures k < |a| && a[..k] == b[..k] && a[k] < b[k]
  {
    if a[0] < b[0] {
      k := 0;
    } else {
      k := FirstDifference(a[1..], b[1..]);
      assert a[..k + 1] == [a[0]] + a[1..][..k] && b[..k + 1] == [b[0]] + b[1..][..k];
      k := k + 1;
    }
  }

  lemma {:induction false} LexAt(a: string, b: string, k: nat)
    requires k < |a| && k < |b| && a[..k] == b[..k]
    ensures a[k] < b[k] ==> LexLess(a, b)
    ensures a[k] > b[k] ==> LexLess(b, a) && !LexLess(a, b)
  {
    assert a == a[..k] + a[k..] && b == b[..k] + b[k..];
    LexConcat(a[..k], b[..k], a[k..], b[k..]);
    LexConcat(b[..k], a[..k], b[k..], a[k..]);
    LexIrreflexive(a[..k]);
  }

  /** `s` printed with the fixed-width digits `p`, trailing zeros trimmed. */
  predicate TrimmedFrom(s: string, p: string) {
    |s| <= |p| && s == p[..|s|] && (forall k :: 0 <= k < |p| ==> '0' <= p[k] <= '9') &&
    (forall k :: |s| <= k < |p| ==> p[k] == '0')
  }

  function Terminated(fraction: string): (s: string) {
    if fraction == [] then "Z" else "." + (fraction + "Z")
  }

  lemma {:induction false} TerminatedOrder(fa: string, fb: string, pa: string, pb: string, k: nat)
    requires TrimmedFrom(fa, pa) && TrimmedFrom(fb, pb)
    requires |pa| == |pb| && k < |pa| && pa[..k] == pb[..k] && pa[k] < pb[k]
    ensures LexLess(Terminated(fb), Terminated(fa)) <==> ProperPrefix(fa, fb)
    ensures LexLess(Terminated(fa), Terminated(fb)) <==> !ProperPrefix(fa, fb)
  {
    assert k < |fb|;
    var ta, tb := Terminated(fa), Terminated(fb);
    assert tb[..k + 1] == "." + pb[..k] by { assert fb[..k] == pb[..k]; }
    if k < |fa| {
      assert ta[..k + 1] == "." + pa[..k] by { assert fa[..k] == pa[..k]; }
      LexAt(ta, tb, k + 1);
      LexAt(tb, ta, k + 1);
      assert fa[k] != fb[k];
    } else {
      assert pa[..k][..|fa|] == pb[..k][..|fa|];
      assert fa == pa[..|fa|] == pb[..|fa|] == fb[..|fa|];
      if fa == [] {
        LexAt(ta, tb, 0);
      } else {
        assert ta[..|fa| + 1] == "." + fa && tb[..|fa| + 1] == "." + fb[..|fa|];
        assert ta[|fa| + 1] == 'Z' && tb[|fa| + 1] == fb[|fa|] == pb[|fa|] <= '9';
        LexAt(ta, tb, |fa| + 1);
      }
    }
  }

  /** Within one second the later instant sorts first exactly when the earlier fraction is a
      proper prefix of the later one. */
  lemma {:induction false} FractionOrder(a: nat, b: nat)
    requires a < b < NANOS_PER_SECOND
    ensures LexLess(FractionText(b), FractionText(a)) <==> ProperPrefix(Fraction(a), Fraction(b))
    ensures LexLess(FractionText(a), FractionText(b)) <==> !ProperPrefix(Fraction(a), Fraction(b))
  {
    Powers();
    PadOrder(a, b, 9);
    var k := FirstDifference(Pad(a, 9), Pad(b, 9));
    TerminatedOrder(Fraction(a), Fraction(b), Pad(a, 9), Pad(b, 9), k);
  }

  /** The exact meaning of `<` on a time column. */
  lemma {:induction false} TextOrder(a: nat, b: nat)
    requires InRange(a) && InRange(b)
    ensures TextBefore(a, b) <==>
            if WholeSecond(a) != WholeSecond(b) then a < b
            else if a < b then !ProperPrefix(Fraction(Nanos(a)), Fraction(Nanos(b)))
            else b < a && ProperPrefix(Fraction(Nanos(b)), Fraction(Nanos(a)))
  {
    SecondTextOrder(WholeSecond(a), WholeSecond(b));
    LexConcat(SecondText(WholeSecond(a)), SecondText(WholeSecond(b)),
              FractionText(Nanos(a)), FractionText(Nanos(b)));
    LexIrreflexive(Format(a));
    if WholeSecond(a) == WholeSecond(b) {
      if a < b { FractionOrder(Nanos(a), Nanos(b)); }
      if b < a { FractionOrder(Nanos(b), Nanos(a)); }
    }
  }

  lemma {:induction false} PadZero(width: nat)
    ensures forall k :: 0 <= k < width ==> Pad(0, width)[k] == '0'
  {
    if width > 0 { PadZero(width - 1); }
  }

  lemma {:induction false} FractionEmpty(nanos: nat)
    requires nanos < NANOS_PER_SECOND
    ensures Fraction(nanos) == "" <==> nanos == 0
  {
    Powers();
    PadZero(9);
    PadOrder(0, nanos, 9);
    if Fraction(nanos) == "" { assert Pad(nanos, 9) == Pad(0, 9); }
  }

  /** The reversal is real and common: every instant strictly inside a second sorts before
      the whole second it follows. */
  lemma {:induction false} WholeSecondSortsLast(second: nat, nanos: nat)
    requires InRange(second * NANOS_PER_SECOND) && 0 < nanos < NANOS_PER_SECOND
    ensures InRange(second * NANOS_PER_SECOND + nanos)
    ensures TextBefore(second * NANOS_PER_SECOND + nanos, second * NANOS_PER_SECOND)
  {
    InsideSecond(second * NANOS_PER_SECOND, second * NANOS_PER_SECOND + nanos);
  }

  lemma {:induction false} InsideSecond(whole: nat, inside: nat)
    requires InRange(whole) && WholeSecond(inside) == WholeSecond(whole) && Nanos(whole) == 0 && Nanos(inside) > 0
    ensures InRange(inside) && TextBefore(inside, whole)
  {
    SameSecondInRange(whole, inside);
    FractionEmpty(Nanos(whole));
    FractionEmpty(Nanos(inside));
    TextOrder(inside, whole);
  }

  lemma {:induction false} SameSecondInRange(a: nat, b: nat)
    requires InRange(a) && WholeSecond(a) == WholeSecond(b)
    ensures InRange(b)
  {}

  /** Different instants print differently, so a stored time determines the instant. */
  lemma {:induction false} FormatInjective(a: nat, b: nat)
    requires InRange(a) && InRange(b) && a != b
    ensures Format(a) != Format(b)
  {
    var x, y := if a < b then a else b, if a < b then b else a;
    TextOrder(x, y);
    TextOrder(y, x);
    LexIrreflexive(Format(a));
  }

  /** Every text comparison is right to within one second: a sweep `WHERE started_at < cutoff`
      takes every row a full second past the cutoff and none a full second short of it. */
  lemma {:induction false} SweepWithinASecond(started: nat, cutoff: nat)
    requires InRange(started) && InRange(cutoff)
    ensures started + NANOS_PER_SECOND <= cutoff ==> TextBefore(started, cutoff)
    ensures TextBefore(started, cutoff) ==> started < cutoff + NANOS_PER_SECOND
    ensures TextBefore(started, cutoff) ==> WholeSecond(started) <= WholeSecond(cutoff)
  {
    TextOrder(started, cutoff);
  }
}
