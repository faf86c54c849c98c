/**
 Timestamps as the queue stores them: RFC 3339 text with four-digit years, as many
 fractional digits as the instant needs (none, three, six or nine) and the offset
 `+00:00`. Text comparison of such strings is comparison in time, although section 5.1
 of RFC 3339 promises that only for equal numbers of fractional digits.
 */
module Rfc3339 {
  import opened Mails
  import opened Texts

  // ----- calendar -----

  predicate Leap(year: nat) { year % 4 == 0 && (year % 100 != 0 || year % 400 == 0) }

  function YearDays(year: nat): nat { if Leap(year) then 366 else 365 }

  function MonthDays(year: nat, month: nat): nat {
    if month == 2 then (if Leap(year) then 29 else 28)
    else if month == 4 || month == 6 || month == 9 || month == 11 then 30
    else 31
  }

  function DaysBeforeYear(year: nat): nat {
    if year == 0 then 0 else DaysBeforeYear(year - 1) + YearDays(year - 1)
  }

  function DaysBeforeMonth(year: nat, month: nat): nat
    requires 1 <= month
  {
    if month == 1 then 0 else DaysBeforeMonth(year, month - 1) + MonthDays(year, month - 1)
  }

  datatype Civil = Civil(year: nat, month: nat, day: nat, hour: nat, minute: nat, second: nat, nano: nat)

  predicate ValidCivil(c: Civil) {
    && c.year <= 9999 && 1 <= c.month <= 12 && 1 <= c.day <= MonthDays(c.year, c.month)
    && c.hour < 24 && c.minute < 60 && c.second < 60 && c.nano < NANOS
  }

  function DayNumber(c: Civil): nat
    requires ValidCivil(c)
  {
    DaysBeforeYear(c.year) + DaysBeforeMonth(c.year, c.month) + c.day - 1
  }

  function SecondNumber(c: Civil): nat
    requires ValidCivil(c)
  {
    DayNumber(c) * 86400 + c.hour * 3600 + c.minute * 60 + c.second
  }

  /** Nanoseconds since the beginning of the year 0. */
  function InstantOf(c: Civil): nat
    requires ValidCivil(c)
  {
    SecondNumber(c) * NANOS + c.nano
  }

  const LAST_DAY := DaysBeforeYear(10000)

  predicate IsInstant(n: int) { 0 <= n < LAST_DAY * 86400 * NANOS }

  /** Instants of the years 0 to 9999. */
  type Instant = n: int | IsInstant(n) witness (DaysAdd(9999); 0)

  lemma DaysAdd(year: nat)
    ensures DaysBeforeYear(year + 1) > DaysBeforeYear(year)
  {
  }

  lemma {:induction false} YearsMonotone(a: nat, b: nat)
    requires a <= b
    ensures DaysBeforeYear(a) <= DaysBeforeYear(b)
    decreases b - a
  {
    if a < b { YearsMonotone(a, b - 1); }
  }

  lemma {:induction false} MonthsMonotone(year: nat, a: nat, b: nat)
    requires 1 <= a <= b
    ensures DaysBeforeMonth(year, a) <= DaysBeforeMonth(year, b)
    decreases b - a
  {
    if a < b { MonthsMonotone(year, a, b - 1); }
  }

  lemma YearOfMonths(year: nat)
    ensures DaysBeforeMonth(year, 13) == YearDays(year)
  {
    var feb := MonthDays(year, 2);
    assert DaysBeforeMonth(year, 2) == 31;
    assert DaysBeforeMonth(year, 3) == 31 + feb;
    assert DaysBeforeMonth(year, 5) == 92 + feb;
    assert DaysBeforeMonth(year, 7) == 153 + feb;
    assert DaysBeforeMonth(year, 9) == 215 + feb;
    assert DaysBeforeMonth(year, 11) == 276 + feb;
    assert DaysBeforeMonth(year, 13) == 337 + feb;
  }

  predicate DateBefore(a: Civil, b: Civil) {
    a.year < b.year || (a.year == b.year && (a.month < b.month || (a.month == b.month && a.day < b.day)))
  }

  predicate ClockBefore(a: Civil, b: Civil) {
    a.hour < b.hour || (a.hour == b.hour && (a.minute < b.minute || (a.minute == b.minute &&
    (a.second < b.second || (a.second == b.second && a.nano < b.nano)))))
  }

  predicate SameDate(a: Civil, b: Civil) { a.year == b.year && a.month == b.month && a.day == b.day }

  /** Calendar order, field by field. */
  predicate Before(a: Civil, b: Civil) { DateBefore(a, b) || (SameDate(a, b) && ClockBefore(a, b)) }

  lemma DateOrder(a: Civil, b: Civil)
    requires ValidCivil(a) && ValidCivil(b) && DateBefore(a, b)
    ensures DayNumber(a) < DayNumber(b)
  {
    MonthsMonotone(a.year, a.month + 1, 13);
    YearOfMonths(a.year);
    if a.year < b.year {
      YearsMonotone(a.year + 1, b.year);
    } else if a.month < b.month {
      MonthsMonotone(a.year, a.month + 1, b.month);
    }
  }

  lemma InstantOrder(a: Civil, b: Civil)
    requires ValidCivil(a) && ValidCivil(b)
    ensures Before(a, b) <==> InstantOf(a) < InstantOf(b)
    ensures a == b <==> InstantOf(a) == InstantOf(b)
  {
    if DateBefore(a, b) {
      DateOrder(a, b);
    } else if DateBefore(b, a) {
      DateOrder(b, a);
    } else {
      assert SameDate(a, b);
    }
  }

  /** Which year, and which day of it, lies `days` days after the start of `year`. */
  function SplitYear(year: nat, days: nat): (r: (nat, nat))
    ensures r.1 < YearDays(r.0) && DaysBeforeYear(year) + days == DaysBeforeYear(r.0) + r.1
    decreases days
  {
    if days < YearDays(year) then (year, days) else SplitYear(year + 1, days - YearDays(year))
  }

  function SplitMonth(year: nat, month: nat, days: nat): (r: (nat, nat))
    requires 1 <= month <= 12 && DaysBeforeMonth(year, month) + days < YearDays(year)
    ensures 1 <= r.0 <= 12 && r.1 < MonthDays(year, r.0)
    ensures DaysBeforeMonth(year, month) + days == DaysBeforeMonth(year, r.0) + r.1
    decreases 12 - month
  {
    YearOfMonths(year);
    if days < MonthDays(year, month) then (month, days)
    else SplitMonth(year, month + 1, days - MonthDays(year, month))
  }

  lemma DaysAndSeconds(n: int)
    requires IsInstant(n)
    ensures var secs, nano := n / NANOS, n % NANOS;
            && 0 <= nano < NANOS && n == secs * NANOS + nano
            && 0 <= secs / 86400 < LAST_DAY && 0 <= secs % 86400 < 86400 && secs == secs / 86400 * 86400 + secs % 86400
  {
  }

  lemma ClockParts(rest: nat)
    requires rest < 86400
    ensures rest / 3600 < 24 && rest / 60 % 60 < 60 && rest % 60 < 60
    ensures rest == rest / 3600 * 3600 + rest / 60 % 60 * 60 + rest % 60
  {
    assert rest / 60 / 60 == rest / 3600;
  }

  /** Calendar date of a day. */
  function DateOf(days: nat): (r: (nat, nat, nat))
    requires days < LAST_DAY
    ensures r.0 <= 9999 && 1 <= r.1 <= 12 && 1 <= r.2 <= MonthDays(r.0, r.1)
    ensures DaysBeforeYear(r.0) + DaysBeforeMonth(r.0, r.1) + r.2 - 1 == days
  {
    var (year, yearDay) := SplitYear(0, days);
    assert year <= 9999 by {
      if year >= 10000 { YearsMonotone(10000, year); }
    }
    var (month, monthDay) := SplitMonth(year, 1, yearDay);
    (year, month, monthDay + 1)
  }

  /** Calendar fields of an instant. */
  function CivilOf(n: Instant): (c: Civil)
    ensures ValidCivil(c) && InstantOf(c) == n
  {
    DaysAndSeconds(n);
    var secs := n / NANOS;
    var rest := secs % 86400;
    ClockParts(rest);
    var (year, month, day) := DateOf(secs / 86400);
    Civil(year, month, day, rest / 3600, rest / 60 % 60, rest % 60, n % NANOS)
  }

  // ----- text -----

  const ZONE := "+00:00"

  function DigitChar(d: nat): char
    requires d < 10
  {
    ('0' as int + d) as char
  }

  /** The last `width` decimal digits of `n`. */
  function Digits(n: nat, width: nat): (s: string)
    ensures |s| == width
  {
    if width == 0 then "" else Digits(n / 10, width - 1) + [DigitChar(n % 10)]
  }

  /** Fraction, shortened to milli-, micro- or nanoseconds, and offset. */
  function Fraction(nano: nat): string {
    if nano == 0 then ZONE
    else if nano % 1_000_000 == 0 then "." + (Digits(nano / 1_000_000, 3) + ZONE)
    else if nano % 1_000 == 0 then "." + (Digits(nano / 1_000, 6) + ZONE)
    else "." + (Digits(nano, 9) + ZONE)
  }

  function ClockText(c: Civil): string {
    Digits(c.hour, 2) + (":" + (Digits(c.minute, 2) + (":" + (Digits(c.second, 2) + Fraction(c.nano)))))
  }

  function CivilText(c: Civil): string {
    Digits(c.year, 4) + ("-" + (Digits(c.month, 2) + ("-" + (Digits(c.day, 2) + ("T" + ClockText(c))))))
  }

  /** `DateTime<Utc>::to_rfc3339`. */
  function ToText(n: Instant): string { CivilText(CivilOf(n)) }

  // ----- text order -----

  function Pow10(k: nat): (r: nat)
    ensures r >= 1
  {
    if k == 0 then 1 else 10 * Pow10(k - 1)
  }

  lemma {:induction false} DigitsOrder(a: nat, b: nat, width: nat)
    requires a < Pow10(width) && b < Pow10(width)
    ensures TextLess(Digits(a, width), Digits(b, width)) <==> a < b
    ensures Digits(a, width) == Digits(b, width) <==> a == b
  {
    if width > 0 {
      var x, y := Digits(a / 10, width - 1), Digits(b / 10, width - 1);
      var p, q := DigitChar(a % 10), DigitChar(b % 10);
      DigitsOrder(a / 10, b / 10, width - 1);
      if a / 10 == b / 10 {
        TextLessAfter(x, [p], [q]);
        assert (x + [p])[width - 1] == p && (y + [q])[width - 1] == q;
      } else {
        TextLessDiffers(x, y, [p], [q]);
        assert (x + [p])[..width - 1] == x && (y + [q])[..width - 1] == y;
      }
    }
  }

  /** A fixed-width number decides, and only on a tie what follows it. */
  lemma FieldOrder(a: nat, b: nat, width: nat, s: string, t: string)
    requires a < Pow10(width) && b < Pow10(width)
    ensures TextLess(Digits(a, width) + s, Digits(b, width) + t) <==> a < b || (a == b && TextLess(s, t))
  {
    DigitsOrder(a, b, width);
    if a == b {
      TextLessAfter(Digits(a, width), s, t);
    } else {
      TextLessDiffers(Digits(a, width), Digits(b, width), s, t);
    }
  }

  lemma Pow10Small()
    ensures Pow10(2) == 100 && Pow10(3) == 1000 && Pow10(4) == 10000
    ensures Pow10(6) == 1_000_000 && Pow10(9) == NANOS
  {
    assert Pow10(3) == 1000;
    assert Pow10(6) == 1000 * Pow10(3);
    assert Pow10(9) == 1000 * Pow10(6);
  }

  /** The number without its last digits. */
  function Leading(n: nat, drop: nat): nat { if drop == 0 then n else Leading(n / 10, drop - 1) }

  /** Dropping trailing digits of the number drops characters of the text. */
  lemma {:induction false} DigitsPrefix(n: nat, width: nat, keep: nat)
    requires keep <= width
    ensures Digits(n, width)[..keep] == Digits(Leading(n, width - keep), keep)
    decreases width
  {
    if keep < width {
      DigitsPrefix(n / 10, width - 1, keep);
      assert Digits(n, width)[..keep] == Digits(n / 10, width - 1)[..keep];
    }
  }

  lemma ThreeMore(n: nat)
    ensures Leading(n, 6) == Leading(n / 10 / 10 / 10, 3)
  {
    assert Leading(n, 6) == Leading(n / 10, 5);
    assert Leading(n / 10, 5) == Leading(n / 10 / 10, 4);
    assert Leading(n / 10 / 10, 4) == Leading(n / 10 / 10 / 10, 3);
  }

  lemma Three(n: nat)
    ensures Leading(n, 3) == n / 10 / 10 / 10
  {
    assert Leading(n, 3) == Leading(n / 10, 2);
    assert Leading(n / 10, 2) == Leading(n / 10 / 10, 1);
    assert Leading(n / 10 / 10, 1) == Leading(n / 10 / 10 / 10, 0);
  }

  lemma LeadingThousands(n: nat)
    ensures Leading(n, 3) == n / 1000 && Leading(n, 6) == n / 1_000_000
  {
    Three(n);
    Three(n / 10 / 10 / 10);
    ThreeMore(n);
    assert n / 10 / 10 / 10 == n / 1000;
    assert n / 1000 / 1000 == n / 1_000_000;
  }

  /** A short fraction against a longer one: the shorter text goes on with `+`, which sorts below digits. */
  lemma ShorterFraction(a: nat, b: nat, width: nat, longer: nat, head: nat)
    requires width < longer && a < Pow10(width) && head < Pow10(width)
    requires Digits(b, longer)[..width] == Digits(head, width)
    ensures var x, y := Digits(a, width) + ZONE, Digits(b, longer) + ZONE;
            (TextLess(x, y) <==> a <= head) && (TextLess(y, x) <==> a > head)
  {
    var tail := Digits(b, longer)[width..];
    AllDigits(b, longer);
    assert Digits(b, longer) + ZONE == Digits(head, width) + (tail + ZONE);
    GoesOn(a, head, width, tail);
  }

  lemma GoesOn(a: nat, head: nat, width: nat, tail: string)
    requires a < Pow10(width) && head < Pow10(width) && tail != [] && '0' <= tail[0] <= '9'
    ensures var x, y := Digits(a, width) + ZONE, Digits(head, width) + (tail + ZONE);
            (TextLess(x, y) <==> a <= head) && (TextLess(y, x) <==> a > head)
  {
    assert TextLess(ZONE, tail + ZONE) && !TextLess(tail + ZONE, ZONE) by {
      assert (tail + ZONE)[0] == tail[0] && ZONE[0] == '+';
    }
    FieldOrder(a, head, width, ZONE, tail + ZONE);
    FieldOrder(head, a, width, tail + ZONE, ZONE);
  }

  lemma {:induction false} AllDigits(n: nat, width: nat)
    ensures forall i :: 0 <= i < width ==> '0' <= Digits(n, width)[i] <= '9'
  {
    if width > 0 { AllDigits(n / 10, width - 1); }
  }

  // ----- the order theorem -----

  /** How many digits a fraction is written with, and the number those digits form. */
  function Width(nano: nat): nat {
    if nano % 1_000_000 == 0 then 3 else if nano % 1_000 == 0 then 6 else 9
  }

  function Shown(nano: nat): nat {
    if nano % 1_000_000 == 0 then nano / 1_000_000 else if nano % 1_000 == 0 then nano / 1_000 else nano
  }

  /** Texts of fractions in which the first is written shorter. */
  ghost predicate Agree(a: nat, b: nat) {
    var x, y := Digits(Shown(a), Width(a)) + ZONE, Digits(Shown(b), Width(b)) + ZONE;
    (TextLess(x, y) <==> a < b) && (TextLess(y, x) <==> b < a)
  }

  lemma MixedOrder(a: nat, b: nat, width: nat, longer: nat, head: nat)
    requires Width(a) == width < longer == Width(b)
    requires Shown(a) < Pow10(width) && head < Pow10(width)
    requires Digits(Shown(b), longer)[..width] == Digits(head, width)
    requires Shown(a) <= head <==> a < b
    requires Shown(a) > head <==> b < a
    ensures Agree(a, b)
  {
    ShorterFraction(Shown(a), Shown(b), width, longer, head);
  }

  lemma HeadOfNine(n: nat)
    ensures Digits(n, 9)[..6] == Digits(n / 1000, 6) && Digits(n, 9)[..3] == Digits(n / 1_000_000, 3)
    ensures Digits(n, 6)[..3] == Digits(n / 1000, 3)
  {
    LeadingThousands(n);
    DigitsPrefix(n, 9, 6);
    DigitsPrefix(n, 9, 3);
    DigitsPrefix(n, 6, 3);
  }

  lemma DottedOrder(a: nat, b: nat)
    requires 0 < a < NANOS && 0 < b < NANOS && Width(a) < Width(b)
    ensures Agree(a, b)
  {
    Pow10Small();
    HeadOfNine(Shown(b));
    if Width(b) == 6 {
      MixedOrder(a, b, 3, 6, Shown(b) / 1000);
    } else if Width(a) == 3 {
      MixedOrder(a, b, 3, 9, Shown(b) / 1_000_000);
    } else {
      MixedOrder(a, b, 6, 9, Shown(b) / 1000);
    }
  }

  lemma FractionOrder(a: nat, b: nat)
    requires a < NANOS && b < NANOS
    ensures TextLess(Fraction(a), Fraction(b)) <==> a < b
  {
    if a == 0 || b == 0 {
      assert ZONE[0] == '+' && '+' < '.';
      TextLessAfter(ZONE, "", "");
      assert ZONE + "" == ZONE;
    } else {
      Pow10Small();
      var x, y := Digits(Shown(a), Width(a)) + ZONE, Digits(Shown(b), Width(b)) + ZONE;
      TextLessAfter(".", x, y);
      if Width(a) == Width(b) {
        FieldOrder(Shown(a), Shown(b), Width(a), ZONE, ZONE);
        TextLessAfter(ZONE, "", "");
        assert ZONE + "" == ZONE;
      } else if Width(a) < Width(b) {
        DottedOrder(a, b);
      } else {
        DottedOrder(b, a);
      }
    }
  }

  lemma ClockTextOrder(a: Civil, b: Civil)
    requires ValidCivil(a) && ValidCivil(b)
    ensures TextLess(ClockText(a), ClockText(b)) <==> ClockBefore(a, b)
  {
    Pow10Small();
    FractionOrder(a.nano, b.nano);
    var s0, t0 := Fraction(a.nano), Fraction(b.nano);
    FieldOrder(a.second, b.second, 2, s0, t0);
    var s1, t1 := Digits(a.second, 2) + s0, Digits(b.second, 2) + t0;
    TextLessAfter(":", s1, t1);
    FieldOrder(a.minute, b.minute, 2, ":" + s1, ":" + t1);
    var s2, t2 := Digits(a.minute, 2) + (":" + s1), Digits(b.minute, 2) + (":" + t1);
    TextLessAfter(":", s2, t2);
    FieldOrder(a.hour, b.hour, 2, ":" + s2, ":" + t2);
  }

  lemma CivilTextOrder(a: Civil, b: Civil)
    requires ValidCivil(a) && ValidCivil(b)
    ensures TextLess(CivilText(a), CivilText(b)) <==> Before(a, b)
  {
    Pow10Small();
    ClockTextOrder(a, b);
    TextLessAfter("T", ClockText(a), ClockText(b));
    var s0, t0 := "T" + ClockText(a), "T" + ClockText(b);
    FieldOrder(a.day, b.day, 2, s0, t0);
    var s1, t1 := Digits(a.day, 2) + s0, Digits(b.day, 2) + t0;
    TextLessAfter("-", s1, t1);
    FieldOrder(a.month, b.month, 2, "-" + s1, "-" + t1);
    var s2, t2 := Digits(a.month, 2) + ("-" + s1), Digits(b.month, 2) + ("-" + t1);
    TextLessAfter("-", s2, t2);
    FieldOrder(a.year, b.year, 4, "-" + s2, "-" + t2);
  }

  /** Text order is time order, for all instants of the years 0 to 9999. */
  lemma TextOrderIsTimeOrder(a: Instant, b: Instant)
    ensures TextLess(ToText(a), ToText(b)) <==> a < b
    ensures ToText(a) == ToText(b) <==> a == b
  {
    CivilTextOrder(CivilOf(a), CivilOf(b));
    CivilTextOrder(CivilOf(b), CivilOf(a));
    InstantOrder(CivilOf(a), CivilOf(b));
    InstantOrder(CivilOf(b), CivilOf(a));
  }

  // ----- reading back -----

  datatype Scan = Scan(value: nat, rest: string)

  function Number(digits: string): (r: Option<nat>)
  {
    if digits == "" then Some(0)
    else
      var last := digits[|digits| - 1];
      var init :- Number(digits[..|digits| - 1]);
      if '0' <= last <= '9' then Some(10 * init + (last as int - '0' as int)) else None
  }

  function ScanNumber(s: string, width: nat): (r: Option<Scan>) {
    if |s| < width then None
    else
      var n :- Number(s[..width]);
      Some(Scan(n, s[width..]))
  }

  function ScanChar(s: string, c: char): (r: Option<string>) {
    if s != "" && s[0] == c then Some(s[1..]) else None
  }

  /** An optional fraction, of which nine digits count, and the zero offset. */
  function ScanFraction(s: string): (r: Option<nat>) {
    if s == ZONE then Some(0)
    else
      var rest :- ScanChar(s, '.');
      if |rest| <= 6 || rest[|rest| - 6..] != ZONE then None
      else
        var all := rest[..|rest| - 6];
        var digits := if |all| <= 9 then all else all[..9];
        var _ :- Number(all);
        var n :- Number(digits);
        Some(n * Pow10(9 - |digits|))
  }

  /** `parse_time`, for texts at offset zero. */
  function ParseTime(s: string): (r: Option<int>) {
    var year :- ScanNumber(s, 4);
    var s :- ScanChar(year.rest, '-');
    var month :- ScanNumber(s, 2);
    var s :- ScanChar(month.rest, '-');
    var day :- ScanNumber(s, 2);
    var s :- ScanChar(day.rest, 'T');
    var hour :- ScanNumber(s, 2);
    var s :- ScanChar(hour.rest, ':');
    var minute :- ScanNumber(s, 2);
    var s :- ScanChar(minute.rest, ':');
    var second :- ScanNumber(s, 2);
    var nano :- ScanFraction(second.rest);
    var c := Civil(year.value, month.value, day.value, hour.value, minute.value, second.value, nano);
    if ValidCivil(c) then Some(InstantOf(c)) else None
  }

  lemma {:induction false} NumberOfDigits(n: nat, width: nat)
    requires n < Pow10(width)
    ensures Number(Digits(n, width)) == Some(n)
  {
    if width > 0 {
      var s := Digits(n, width);
      assert s[..width - 1] == Digits(n / 10, width - 1);
      NumberOfDigits(n / 10, width - 1);
    }
  }

  lemma ScanDigits(n: nat, width: nat, rest: string)
    requires n < Pow10(width)
    ensures ScanNumber(Digits(n, width) + rest, width) == Some(Scan(n, rest))
  {
    var s := Digits(n, width) + rest;
    assert s[..width] == Digits(n, width) && s[width..] == rest;
    NumberOfDigits(n, width);
  }

  lemma ScanOne(c: char, rest: string)
    ensures ScanChar([c] + rest, c) == Some(rest)
  {
    assert ([c] + rest)[1..] == rest;
  }

  lemma ScanWrittenFraction(nano: nat)
    requires nano < NANOS
    ensures ScanFraction(Fraction(nano)) == Some(nano)
  {
    Pow10Small();
    if nano != 0 {
      var digits := Digits(Shown(nano), Width(nano));
      var s := "." + (digits + ZONE);
      assert Fraction(nano) == s && s[0] == '.';
      var rest := digits + ZONE;
      ScanOne('.', rest);
      assert |rest| == Width(nano) + 6 && rest[|rest| - 6..] == ZONE && rest[..|rest| - 6] == digits;
      NumberOfDigits(Shown(nano), Width(nano));
      assert Shown(nano) * Pow10(9 - Width(nano)) == nano;
    }
  }

  lemma ClockRest(c: Civil) returns (s: string, t: string, u: string)
    requires ValidCivil(c)
    ensures ScanNumber(ClockText(c), 2) == Some(Scan(c.hour, s))
    ensures ScanChar(s, ':').Some? && ScanNumber(ScanChar(s, ':').value, 2) == Some(Scan(c.minute, t))
    ensures ScanChar(t, ':').Some? && ScanNumber(ScanChar(t, ':').value, 2) == Some(Scan(c.second, u))
    ensures u == Fraction(c.nano)
  {
    Pow10Small();
    u := Fraction(c.nano);
    t := ":" + (Digits(c.second, 2) + u);
    s := ":" + (Digits(c.minute, 2) + t);
    ScanDigits(c.hour, 2, s);
    ScanOne(':', Digits(c.minute, 2) + t);
    ScanDigits(c.minute, 2, t);
    ScanOne(':', Digits(c.second, 2) + u);
    ScanDigits(c.second, 2, u);
  }

  /** Reading back what was written gives the same instant. */
  lemma TextRoundTrip(n: Instant)
    ensures ParseTime(ToText(n)) == Some(n)
  {
    var c := CivilOf(n);
    Pow10Small();
    var clock := "T" + ClockText(c);
    var day := "-" + (Digits(c.day, 2) + clock);
    var month := "-" + (Digits(c.month, 2) + day);
    ScanDigits(c.year, 4, month);
    ScanOne('-', Digits(c.month, 2) + day);
    ScanDigits(c.month, 2, day);
    ScanOne('-', Digits(c.day, 2) + clock);
    ScanDigits(c.day, 2, clock);
    ScanOne('T', ClockText(c));
    var s, t, u := ClockRest(c);
    ScanWrittenFraction(c.nano);
  }

  // ----- what storage needs of a time format -----

  datatype Codec = Codec(write: Instant -> string, read: string -> Option<int>)

  /** Written times read back, and compare as text exactly as they compare in time. */
  ghost predicate Faithful(codec: Codec) {
    && (forall n: Instant {:trigger codec.read(codec.write(n))} :: codec.read(codec.write(n)) == Some(n))
    && (forall a: Instant, b: Instant {:trigger TextLess(codec.write(a), codec.write(b))} ::
          TextLess(codec.write(a), codec.write(b)) <==> a < b)
  }

  function Rfc3339Codec(): Codec { Codec((n: Instant) => ToText(n), (s: string) => ParseTime(s)) }

  lemma Rfc3339Faithful()
    ensures Faithful(Rfc3339Codec())
  {
    var codec := Rfc3339Codec();
    forall n: Instant ensures codec.read(codec.write(n)) == Some(n) {
      TextRoundTrip(n);
      assert codec.write(n) == ToText(n);
    }
    forall a: Instant, b: Instant ensures TextLess(codec.write(a), codec.write(b)) <==> a < b {
      TextOrderIsTimeOrder(a, b);
      assert codec.write(a) == ToText(a) && codec.write(b) == ToText(b);
    }
  }

  // ----- the calendar is the Gregorian one -----

  lemma CountFours(x: nat)
    ensures (x + 4) / 4 == (x + 3) / 4 + (if x % 4 == 0 then 1 else 0)
  {
  }

  lemma CountHundreds(x: nat)
    ensures (x + 100) / 100 == (x + 99) / 100 + (if x % 100 == 0 then 1 else 0)
  {
  }

  lemma CountFourHundreds(x: nat)
    ensures (x + 400) / 400 == (x + 399) / 400 + (if x % 400 == 0 then 1 else 0)
  {
  }

  lemma LeapCounts(x: nat)
    ensures YearDays(x) == 365 + (if x % 4 == 0 then 1 else 0) - (if x % 100 == 0 then 1 else 0) + (if x % 400 == 0 then 1 else 0)
  {
    Multiples(x);
  }

  lemma Multiples(x: nat)
    ensures x % 100 == 0 ==> x % 4 == 0
    ensures x % 400 == 0 ==> x % 100 == 0
  {
    var centuries, years := x / 100, x % 100;
    assert x == 4 * (25 * centuries) + years;
    var cycles, rest := x / 400, x % 400;
    assert x == 100 * (4 * cycles) + rest;
  }

  /** Leap years by the usual count. */
  lemma {:induction false} YearsClosed(year: nat)
    ensures DaysBeforeYear(year) == 365 * year + (year + 3) / 4 - (year + 99) / 100 + (year + 399) / 400
  {
    if year > 0 {
      var x := year - 1;
      YearsClosed(x);
      LeapCounts(x);
      CountFours(x);
      CountHundreds(x);
      CountFourHundreds(x);
      assert DaysBeforeYear(year) == DaysBeforeYear(x) + YearDays(x);
    }
  }

  lemma FourCenturiesCounted(y: nat)
    ensures (y + 403) / 4 == (y + 3) / 4 + 100 && (y + 499) / 100 == (y + 99) / 100 + 4 && (y + 799) / 400 == (y + 399) / 400 + 1
  {
  }

  /** Four hundred years are 146097 days, whenever they begin. */
  lemma FourCenturies(year: nat, later: nat)
    requires later == year + 400
    ensures DaysBeforeYear(later) == DaysBeforeYear(year) + 146097
  {
    YearsClosed(year);
    YearsClosed(later);
    FourCenturiesCounted(year);
  }

  /** Where the months of a year begin. */
  lemma MonthsClosed(year: nat, month: nat)
    requires 1 <= month <= 12
    ensures DaysBeforeMonth(year, month) ==
            [0, 31, 59, 90, 120, 151, 181, 212, 243, 273, 304, 334][month - 1]
            + (if month > 2 && YearDays(year) == 366 then 1 else 0)
  {
    assert DaysBeforeMonth(year, 1) == 0 && DaysBeforeMonth(year, 2) == 31;
    var feb := DaysBeforeMonth(year, 3);
    assert feb == 59 + (if YearDays(year) == 366 then 1 else 0);
    assert DaysBeforeMonth(year, 4) == feb + 31 && DaysBeforeMonth(year, 5) == feb + 61;
    assert DaysBeforeMonth(year, 6) == feb + 92 && DaysBeforeMonth(year, 7) == feb + 122;
    assert DaysBeforeMonth(year, 8) == feb + 153 && DaysBeforeMonth(year, 9) == feb + 184;
    assert DaysBeforeMonth(year, 10) == feb + 214 && DaysBeforeMonth(year, 11) == feb + 245;
    assert DaysBeforeMonth(year, 12) == feb + 275;
  }

  /** The first day of 1970 is day 719528 of the calendar, that of 2024 day 739251. */
  lemma KnownYears(a: nat, b: nat)
    requires a == 1970 && b == 2024
    ensures DaysBeforeYear(a) == 719_528 && DaysBeforeYear(b) == 739_251
  {
    YearsClosed(a);
    YearsClosed(b);
  }

  lemma TwoDigits(n: nat)
    requires n < 100
    ensures Digits(n, 2) == [DigitChar(n / 10), DigitChar(n % 10)]
  {
    var tens := n / 10;
    assert Digits(tens, 1) == Digits(tens / 10, 0) + [DigitChar(tens % 10)];
    assert Digits(tens / 10, 0) == "";
  }

  lemma FourDigits(n: nat)
    requires n < 10000
    ensures Digits(n, 4) == Digits(n / 100, 2) + [DigitChar(n / 10 % 10), DigitChar(n % 10)]
  {
    var k := n / 10;
    assert Digits(n, 4) == Digits(k, 3) + [DigitChar(n % 10)];
    assert Digits(k, 3) == Digits(k / 10, 2) + [DigitChar(k % 10)];
    assert k / 10 == n / 100;
  }

  /** The Unix epoch and the noon of a leap day: when they are, and how they are written, part by part. */
  lemma KnownTexts(a: Civil, b: Civil)
    requires (a.year, a.month, a.day, a.hour, a.minute, a.second, a.nano) == (1970, 1, 1, 0, 0, 0, 0)
    requires (b.year, b.month, b.day, b.hour, b.minute, b.second, b.nano) == (2024, 2, 29, 12, 0, 0, 0)
    ensures ValidCivil(a) && InstantOf(a) == 719_528 * 86400 * NANOS
    ensures ValidCivil(b) && InstantOf(b) == InstantOf(a) + 1_709_208_000 * NANOS
    ensures CivilText(a) ==
            "1970" + ("-" + ("01" + ("-" + ("01" + ("T" + ("00" + (":" + ("00" + (":" + ("00" + "+00:00"))))))))))
    ensures CivilText(b) ==
            "2024" + ("-" + ("02" + ("-" + ("29" + ("T" + ("12" + (":" + ("00" + (":" + ("00" + "+00:00"))))))))))
  {
    KnownYears(a.year, b.year);
    MonthsClosed(a.year, a.month);
    MonthsClosed(b.year, b.month);
    assert DayNumber(a) == 719_528 && DayNumber(b) == 739_310;
    KnownDigits(a, b);
  }

  lemma KnownDigits(a: Civil, b: Civil)
    requires (a.year, a.month, a.day, a.hour, a.minute, a.second) == (1970, 1, 1, 0, 0, 0)
    requires (b.year, b.month, b.day, b.hour, b.minute, b.second) == (2024, 2, 29, 12, 0, 0)
    ensures Digits(a.year, 4) == "1970" && Digits(b.year, 4) == "2024"
    ensures Digits(a.month, 2) == "01" && Digits(a.hour, 2) == "00"
    ensures Digits(b.month, 2) == "02" && Digits(b.day, 2) == "29" && Digits(b.hour, 2) == "12"
  {
    FourDigits(a.year);
    TwoDigits(a.year / 100);
    FourDigits(b.year);
    TwoDigits(b.year / 100);
    TwoDigits(a.month);
    TwoDigits(a.hour);
    TwoDigits(b.month);
    TwoDigits(b.day);
    TwoDigits(b.hour);
  }

  /** Milli-, micro- and nanoseconds as they are written. */
  lemma KnownFractions(nano: nat)
    requires nano == 250_000_000
    ensures Fraction(nano) == ".250+00:00"
  {
    var ms := nano / 1_000_000;
    assert ms == 250;
    assert Digits(ms, 3) == Digits(ms / 10, 2) + [DigitChar(ms % 10)];
    TwoDigits(ms / 10);
  }
}
