/**
 * Civil dates as `YYYY-MM-DD` strings: the date arithmetic of
 * packages/case-lifecycle/deadlines.ts (`toUtcNoon`, `addDays`, `diffDays`) on top of
 * the time values of section 21.4.1 of ECMA-262. The module ends with the bridge every
 * other module relies on: on dates of the years 100 to 9999 the strings, their
 * arithmetic and their `<` order are those of plain day numbers (days since 1970-01-01).
 */
module CivilDates {
  import opened Wrappers

  const MS_DAY := 86_400_000
  const MS_NOON := 43_200_000
  /** The largest time value, section 21.4.1.1 of ECMA-262. */
  const MAX_TIME := 8_640_000_000_000_000

  datatype DateError = NotACivilDate | InvalidTimeValue

  // ---- Calendar of section 21.4.1 of ECMA-262 ----

  predicate Leap(y: int) {
    y % 4 == 0 && (y % 100 != 0 || y % 400 == 0)
  }

  function YearLength(y: int): int {
    if Leap(y) then 366 else 365
  }

  /** The day number of 1 January of year `y`. */
  function YearStart(y: int): int
    decreases if y < 1970 then 1970 - y else y - 1970
  {
    if y == 1970 then 0
    else if y > 1970 then YearStart(y - 1) + YearLength(y - 1)
    else YearStart(y + 1) - YearLength(y)
  }

  /** DayFromYear of section 21.4.1.3 of ECMA-262. */
  function DayFromYear(y: int): int {
    365 * (y - 1970) + (y - 1969) / 4 - (y - 1901) / 100 + (y - 1601) / 400
  }

  lemma Every4(y: int)
    ensures (y - 1968) / 4 == (y - 1969) / 4 + if y % 4 == 0 then 1 else 0
  {
  }

  lemma Every100(y: int)
    ensures (y - 1900) / 100 == (y - 1901) / 100 + if y % 100 == 0 then 1 else 0
  {
  }

  lemma Every400(y: int)
    ensures (y - 1600) / 400 == (y - 1601) / 400 + if y % 400 == 0 then 1 else 0
  {
  }

  lemma LeapCounts(y: int)
    ensures YearLength(y) == 365 + (if y % 4 == 0 then 1 else 0) - (if y % 100 == 0 then 1 else 0)
                             + (if y % 400 == 0 then 1 else 0)
  {
    if y % 400 == 0 {
      assert y == 100 * (4 * (y / 400));
    }
    if y % 100 == 0 {
      assert y == 4 * (25 * (y / 100));
    }
  }

  lemma FormulaStep(y: int)
    ensures DayFromYear(y + 1) == DayFromYear(y) + YearLength(y)
  {
    Every4(y);
    Every100(y);
    Every400(y);
    LeapCounts(y);
  }

  /** Counting years one by one gives the standard's closed form. */
  lemma {:induction false} YearStartIsDayFromYear(y: int)
    ensures YearStart(y) == DayFromYear(y)
    decreases if y < 1970 then 1970 - y else y - 1970
  {
    if y > 1970 {
      YearStartIsDayFromYear(y - 1);
      FormulaStep(y - 1);
    } else if y < 1970 {
      YearStartIsDayFromYear(y + 1);
      FormulaStep(y);
    }
  }

  function MonthLength(m: int, leap: bool): int {
    if m == 2 then (if leap then 29 else 28)
    else if m == 4 || m == 6 || m == 9 || m == 11 then 30
    else 31
  }

  /** Days of the year before month `m` (13 = the whole year). */
  function MonthStart(m: int, leap: bool): (r: int)
  {
    if m <= 1 then 0 else MonthStart(m - 1, leap) + MonthLength(m - 1, leap)
  }

  lemma {:induction false} MonthsGrow(a: int, b: int, leap: bool)
    requires 1 <= a <= b
    ensures MonthStart(a, leap) + 28 * (b - a) <= MonthStart(b, leap) <= MonthStart(a, leap) + 31 * (b - a)
    decreases b - a
  {
    if a < b {
      MonthsGrow(a, b - 1, leap);
    }
  }

  lemma TwelveMonths(leap: bool)
    ensures MonthStart(13, leap) == if leap then 366 else 365
  {
    MonthStarts(leap);
  }

  lemma MonthStarts(leap: bool)
    ensures var x := if leap then 1 else 0;
            MonthStart(1, leap) == 0 && MonthStart(2, leap) == 31 && MonthStart(3, leap) == 59 + x
            && MonthStart(4, leap) == 90 + x && MonthStart(5, leap) == 120 + x && MonthStart(6, leap) == 151 + x
            && MonthStart(7, leap) == 181 + x && MonthStart(8, leap) == 212 + x && MonthStart(9, leap) == 243 + x
            && MonthStart(10, leap) == 273 + x && MonthStart(11, leap) == 304 + x && MonthStart(12, leap) == 334 + x
  {
    assert MonthStart(2, leap) == 31;
    assert MonthStart(3, leap) == 59 + if leap then 1 else 0;
    assert MonthStart(5, leap) == 120 + if leap then 1 else 0;
    assert MonthStart(7, leap) == 181 + if leap then 1 else 0;
    assert MonthStart(9, leap) == 243 + if leap then 1 else 0;
    assert MonthStart(11, leap) == 304 + if leap then 1 else 0;
  }

  /** The years of the holiday tables. */
  lemma TableYears()
    ensures YearStart(2026) == 20454 && YearStart(2027) == 20819 && YearStart(2028) == 21184
  {
    YearStartIsDayFromYear(2026);
    YearStartIsDayFromYear(2027);
    YearStartIsDayFromYear(2028);
  }

  datatype Civil = Civil(y: int, m: int, d: int)

  predicate ValidCivil(c: Civil) {
    1 <= c.m <= 12 && 1 <= c.d <= MonthLength(c.m, Leap(c.y))
  }

  /** MakeDay of section 21.4.1: a month or day outside its range carries over. */
  function MakeDay(y: int, month0: int, d: int): int {
    var ym := y + month0 / 12;
    YearStart(ym) + MonthStart(month0 % 12 + 1, Leap(ym)) + d - 1
  }

  function DayOf(c: Civil): int {
    YearStart(c.y) + MonthStart(c.m, Leap(c.y)) + c.d - 1
  }

  lemma MakeDayOfValid(c: Civil)
    requires 1 <= c.m <= 12
    ensures MakeDay(c.y, c.m - 1, c.d) == DayOf(c)
  {
  }

  lemma YearSteps(y: int)
    ensures YearStart(y + 1) == YearStart(y) + YearLength(y)
  {
  }

  lemma {:induction false} YearsGrow(a: int, b: int)
    requires a <= b
    ensures YearStart(a) + 365 * (b - a) <= YearStart(b) <= YearStart(a) + 366 * (b - a)
    decreases b - a
  {
    if a < b {
      YearSteps(a);
      YearsGrow(a + 1, b);
    }
  }

  /** The year holding day `n`, searched from year `y`. */
  function YearFrom(n: int, y: int): (r: int)
    ensures YearStart(r) <= n < YearStart(r + 1)
    decreases if n < YearStart(y) then YearStart(y) - n else 0, n - YearStart(y)
  {
    YearSteps(y);
    YearSteps(y - 1);
    if n < YearStart(y) then YearFrom(n, y - 1)
    else if YearStart(y + 1) <= n then YearFrom(n, y + 1)
    else y
  }

  function MonthFrom(k: int, leap: bool, m: int): (r: int)
    requires 1 <= m <= 12
    requires MonthStart(m, leap) <= k < MonthStart(13, leap)
    ensures m <= r <= 12 && MonthStart(r, leap) <= k < MonthStart(r + 1, leap)
    decreases 12 - m
  {
    if k < MonthStart(m + 1, leap) then m else MonthFrom(k, leap, m + 1)
  }

  function SearchCivil(n: int): (c: Civil)
    ensures ValidCivil(c) && DayOf(c) == n
  {
    var y := YearFrom(n, 1970);
    YearSteps(y);
    TwelveMonths(Leap(y));
    var k := n - YearStart(y);
    var m := MonthFrom(k, Leap(y), 1);
    Civil(y, m, k - MonthStart(m, Leap(y)) + 1)
  }

  predicate IsCivilOf(c: Civil, n: int) {
    ValidCivil(c) && DayOf(c) == n
  }

  /** The calendar date of a day: there is one, found by the search, and only one (CivilBijection). */
  ghost function CivilOf(n: int): (c: Civil)
    ensures IsCivilOf(c, n)
  {
    assert IsCivilOf(SearchCivil(n), n);
    var c :| IsCivilOf(c, n);
    c
  }

  predicate Earlier(a: Civil, b: Civil) {
    a.y < b.y || (a.y == b.y && (a.m < b.m || (a.m == b.m && a.d < b.d)))
  }

  lemma DayInYear(c: Civil)
    requires ValidCivil(c)
    ensures YearStart(c.y) <= DayOf(c) < YearStart(c.y + 1)
  {
    YearSteps(c.y);
    TwelveMonths(Leap(c.y));
    MonthsGrow(1, c.m, Leap(c.y));
    MonthsGrow(c.m + 1, 13, Leap(c.y));
  }

  lemma CivilOrder(a: Civil, b: Civil)
    requires ValidCivil(a) && ValidCivil(b)
    ensures Earlier(a, b) ==> DayOf(a) < DayOf(b)
  {
    YearSteps(a.y);
    DayInYear(a);
    DayInYear(b);
    if a.y < b.y {
      YearsGrow(a.y + 1, b.y);
    } else if a.y == b.y && a.m < b.m {
      MonthsGrow(a.m + 1, b.m, Leap(a.y));
    }
  }

  /** Day numbers and calendar dates are in bijection, and the bijection keeps the order. */
  lemma CivilBijection(a: Civil, b: Civil)
    requires ValidCivil(a) && ValidCivil(b)
    ensures CivilOf(DayOf(a)) == a
    ensures Earlier(a, b) <==> DayOf(a) < DayOf(b)
  {
    var c := CivilOf(DayOf(a));
    CivilOrder(a, c);
    CivilOrder(c, a);
    CivilOrder(a, b);
    CivilOrder(b, a);
  }

  // ---- Strings ----

  function Digit(n: int): (c: char)
    requires 0 <= n < 10
    ensures '0' <= c <= '9' && Val(c) == n
  {
    ('0' as int + n) as char
  }

  function Val(c: char): int {
    c as int - '0' as int
  }

  /** `n` in `k` digits, zero-padded. */
  function Pad(n: nat, k: nat): (s: string)
    ensures |s| == k
  {
    if k == 0 then [] else Pad(n / 10, k - 1) + [Digit(n % 10)]
  }

  function Num(s: string): int {
    if s == [] then 0 else 10 * Num(s[..|s| - 1]) + Val(s[|s| - 1])
  }

  predicate IsDigit(c: char) {
    '0' <= c <= '9'
  }

  predicate AllDigits(s: string) {
    forall i :: 0 <= i < |s| ==> IsDigit(s[i])
  }

  function Pow10(k: nat): nat {
    if k == 0 then 1 else 10 * Pow10(k - 1)
  }

  lemma {:induction false} PadRead(n: nat, k: nat)
    requires n < Pow10(k)
    ensures AllDigits(Pad(n, k)) && Num(Pad(n, k)) == n
  {
    if k > 0 {
      PadRead(n / 10, k - 1);
      assert Pad(n, k)[..k - 1] == Pad(n / 10, k - 1);
    }
  }

  lemma {:induction false} ReadPad(s: string)
    requires AllDigits(s)
    ensures 0 <= Num(s) < Pow10(|s|) && Pad(Num(s), |s|) == s
  {
    if s != [] {
      var h, c := s[..|s| - 1], s[|s| - 1];
      ReadPad(h);
      assert s == h + [c];
      TenTimes(Num(h), Val(c));
      assert Digit(Val(c)) == c;
    }
  }

  lemma TenTimes(q: int, r: int)
    requires 0 <= r < 10
    ensures (10 * q + r) / 10 == q && (10 * q + r) % 10 == r
  {
  }

  /** The shape `^\d{4}-\d{2}-\d{2}$`. */
  predicate Shaped(s: string) {
    && |s| == 10 && s[4] == '-' && s[7] == '-'
    && AllDigits(s[..4]) && AllDigits(s[5..7]) && AllDigits(s[8..])
  }

  function Fields(s: string): Civil
    requires Shaped(s)
  {
    Civil(Num(s[..4]), Num(s[5..7]), Num(s[8..]))
  }

  lemma FieldBounds(s: string)
    requires Shaped(s)
    ensures 0 <= Fields(s).y < 10000 && 0 <= Fields(s).m < 100 && 0 <= Fields(s).d < 100
  {
    ReadPad(s[..4]);
    ReadPad(s[5..7]);
    ReadPad(s[8..]);
    assert Pow10(4) == 10000 && Pow10(2) == 100;
  }

  /** `Date.UTC` reads the years 0 to 99 as 1900 to 1999. */
  function UtcYear(y: int): int {
    if 0 <= y <= 99 then 1900 + y else y
  }

  /** The day number a shaped string names, overflowing months and days carried over. */
  function DayNamed(s: string): int
    requires Shaped(s)
  {
    var c := Fields(s);
    MakeDay(UtcYear(c.y), c.m - 1, c.d)
  }

  function SpellDay(c: Civil): string
    requires 0 <= c.m && 0 <= c.d
  {
    "-" + Pad(c.m, 2) + "-" + Pad(c.d, 2)
  }

  function Spell(c: Civil): string
    requires 0 <= c.y && 0 <= c.m && 0 <= c.d
  {
    Pad(c.y, 4) + SpellDay(c)
  }

  /** `toISOString().slice(0, 10)`; outside the years 0 to 9999 the slice cuts a signed six-digit year. */
  ghost function IsoDate(n: int): string
  {
    var c := CivilOf(n);
    if 0 <= c.y < 10000 then Spell(c)
    else (if c.y < 0 then "-" + Pad(-c.y, 6) else "+" + Pad(c.y, 6)) + "-" + Pad(c.m, 2)
  }

  /** The date `days` days after day `n`, or the error of a time value out of range. */
  ghost function Shift(n: int, days: int): Result<string, DateError> {
    if -100_000_000 <= n + days < 100_000_000 then Success(IsoDate(n + days)) else Failure(InvalidTimeValue)
  }

  /**
   * The source counts in milliseconds from noon: adding whole days to a noon and cutting
   * off the time of day is adding to the day number, and the range of time values is the
   * range `Shift` tests.
   */
  lemma NoonIsDayNumber(n: int, days: int)
    ensures var t := n * MS_DAY + MS_NOON + days * MS_DAY;
            (-MAX_TIME <= t <= MAX_TIME <==> -100_000_000 <= n + days < 100_000_000) && t / MS_DAY == n + days
  {
    NoonFloor(n + days);
    assert n * MS_DAY + MS_NOON + days * MS_DAY == (n + days) * MS_DAY + MS_NOON;
  }

  lemma NoonFloor(n: int)
    ensures (n * MS_DAY + MS_NOON) / MS_DAY == n
  {
  }

  /** Rounding (as the floor of x + 1/2) the quotient of two noons' distance gives their days apart. */
  lemma NoonsApart(a: int, b: int)
    ensures (2 * ((b * MS_DAY + MS_NOON) - (a * MS_DAY + MS_NOON)) + MS_DAY) / (2 * MS_DAY) == b - a
  {
    assert (b * MS_DAY + MS_NOON) - (a * MS_DAY + MS_NOON) == (b - a) * MS_DAY;
  }

  /** `addDays`. */
  ghost function AddDays(s: string, days: int): Result<string, DateError> {
    if Shaped(s) then Shift(DayNamed(s), days) else Failure(NotACivilDate)
  }

  /** `diffDays`. */
  function DiffDays(a: string, b: string): Result<int, DateError> {
    if Shaped(a) && Shaped(b) then Success(DayNamed(b) - DayNamed(a)) else Failure(NotACivilDate)
  }

  /** JavaScript's `<` on strings: by code unit, a proper prefix first. */
  predicate LexLess(a: string, b: string) {
    if b == [] then false
    else if a == [] then true
    else a[0] < b[0] || (a[0] == b[0] && LexLess(a[1..], b[1..]))
  }

  // ---- The bridge ----

  /** Day numbers of the years 100 to 9999. */
  predicate InRange(n: int) {
    YearStart(100) <= n < YearStart(10000)
  }

  /** A string that is the spelling of a real date of the years 100 to 9999. */
  predicate Canonical(s: string) {
    Shaped(s) && ValidCivil(Fields(s)) && Fields(s).y >= 100
  }

  lemma RangeYears(n: int)
    requires InRange(n)
    ensures 100 <= CivilOf(n).y < 10000
    ensures -100_000_000 < n < 100_000_000
  {
    var c := CivilOf(n);
    DayInYear(c);
    if c.y < 100 {
      YearsGrow(c.y + 1, 100);
    }
    if c.y >= 10000 {
      YearsGrow(10000, c.y);
    }
    YearsGrow(100, 1970);
    YearsGrow(1970, 10000);
  }

  lemma SpellFields(c: Civil)
    requires 0 <= c.y < 10000 && ValidCivil(c)
    ensures Shaped(Spell(c)) && Fields(Spell(c)) == c
  {
    assert Pow10(4) == 10000 && Pow10(2) == 100;
    PadRead(c.y, 4);
    PadRead(c.m, 2);
    PadRead(c.d, 2);
    var s := Spell(c);
    assert s[..4] == Pad(c.y, 4) && s[4..] == SpellDay(c);
    assert s[5..7] == Pad(c.m, 2) && s[8..] == Pad(c.d, 2);
  }

  lemma FieldsSpell(s: string)
    requires Shaped(s)
    ensures Fields(s).y >= 0 && Fields(s).m >= 0 && Fields(s).d >= 0
    ensures Spell(Fields(s)) == s
  {
    ReadPad(s[..4]);
    ReadPad(s[5..7]);
    ReadPad(s[8..]);
    assert s[4..] == "-" + s[5..7] + "-" + s[8..];
    assert s == s[..4] + s[4..];
  }

  /** A canonical string names its own calendar date. */
  lemma DayNamedIsDayOf(s: string)
    requires Canonical(s)
    ensures DayNamed(s) == DayOf(Fields(s))
  {
    MakeDayOfValid(Fields(s));
  }

  lemma IsoDateIsSpell(c: Civil)
    requires ValidCivil(c) && 100 <= c.y < 10000
    ensures InRange(DayOf(c))
    ensures IsoDate(DayOf(c)) == Spell(c)
  {
    CivilBijection(c, c);
    DayInYear(c);
    YearsGrow(100, c.y);
    YearsGrow(c.y + 1, 10000);
    assert IsoDate(DayOf(c)) == Spell(c);
  }

  /** The canonical strings are exactly the spellings of the days in range. */
  lemma CanonicalIsDay(s: string)
    requires Canonical(s)
    ensures InRange(DayNamed(s))
    ensures IsoDate(DayNamed(s)) == s
  {
    DayNamedIsDayOf(s);
    FieldBounds(s);
    IsoDateIsSpell(Fields(s));
    FieldsSpell(s);
  }

  lemma DayIsCanonical(n: int)
    requires InRange(n)
    ensures Canonical(IsoDate(n)) && DayNamed(IsoDate(n)) == n
  {
    RangeYears(n);
    var c := CivilOf(n);
    IsoDateIsSpell(c);
    SpellFields(c);
    DayNamedIsDayOf(Spell(c));
  }

  lemma YearWindow(ym: int)
    requires 99 <= ym <= 10010
    ensures YearStart(99) <= YearStart(ym) <= 99_000_000
    ensures ym >= 100 ==> YearStart(99) < YearStart(ym)
    ensures ym >= 1900 ==> YearStart(1900) <= YearStart(ym)
  {
    YearsGrow(99, ym);
    YearsGrow(99, 1970);
    YearsGrow(99, 10010);
    YearsGrow(ym, 10010);
    YearsGrow(1970, 10010);
    if 1900 <= ym {
      YearsGrow(1900, ym);
    }
  }

  lemma CarriedYear(y: int, month0: int)
    requires 100 <= y < 10000 && -1 <= month0 <= 98
    ensures 99 <= y + month0 / 12 <= 10010
    ensures month0 >= 0 ==> y <= y + month0 / 12
    ensures y + month0 / 12 == 99 ==> month0 == -1
  {
  }

  /** Only month 00 or day 00 reaches back over a year's start. */
  lemma MonthSpan(month0: int, d: int, leap: bool)
    requires -1 <= month0 <= 98 && 0 <= d <= 99
    ensures -1 <= MonthStart(month0 % 12 + 1, leap) + d - 1 <= 464
    ensures d >= 1 ==> 0 <= MonthStart(month0 % 12 + 1, leap) + d - 1
    ensures month0 == -1 ==> 0 <= MonthStart(month0 % 12 + 1, leap) + d - 1
  {
    MonthsGrow(1, month0 % 12 + 1, leap);
    MonthsGrow(month0 % 12 + 1, 13, leap);
    TwelveMonths(leap);
  }

  lemma NamedYear(s: string)
    requires Shaped(s)
    ensures YearStart(99) <= DayNamed(s) < 100_000_000
    ensures Fields(s).y < 100 && ValidCivil(Fields(s)) ==> DayNamed(s) >= YearStart(1900)
  {
    FieldBounds(s);
    var c := Fields(s);
    var y := UtcYear(c.y);
    CarriedYear(y, c.m - 1);
    var ym := y + (c.m - 1) / 12;
    YearWindow(ym);
    MonthSpan(c.m - 1, c.d, Leap(ym));
  }

  lemma FarDateUnshaped(n: int)
    requires !(0 <= CivilOf(n).y < 10000)
    ensures !Shaped(IsoDate(n))
  {
    var s := IsoDate(n);
    assert !IsDigit(s[0]);
    assert s[..4][0] == s[0];
  }

  lemma SpelledBackIsCanonical(s: string, n: int)
    requires Shaped(s) && n == DayNamed(s) && IsoDate(n) == s
    ensures Canonical(s)
  {
    var c := CivilOf(n);
    if 0 <= c.y < 10000 {
      SpellFields(c);
      if c.y < 100 {
        // Date.UTC reads a two-digit year as 19yy, so the day would not be one of year c.y
        NamedYear(s);
        DayInYear(c);
        YearsGrow(c.y + 1, 1900);
        assert false;
      }
    } else {
      FarDateUnshaped(n);
      assert false;
    }
  }

  /** A shaped string survives `addDays(s, 0)` exactly when it is canonical. */
  lemma RoundTripIffCanonical(s: string)
    requires Shaped(s)
    ensures AddDays(s, 0) == Success(s) <==> Canonical(s)
  {
    NamedYear(s);
    YearsGrow(98, 1970);
    var n := DayNamed(s);
    if Canonical(s) {
      CanonicalIsDay(s);
    } else if IsoDate(n) == s {
      SpelledBackIsCanonical(s, n);
    }
  }

  lemma ShiftStaysCanonical(n: int, k: int)
    requires InRange(n + k)
    ensures Shift(n, k).Success? && Canonical(Shift(n, k).value) && DayNamed(Shift(n, k).value) == n + k
  {
    RangeYears(n + k);
    DayIsCanonical(n + k);
  }

  /** `addDays` is addition of day numbers, and `diffDays` measures what it added. */
  lemma AddDaysIsAddition(s: string, k: int)
    requires Canonical(s) && InRange(DayNamed(s) + k)
    ensures var r := AddDays(s, k); r.Success? && Canonical(r.value) && DayNamed(r.value) == DayNamed(s) + k
                                      && DiffDays(s, r.value) == Success(k)
  {
    ShiftStaysCanonical(DayNamed(s), k);
  }

  lemma {:induction false} LexAppend(a: string, b: string, u: string, v: string)
    requires |a| == |b|
    ensures LexLess(a + u, b + v) <==> (LexLess(a, b) || (a == b && LexLess(u, v)))
  {
    if a == [] {
      assert a + u == u && b + v == v;
    } else {
      LexAppend(a[1..], b[1..], u, v);
      assert (a + u)[1..] == a[1..] + u && (b + v)[1..] == b[1..] + v;
      assert a == [a[0]] + a[1..] && b == [b[0]] + b[1..];
    }
  }

  /** Equally padded numbers compare as numbers. */
  lemma {:induction false} PadOrder(a: nat, b: nat, k: nat)
    requires a < Pow10(k) && b < Pow10(k)
    ensures LexLess(Pad(a, k), Pad(b, k)) <==> a < b
    ensures Pad(a, k) == Pad(b, k) <==> a == b
  {
    PadRead(a, k);
    PadRead(b, k);
    if k > 0 {
      PadOrder(a / 10, b / 10, k - 1);
      LexAppend(Pad(a / 10, k - 1), Pad(b / 10, k - 1), [Digit(a % 10)], [Digit(b % 10)]);
      DigitOrder(a % 10, b % 10);
    }
  }

  lemma DigitOrder(a: nat, b: nat)
    requires a < 10 && b < 10
    ensures LexLess([Digit(a)], [Digit(b)]) <==> a < b
  {
  }

  lemma SpellDayOrder(a: Civil, b: Civil)
    requires 1 <= a.m <= 12 && 1 <= a.d <= 31 && 1 <= b.m <= 12 && 1 <= b.d <= 31
    ensures LexLess(SpellDay(a), SpellDay(b)) <==> a.m < b.m || (a.m == b.m && a.d < b.d)
  {
    assert Pow10(2) == 100;
    PadOrder(a.m, b.m, 2);
    PadOrder(a.d, b.d, 2);
    var ma, mb := "-" + Pad(a.m, 2), "-" + Pad(b.m, 2);
    LexAppend("-", "-", Pad(a.m, 2), Pad(b.m, 2));
    LexAppend(ma, mb, "-" + Pad(a.d, 2), "-" + Pad(b.d, 2));
    LexAppend("-", "-", Pad(a.d, 2), Pad(b.d, 2));
    assert ma[1..] == Pad(a.m, 2) && mb[1..] == Pad(b.m, 2);
    assert SpellDay(a) == ma + ("-" + Pad(a.d, 2)) && SpellDay(b) == mb + ("-" + Pad(b.d, 2));
  }

  lemma SpellOrder(a: Civil, b: Civil)
    requires 0 <= a.y < 10000 && ValidCivil(a) && 0 <= b.y < 10000 && ValidCivil(b)
    ensures LexLess(Spell(a), Spell(b)) <==> Earlier(a, b)
  {
    assert Pow10(4) == 10000;
    PadOrder(a.y, b.y, 4);
    SpellDayOrder(a, b);
    LexAppend(Pad(a.y, 4), Pad(b.y, 4), SpellDay(a), SpellDay(b));
  }

  /** The string order the clock compares with is the order of days, and the string determines the day. */
  lemma StringOrderIsDayOrder(s: string, t: string)
    requires Canonical(s) && Canonical(t)
    ensures LexLess(s, t) <==> DayNamed(s) < DayNamed(t)
    ensures s == t <==> DayNamed(s) == DayNamed(t)
  {
    var a, b := Fields(s), Fields(t);
    FieldsSpell(s);
    FieldsSpell(t);
    FieldBounds(s);
    FieldBounds(t);
    SpellOrder(a, b);
    CivilBijection(a, b);
    CivilBijection(b, a);
    DayNamedIsDayOf(s);
    DayNamedIsDayOf(t);
  }

  /** Adding the difference of two dates to the first reaches the second. */
  lemma DiffThenAdd(s: string, t: string, j: int)
    requires Canonical(s) && Canonical(t) && DiffDays(s, t) == Success(j)
    ensures AddDays(s, j) == Success(t)
  {
    ShiftReaches(DayNamed(s), t, j);
  }

  lemma ShiftReaches(n: int, t: string, j: int)
    requires Canonical(t) && DayNamed(t) == n + j
    ensures Shift(n, j) == Success(t)
  {
    CanonicalIsDay(t);
    RangeYears(n + j);
  }

  /** A canonical string spells one day only. */
  lemma SpelledOnce(t: string, n: int)
    requires Canonical(t) && IsoDate(n) == t
    ensures n == DayNamed(t)
  {
    var c := CivilOf(n);
    if 0 <= c.y < 10000 {
      SpellFields(c);
      DayNamedIsDayOf(t);
    } else {
      FarDateUnshaped(n);
      assert false;
    }
  }

  /** `addDays` composes, errors included: adding `k` to `addDays(s, j)` is adding `j + k`. */
  lemma AddDaysComposes(s: string, t: string, j: int, k: int)
    requires Canonical(s) && Canonical(t) && AddDays(s, j) == Success(t)
    ensures AddDays(t, k) == AddDays(s, j + k)
  {
    SpelledOnce(t, DayNamed(s) + j);
    assert DayNamed(t) + k == DayNamed(s) + (j + k);
  }

  /** Off the canonical strings the two orders part: "2026-02-30" names 2 March 2026. */
  lemma UnrealDatesMisorder()
    ensures Shaped("2026-02-30") && !Canonical("2026-02-30") && Canonical("2026-03-01")
    ensures LexLess("2026-02-30", "2026-03-01") && DayNamed("2026-02-30") > DayNamed("2026-03-01")
  {
    UnrealFields();
    RealFields();
    UnrealLess();
    NamedParts("2026-02-30");
    NamedParts("2026-03-01");
  }

  lemma UnrealLess()
    ensures LexLess("2026-02-30", "2026-03-01")
  {
    LexAppend("2026-0", "2026-0", "2-30", "3-01");
    assert "2026-02-30" == "2026-0" + "2-30" && "2026-03-01" == "2026-0" + "3-01";
  }

  lemma UnrealFields()
    ensures Shaped("2026-02-30") && Fields("2026-02-30") == Civil(2026, 2, 30)
  {
    var s := "2026-02-30";
    assert s[..4] == "2026" && s[5..7] == "02" && s[8..] == "30";
    NumFour();
    NumPair('0', '2');
    NumPair('3', '0');
  }

  lemma RealFields()
    ensures Shaped("2026-03-01") && Fields("2026-03-01") == Civil(2026, 3, 1)
  {
    var t := "2026-03-01";
    assert t[..4] == "2026" && t[5..7] == "03" && t[8..] == "01";
    NumFour();
    NumPair('0', '3');
    NumPair('0', '1');
  }

  lemma NumFour()
    ensures Num("2026") == 2026
  {
    NumPair('2', '0');
    assert "2026"[..3] == "202" && "202"[..2] == "20";
    assert Num("202") == 202;
  }

  lemma NumPair(a: char, b: char)
    ensures Num([a, b]) == 10 * Val(a) + Val(b)
  {
    assert [a, b][..1] == [a] && [a][..0] == [];
    assert Num([a]) == Val(a);
  }

  lemma NamedParts(s: string)
    requires Shaped(s) && Fields(s).y >= 100 && 1 <= Fields(s).m <= 12
    ensures DayNamed(s) == DayOf(Fields(s))
  {
    MakeDayOfValid(Fields(s));
  }
}
