/**
 * packages/case-lifecycle/calendar.ts: the business-day calendar behind the SLA promise,
 * on day numbers.
 */
module BusinessCalendar {
  import opened CivilDates
  import opened WorkDays

  /** The federal and Texas holidays of 2026 to 2028 the calendar observes; HolidayDates spells them. */
  const HOLIDAYS: set<int> := {
    // 2026
    20454, 20472, 20500, 20514, 20564, 20598, 20623, 20637,
    20703, 20768, 20783, 20812,
    // 2027
    20819, 20836, 20864, 20879, 20929, 20969, 20987, 21004,
    21067, 21133, 21147, 21176,
    // 2028
    21184, 21200, 21235, 21245, 21295, 21333, 21354, 21369,
    21431, 21498, 21511, 21543
  }

  lemma HolidayDates()
    ensures DayOf(Civil(2026, 1, 1)) == 20454 && DayOf(Civil(2026, 1, 19)) == 20472
    ensures DayOf(Civil(2026, 2, 16)) == 20500 && DayOf(Civil(2026, 3, 2)) == 20514
    ensures DayOf(Civil(2026, 4, 21)) == 20564 && DayOf(Civil(2026, 5, 25)) == 20598
    ensures DayOf(Civil(2026, 6, 19)) == 20623 && DayOf(Civil(2026, 7, 3)) == 20637
    ensures DayOf(Civil(2026, 9, 7)) == 20703 && DayOf(Civil(2026, 11, 11)) == 20768
    ensures DayOf(Civil(2026, 11, 26)) == 20783 && DayOf(Civil(2026, 12, 25)) == 20812
    ensures DayOf(Civil(2027, 1, 1)) == 20819 && DayOf(Civil(2027, 1, 18)) == 20836
    ensures DayOf(Civil(2027, 2, 15)) == 20864 && DayOf(Civil(2027, 3, 2)) == 20879
    ensures DayOf(Civil(2027, 4, 21)) == 20929 && DayOf(Civil(2027, 5, 31)) == 20969
    ensures DayOf(Civil(2027, 6, 18)) == 20987 && DayOf(Civil(2027, 7, 5)) == 21004
    ensures DayOf(Civil(2027, 9, 6)) == 21067 && DayOf(Civil(2027, 11, 11)) == 21133
    ensures DayOf(Civil(2027, 11, 25)) == 21147 && DayOf(Civil(2027, 12, 24)) == 21176
    ensures DayOf(Civil(2028, 1, 1)) == 21184 && DayOf(Civil(2028, 1, 17)) == 21200
    ensures DayOf(Civil(2028, 2, 21)) == 21235 && DayOf(Civil(2028, 3, 2)) == 21245
    ensures DayOf(Civil(2028, 4, 21)) == 21295 && DayOf(Civil(2028, 5, 29)) == 21333
    ensures DayOf(Civil(2028, 6, 19)) == 21354 && DayOf(Civil(2028, 7, 4)) == 21369
    ensures DayOf(Civil(2028, 9, 4)) == 21431 && DayOf(Civil(2028, 11, 10)) == 21498
    ensures DayOf(Civil(2028, 11, 23)) == 21511 && DayOf(Civil(2028, 12, 25)) == 21543
  {
    TableYears();
    MonthStarts(false);
    MonthStarts(true);
  }

  /** The days of the table are the dates above and no others. */
  lemma HolidayIsDate(n: int)
    ensures n in HOLIDAYS <==>
              || n == DayOf(Civil(2026, 1, 1)) || n == DayOf(Civil(2026, 1, 19)) || n == DayOf(Civil(2026, 2, 16))
              || n == DayOf(Civil(2026, 3, 2)) || n == DayOf(Civil(2026, 4, 21)) || n == DayOf(Civil(2026, 5, 25))
              || n == DayOf(Civil(2026, 6, 19)) || n == DayOf(Civil(2026, 7, 3)) || n == DayOf(Civil(2026, 9, 7))
              || n == DayOf(Civil(2026, 11, 11)) || n == DayOf(Civil(2026, 11, 26)) || n == DayOf(Civil(2026, 12, 25))
              || n == DayOf(Civil(2027, 1, 1)) || n == DayOf(Civil(2027, 1, 18)) || n == DayOf(Civil(2027, 2, 15))
              || n == DayOf(Civil(2027, 3, 2)) || n == DayOf(Civil(2027, 4, 21)) || n == DayOf(Civil(2027, 5, 31))
              || n == DayOf(Civil(2027, 6, 18)) || n == DayOf(Civil(2027, 7, 5)) || n == DayOf(Civil(2027, 9, 6))
              || n == DayOf(Civil(2027, 11, 11)) || n == DayOf(Civil(2027, 11, 25)) || n == DayOf(Civil(2027, 12, 24))
              || n == DayOf(Civil(2028, 1, 1)) || n == DayOf(Civil(2028, 1, 17)) || n == DayOf(Civil(2028, 2, 21))
              || n == DayOf(Civil(2028, 3, 2)) || n == DayOf(Civil(2028, 4, 21)) || n == DayOf(Civil(2028, 5, 29))
              || n == DayOf(Civil(2028, 6, 19)) || n == DayOf(Civil(2028, 7, 4)) || n == DayOf(Civil(2028, 9, 4))
              || n == DayOf(Civil(2028, 11, 10)) || n == DayOf(Civil(2028, 11, 23)) || n == DayOf(Civil(2028, 12, 25))
  {
    HolidayDates();
  }

  lemma HolidaysSparse()
    ensures Sparse(HOLIDAYS)
  {
  }

  predicate IsBusinessDay(n: int) {
    Working(n, HOLIDAYS)
  }

  /** The business days of the interval (s, e]. */
  ghost function Count(s: int, e: int): nat
    decreases e - s
  {
    if e <= s then 0 else Count(s, e - 1) + if IsBusinessDay(e) then 1 else 0
  }

  ghost function NextBusinessDay(n: int): int {
    FirstWorking(n + 1, HOLIDAYS)
  }

  lemma NextIsLeast(n: int)
    ensures n < NextBusinessDay(n) && IsBusinessDay(NextBusinessDay(n))
    ensures forall k :: n < k < NextBusinessDay(n) ==> !IsBusinessDay(k)
  {
    HolidaysSparse();
    FirstWorkingIsLeast(n + 1, HOLIDAYS);
  }

  /** The `n`-th business day after `s`. */
  ghost function Nth(s: int, n: nat): int {
    if n == 0 then s else NextBusinessDay(Nth(s, n - 1))
  }

  /** `addBusinessDays`: walk forward a day at a time until `days` business days have passed. */
  method AddBusinessDays(start: int, days: int) returns (d: int)
    ensures d == if days <= 0 then start else Nth(start, days)
  {
    d := start;
    var remaining := days;
    NextIsLeast(d);
    while remaining > 0
      invariant d >= start && remaining <= days
      invariant days <= 0 ==> d == start
      invariant days > 0 ==> remaining >= 0 && Count(start, d) == days - remaining
      invariant remaining == 0 && days > 0 ==> d > start && IsBusinessDay(d)
      invariant NextBusinessDay(d) > d && IsBusinessDay(NextBusinessDay(d))
      decreases remaining, NextBusinessDay(d) - d
    {
      NextIsLeast(d);
      NextIsLeast(d + 1);
      d := d + 1;
      if IsBusinessDay(d) {
        remaining := remaining - 1;
      }
    }
    if days > 0 {
      AddIsNth(start, days, d);
    }
  }

  /** `businessDaysBetween`. */
  method BusinessDaysBetween(start: int, end: int) returns (n: nat)
    ensures n == Count(start, end)
  {
    var d := start;
    n := 0;
    while d < end
      invariant d <= end || d == start
      invariant n == Count(start, d)
    {
      d := d + 1;
      if IsBusinessDay(d) {
        n := n + 1;
      }
    }
  }

  lemma {:induction false} CountSplits(s: int, m: int, e: int)
    requires s <= m <= e
    ensures Count(s, e) == Count(s, m) + Count(m, e)
    decreases e - m
  {
    if m < e {
      CountSplits(s, m, e - 1);
    }
  }

  lemma {:induction false} CountGap(s: int, e: int)
    requires s <= e && forall k :: s < k <= e ==> !IsBusinessDay(k)
    ensures Count(s, e) == 0
    decreases e - s
  {
    if s < e {
      CountGap(s, e - 1);
    }
  }

  lemma {:induction false} NthCounts(s: int, n: nat)
    ensures s <= Nth(s, n) && Count(s, Nth(s, n)) == n
    ensures n > 0 ==> s < Nth(s, n) && IsBusinessDay(Nth(s, n)) && Count(s, Nth(s, n) - 1) == n - 1
  {
    if n > 0 {
      NthCounts(s, n - 1);
      var p := Nth(s, n - 1);
      NextIsLeast(p);
      CountSplits(s, p, Nth(s, n) - 1);
      CountGap(p, Nth(s, n) - 1);
    }
  }

  /**
   * Adding and counting are adjoint: at least `n` business days lie in (s, e] exactly when the n-th
   * is on or before `e`.
   */
  lemma AddCountAdjoint(s: int, e: int, n: nat)
    requires s <= e
    ensures Count(s, e) >= n <==> Nth(s, n) <= e
  {
    NthCounts(s, n);
    if Nth(s, n) <= e {
      CountSplits(s, Nth(s, n), e);
    } else if n > 0 {
      CountSplits(s, e, Nth(s, n) - 1);
    }
  }

  /** The n-th business day is the business day with `n` business days up to it. */
  lemma AddIsNth(s: int, n: nat, d: int)
    requires n == 0 ==> d == s
    requires n > 0 ==> s < d && IsBusinessDay(d) && Count(s, d) == n
    ensures d == Nth(s, n)
  {
    NthCounts(s, n);
    if n > 0 {
      AddCountAdjoint(s, d, n);
      AddCountAdjoint(s, d - 1, n);
    }
  }

  /** Adding in two goes is adding at once. */
  lemma {:induction false} NthAdditive(s: int, a: nat, b: nat)
    ensures Nth(Nth(s, a), b) == Nth(s, a + b)
  {
    if b > 0 {
      NthAdditive(s, a, b - 1);
    }
  }
}
