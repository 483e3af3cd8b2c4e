/**
 * Days that are neither on a weekend nor in a holiday table, on day numbers (days since
 * 1970-01-01). Two tables use it: the legal holidays of TRAP 4.1(a) and the business-day
 * calendar. A table is Sparse when it never takes two Tuesdays a week apart; then a
 * working day comes within fourteen days of any day.
 */
module WorkDays {
  /** `getUTCDay`: 0 is Sunday; 1970-01-01 was a Thursday. */
  function DayOfWeek(n: int): int {
    (n + 4) % 7
  }

  predicate Weekend(n: int) {
    DayOfWeek(n) == 0 || DayOfWeek(n) == 6
  }

  /** The weekdays follow one another, and day 0 is a Thursday: weekends are days 2 and 3 of every seven. */
  lemma Weekdays(n: int)
    ensures DayOfWeek(0) == 4 && 0 <= DayOfWeek(n) < 7
    ensures DayOfWeek(n + 1) == if DayOfWeek(n) == 6 then 0 else DayOfWeek(n) + 1
    ensures Weekend(n) <==> n % 7 == 2 || n % 7 == 3
  {
  }

  predicate Working(n: int, holidays: set<int>) {
    !Weekend(n) && n !in holidays
  }

  ghost predicate Sparse(holidays: set<int>) {
    forall t {:trigger DayOfWeek(t)} :: DayOfWeek(t) == 2 ==> !(t in holidays && t + 7 in holidays)
  }

  /** Step forward over non-working days, at most `guard` times. */
  function Advance(n: int, guard: nat, holidays: set<int>): int
    decreases guard
  {
    if guard == 0 || Working(n, holidays) then n else Advance(n + 1, guard - 1, holidays)
  }

  /** The first working day on or after `n`. */
  function FirstWorking(n: int, holidays: set<int>): int {
    Advance(n, 14, holidays)
  }

  ghost predicate IsLeastWorking(r: int, n: int, holidays: set<int>) {
    && n <= r && Working(r, holidays)
    && forall k :: n <= k < r ==> !Working(k, holidays)
  }

  lemma {:induction false} AdvanceReaches(n: int, guard: nat, w: int, holidays: set<int>)
    requires n <= w <= n + guard && Working(w, holidays)
    ensures IsLeastWorking(Advance(n, guard, holidays), n, holidays)
    decreases guard
  {
    if n < w && !Working(n, holidays) {
      AdvanceReaches(n + 1, guard - 1, w, holidays);
    }
  }

  /** Some Tuesday of the next two weeks works. */
  lemma WorkingTuesday(n: int, holidays: set<int>) returns (w: int)
    requires Sparse(holidays)
    ensures n <= w <= n + 13 && Working(w, holidays)
  {
    var t := n + (9 - DayOfWeek(n)) % 7;
    assert DayOfWeek(t) == 2 && DayOfWeek(t + 7) == 2;
    w := if t in holidays then t + 7 else t;
  }

  /** The guard of fourteen steps never cuts the search short, and the search stops at the least working day. */
  lemma FirstWorkingIsLeast(n: int, holidays: set<int>)
    requires Sparse(holidays)
    ensures IsLeastWorking(FirstWorking(n, holidays), n, holidays)
    ensures FirstWorking(n, holidays) <= n + 13
  {
    var w := WorkingTuesday(n, holidays);
    AdvanceReaches(n, 14, w, holidays);
  }
}
