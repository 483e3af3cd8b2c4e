/**
 * packages/case-lifecycle/trap/rule-4-1.ts: TRAP 4.1(a) computation of time. Dates are
 * day numbers (CivilDates proves the bridge to the YYYY-MM-DD strings of the source).
 */
module Rule41 {
  import opened Wrappers
  import opened CivilDates
  import opened WorkDays

  /** Tex. Gov't Code section 662.003 holidays of 2026 and 2027; LegalHolidayDates spells them. */
  const LEGAL_HOLIDAYS: set<int> := {
    // 2026
    20454, 20472, 20500, 20514, 20564, 20598, 20623, 20638,
    20692, 20703, 20768, 20783, 20784, 20811, 20812, 20813,
    // 2027
    20819, 20836, 20837, 20864, 20879, 20929, 20969, 20988,
    21003, 21057, 21067, 21133, 21147, 21148, 21176, 21177,
    21178
  }

  lemma LegalHolidayDates()
    ensures DayOf(Civil(2026, 1, 1)) == 20454 && DayOf(Civil(2026, 1, 19)) == 20472
    ensures DayOf(Civil(2026, 2, 16)) == 20500 && DayOf(Civil(2026, 3, 2)) == 20514
    ensures DayOf(Civil(2026, 4, 21)) == 20564 && DayOf(Civil(2026, 5, 25)) == 20598
    ensures DayOf(Civil(2026, 6, 19)) == 20623 && DayOf(Civil(2026, 7, 4)) == 20638
    ensures DayOf(Civil(2026, 8, 27)) == 20692 && DayOf(Civil(2026, 9, 7)) == 20703
    ensures DayOf(Civil(2026, 11, 11)) == 20768 && DayOf(Civil(2026, 11, 26)) == 20783
    ensures DayOf(Civil(2026, 11, 27)) == 20784 && DayOf(Civil(2026, 12, 24)) == 20811
    ensures DayOf(Civil(2026, 12, 25)) == 20812 && DayOf(Civil(2026, 12, 26)) == 20813
    ensures DayOf(Civil(2027, 1, 1)) == 20819 && DayOf(Civil(2027, 1, 18)) == 20836
    ensures DayOf(Civil(2027, 1, 19)) == 20837 && DayOf(Civil(2027, 2, 15)) == 20864
    ensures DayOf(Civil(2027, 3, 2)) == 20879 && DayOf(Civil(2027, 4, 21)) == 20929
    ensures DayOf(Civil(2027, 5, 31)) == 20969 && DayOf(Civil(2027, 6, 19)) == 20988
    ensures DayOf(Civil(2027, 7, 4)) == 21003 && DayOf(Civil(2027, 8, 27)) == 21057
    ensures DayOf(Civil(2027, 9, 6)) == 21067 && DayOf(Civil(2027, 11, 11)) == 21133
    ensures DayOf(Civil(2027, 11, 25)) == 21147 && DayOf(Civil(2027, 11, 26)) == 21148
    ensures DayOf(Civil(2027, 12, 24)) == 21176 && DayOf(Civil(2027, 12, 25)) == 21177
    ensures DayOf(Civil(2027, 12, 26)) == 21178
  {
    TableYears();
    MonthStarts(false);
  }

  /** The days of the table are the dates above and no others. */
  lemma LegalHolidayIsDate(n: int)
    ensures n in LEGAL_HOLIDAYS <==>
              || n == DayOf(Civil(2026, 1, 1)) || n == DayOf(Civil(2026, 1, 19)) || n == DayOf(Civil(2026, 2, 16))
              || n == DayOf(Civil(2026, 3, 2)) || n == DayOf(Civil(2026, 4, 21)) || n == DayOf(Civil(2026, 5, 25))
              || n == DayOf(Civil(2026, 6, 19)) || n == DayOf(Civil(2026, 7, 4)) || n == DayOf(Civil(2026, 8, 27))
              || n == DayOf(Civil(2026, 9, 7)) || n == DayOf(Civil(2026, 11, 11)) || n == DayOf(Civil(2026, 11, 26))
              || n == DayOf(Civil(2026, 11, 27)) || n == DayOf(Civil(2026, 12, 24)) || n == DayOf(Civil(2026, 12, 25))
              || n == DayOf(Civil(2026, 12, 26))
              || n == DayOf(Civil(2027, 1, 1)) || n == DayOf(Civil(2027, 1, 18)) || n == DayOf(Civil(2027, 1, 19))
              || n == DayOf(Civil(2027, 2, 15)) || n == DayOf(Civil(2027, 3, 2)) || n == DayOf(Civil(2027, 4, 21))
              || n == DayOf(Civil(2027, 5, 31)) || n == DayOf(Civil(2027, 6, 19)) || n == DayOf(Civil(2027, 7, 4))
              || n == DayOf(Civil(2027, 8, 27)) || n == DayOf(Civil(2027, 9, 6)) || n == DayOf(Civil(2027, 11, 11))
              || n == DayOf(Civil(2027, 11, 25)) || n == DayOf(Civil(2027, 11, 26)) || n == DayOf(Civil(2027, 12, 24))
              || n == DayOf(Civil(2027, 12, 25)) || n == DayOf(Civil(2027, 12, 26))
  {
    LegalHolidayDates();
  }

  lemma LegalHolidaysSparse()
    ensures Sparse(LEGAL_HOLIDAYS)
  {
  }

  /** The notes of the table: these dates of its two years fall on Saturdays and Sundays. */
  lemma WeekendNotes()
    ensures ObstacleOn(DayOf(Civil(2026, 7, 4))) == Some(Saturday)
    ensures ObstacleOn(DayOf(Civil(2026, 12, 26))) == Some(Saturday)
    ensures ObstacleOn(DayOf(Civil(2027, 6, 19))) == Some(Saturday)
    ensures ObstacleOn(DayOf(Civil(2027, 7, 4))) == Some(Sunday)
    ensures ObstacleOn(DayOf(Civil(2027, 12, 25))) == Some(Saturday)
    ensures ObstacleOn(DayOf(Civil(2027, 12, 26))) == Some(Sunday)
  {
    LegalHolidayDates();
  }

  datatype Obstacle = Saturday | Sunday | LegalHoliday(day: int)

  function ObstacleOn(n: int): Option<Obstacle> {
    if DayOfWeek(n) == 6 then Some(Saturday)
    else if DayOfWeek(n) == 0 then Some(Sunday)
    else if n in LEGAL_HOLIDAYS then Some(LegalHoliday(n))
    else None
  }

  /** TRAP 4.1(a): the first day on or after `n` that is not a Saturday, Sunday or legal holiday. */
  function Roll(n: int): int {
    FirstWorking(n, LEGAL_HOLIDAYS)
  }

  /** `rollForward`: the loop with its guard of fourteen steps. */
  method RollForward(d: int) returns (date: int, rolled: bool, reason: Option<Obstacle>)
    ensures date == Roll(d)
    ensures IsLeastWorking(date, d, LEGAL_HOLIDAYS)
    ensures reason == ObstacleOn(d) && (rolled <==> reason.Some?) && (rolled <==> date != d)
  {
    date := d;
    reason := None;
    var guard := 0;
    while guard < 14
      invariant 0 <= guard <= 14 && date == d + guard
      invariant Advance(date, 14 - guard, LEGAL_HOLIDAYS) == Roll(d)
      invariant reason == if guard == 0 then None else ObstacleOn(d)
      invariant guard > 0 ==> ObstacleOn(d).Some?
    {
      var obstacle := ObstacleOn(date);
      if obstacle.None? {
        break;
      }
      if reason.None? {
        reason := obstacle;
      }
      date := date + 1;
      guard := guard + 1;
    }
    rolled := reason.Some?;
    RollIsLeast(d);
  }

  lemma RollIsLeast(n: int)
    ensures IsLeastWorking(Roll(n), n, LEGAL_HOLIDAYS) && Roll(n) <= n + 13
  {
    LegalHolidaysSparse();
    FirstWorkingIsLeast(n, LEGAL_HOLIDAYS);
  }

  /** Rolling is monotone and idempotent: a closure onto the working days. */
  lemma RollIsClosure(a: int, b: int)
    ensures a <= b ==> Roll(a) <= Roll(b)
    ensures a <= Roll(a) && Roll(Roll(a)) == Roll(a)
    ensures Working(b, LEGAL_HOLIDAYS) && a <= b ==> Roll(a) <= b
  {
    RollIsLeast(a);
    RollIsLeast(b);
    RollIsLeast(Roll(a));
  }

  lemma RollGrows(a: int, b: int)
    requires a <= b
    ensures Roll(a) <= Roll(b)
  {
    RollIsClosure(a, b);
  }

  /** `computeDue`: the due date `days` after the trigger, rolled. */
  function Due(trigger: int, days: int): int {
    Roll(trigger + days)
  }

  /** A longer period never ends earlier. */
  lemma DueGrows(trigger: int, days: int, more: int)
    requires days <= more
    ensures Due(trigger, days) <= Due(trigger, more)
  {
    RollGrows(trigger + days, trigger + more);
  }

  /** `holidayTableCovers`: from 2026-01-01 to 2027-12-31. */
  predicate HolidayTableCovers(n: int) {
    20454 <= n <= 21183
  }

  /** The table covers exactly the two years it lists. */
  lemma CoverageYears(n: int)
    ensures HolidayTableCovers(n) <==> YearStart(2026) <= n < YearStart(2028)
    ensures n in LEGAL_HOLIDAYS ==> HolidayTableCovers(n)
  {
    TableYears();
  }
}
