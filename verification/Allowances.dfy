/** packages/case-lifecycle/pricing/allowances.ts: annual and pilot allowances. Instants are milliseconds. */
module Allowances {
  import opened Wrappers
  import opened CivilDates
  import opened PricingTime

  datatype Kind = PILOT | PUBLIC_INTEREST | OFFICE

  datatype Ledger = Ledger(kind: Kind, granted: int, used: int, startsAt: int, resetsAt: int, renews: bool,
                           tier: Option<int>)

  const PILOT_RECORDS := 15
  const PILOT_DAYS := 90
  const PUBLIC_INTEREST_RECORDS := 25

  function PilotAllowance(startedAt: int): Ledger {
    Ledger(PILOT, PILOT_RECORDS, 0, startedAt, startedAt + PILOT_DAYS * MS_DAY, false, None)
  }

  ghost function PublicInterestAllowance(yearStart: int): Ledger {
    Ledger(PUBLIC_INTEREST, PUBLIC_INTEREST_RECORDS, 0, yearStart, AddMonthsUtc(yearStart, 12), true, None)
  }

  /** An unknown tier is refused. */
  ghost function OfficeAllowance(tier: int, yearStart: int): Option<Ledger> {
    if tier == 50 || tier == 120 || tier == 250
    then Some(Ledger(OFFICE, tier, 0, yearStart, AddMonthsUtc(yearStart, 12), true, Some(tier)))
    else None
  }

  datatype Refusal = NOT_STARTED | PERIOD_ENDED | EXHAUSTED

  datatype Decrement = Covered(ledger: Ledger, remaining: int) | NotCovered(reason: Refusal, remaining: int)

  function Remaining(l: Ledger): int {
    if l.granted - l.used > 0 then l.granted - l.used else 0
  }

  /** `decrementAllowance`. */
  function DecrementAllowance(l: Ledger, t: int): Decrement {
    if t < l.startsAt then NotCovered(NOT_STARTED, Remaining(l))
    else if t >= l.resetsAt then NotCovered(PERIOD_ENDED, Remaining(l))
    else if Remaining(l) <= 0 then NotCovered(EXHAUSTED, 0)
    else Covered(Ledger(l.kind, l.granted, l.used + 1, l.startsAt, l.resetsAt, l.renews, l.tier), Remaining(l) - 1)
  }

  ghost function RenewAllowance(l: Ledger): Option<Ledger> {
    if !l.renews then None
    else Some(Ledger(l.kind, l.granted, 0, l.resetsAt, AddMonthsUtc(l.resetsAt, 12), l.renews, l.tier))
  }

  predicate Sound(l: Ledger) {
    0 <= l.used <= l.granted
  }

  predicate InPeriod(l: Ledger, t: int) {
    l.startsAt <= t < l.resetsAt
  }

  /**
   * A record is covered exactly inside the period while some is left; then one is used, and used
   * never passes granted.
   */
  lemma DecrementLaw(l: Ledger, t: int)
    requires Sound(l)
    ensures var d := DecrementAllowance(l, t);
            (d.Covered? <==> InPeriod(l, t) && l.used < l.granted)
            && (d.Covered? ==> Sound(d.ledger) && d.ledger.used == l.used + 1 && d.ledger.granted == l.granted
                               && d.ledger.startsAt == l.startsAt && d.ledger.resetsAt == l.resetsAt
                               && d.ledger.kind == l.kind && d.ledger.renews == l.renews && d.ledger.tier == l.tier
                               && d.remaining == l.granted - d.ledger.used)
            && (d.NotCovered? && d.reason == EXHAUSTED ==> l.used == l.granted)
  {
  }

  /** The ledger after `n` renewals. */
  ghost function Renewed(l: Ledger, n: nat): (r: Ledger)
    requires l.renews
    ensures r.renews
  {
    if n == 0 then l else RenewAllowance(Renewed(l, n - 1)).value
  }

  /** Each period starts where the one before ended, and ends later. */
  lemma {:induction false} PeriodsFollow(l: Ledger, m: nat, n: nat)
    requires l.renews && l.startsAt < l.resetsAt && m <= n
    ensures Renewed(l, n).startsAt < Renewed(l, n).resetsAt
    ensures l.startsAt + n <= Renewed(l, n).startsAt
    ensures m < n ==> Renewed(l, m).resetsAt <= Renewed(l, n).startsAt
    ensures Renewed(l, n).granted == l.granted && (n > 0 ==> Renewed(l, n).used == 0)
  {
    if n > 0 {
      PeriodsFollow(l, if m < n then m else n - 1, n - 1);
      YearLater(Renewed(l, n - 1).resetsAt);
    }
  }

  lemma {:induction false} PeriodReached(l: Ledger, t: int, n: nat) returns (k: nat)
    requires l.renews && l.startsAt < l.resetsAt && l.startsAt <= t < Renewed(l, n).resetsAt
    ensures InPeriod(Renewed(l, k), t)
  {
    if n == 0 || Renewed(l, n).startsAt <= t {
      k := n;
    } else {
      k := PeriodReached(l, t, n - 1);
    }
  }

  lemma PeriodsApart(l: Ledger, m: nat, n: nat, t: int)
    requires l.renews && l.startsAt < l.resetsAt && InPeriod(Renewed(l, m), t) && InPeriod(Renewed(l, n), t)
    ensures m >= n
  {
    if m < n {
      PeriodsFollow(l, m, n);
    }
  }

  /** Renewed periods tile time: from the first start on, every instant lies in exactly one. */
  lemma PeriodsTile(l: Ledger, t: int) returns (n: nat)
    requires l.renews && l.startsAt < l.resetsAt && l.startsAt <= t
    ensures InPeriod(Renewed(l, n), t) && forall m: nat :: InPeriod(Renewed(l, m), t) ==> m == n
  {
    n := SomePeriod(l, t);
    forall m: nat | InPeriod(Renewed(l, m), t)
      ensures m == n
    {
      PeriodsApart(l, m, n, t);
      PeriodsApart(l, n, m, t);
    }
  }

  lemma SomePeriod(l: Ledger, t: int) returns (n: nat)
    requires l.renews && l.startsAt < l.resetsAt && l.startsAt <= t
    ensures InPeriod(Renewed(l, n), t)
  {
    PeriodsFollow(l, t - l.startsAt, t - l.startsAt);
    n := PeriodReached(l, t, t - l.startsAt);
  }

  /** The two annual plans start such a chain, and a pilot never renews. */
  lemma AnnualPlansRenew(tier: int, start: int)
    ensures var p := PublicInterestAllowance(start); p.renews && p.startsAt < p.resetsAt && Sound(p)
    ensures OfficeAllowance(tier, start).Some? ==>
              var o := OfficeAllowance(tier, start).value;
              o.renews && o.startsAt < o.resetsAt && Sound(o) && o.granted == tier
    ensures RenewAllowance(PilotAllowance(start)).None?
  {
    YearLater(start);
  }

  // ---- The periods by the calendar ----

  /** A renewed period ends at the same time on the same civil day of the next year; 29 February gives 28 February. */
  lemma RenewsByTheYear(l: Ledger)
    requires l.renews
    ensures var r := RenewAllowance(l);
            && r.Some? && r.value.startsAt == l.resetsAt && r.value.used == 0 && r.value.granted == l.granted
            && r.value.kind == l.kind && r.value.renews && r.value.tier == l.tier
            && r.value.resetsAt % MS_DAY == l.resetsAt % MS_DAY
            && var c := CivilOf(l.resetsAt / MS_DAY);
               var last := MonthLength(c.m, Leap(UtcYear(c.y + 1)));
               r.value.resetsAt / MS_DAY == DayOf(Civil(c.y + 1, c.m, if c.d <= last then c.d else last))
  {
    var c := CivilOf(l.resetsAt / MS_DAY);
    var index := c.m - 1 + 12;
    assert index / 12 == 1 && index % 12 == c.m - 1;
    var later := DayOf(MonthsLater(c, 12));
    TimeOfDay(later, l.resetsAt % MS_DAY);
  }

  lemma TimeOfDay(day: int, ms: int)
    requires 0 <= ms < MS_DAY
    ensures (day * MS_DAY + ms) / MS_DAY == day && (day * MS_DAY + ms) % MS_DAY == ms
  {
  }

  /** What each plan grants: 15 records in 90 days; 25 a year; the tier bought, 50, 120 or 250, a year. */
  lemma PlansGrant(tier: int, start: int)
    ensures var p := PilotAllowance(start);
            && p.kind == PILOT && p.granted == 15 && p.used == 0
            && p.startsAt == start && p.resetsAt == start + 90 * 86_400_000 && !p.renews
    ensures var q := PublicInterestAllowance(start);
            && q.kind == PUBLIC_INTEREST && q.granted == 25 && q.used == 0 && q.startsAt == start
            && q.resetsAt == AddMonthsUtc(start, 12) && q.renews
    ensures var o := OfficeAllowance(tier, start);
            && (o.Some? <==> tier == 50 || tier == 120 || tier == 250)
            && (o.Some? ==> o.value.kind == OFFICE && o.value.tier == Some(tier) && o.value.granted == tier
                            && o.value.used == 0 && o.value.startsAt == start
                            && o.value.resetsAt == AddMonthsUtc(start, 12) && o.value.renews)
  {
  }

  /** Each refusal, exactly, and what is left then: too early; else too late; else used up. */
  lemma DecrementRefused(l: Ledger, t: int)
    requires Sound(l)
    ensures var d := DecrementAllowance(l, t);
            && (d == NotCovered(NOT_STARTED, l.granted - l.used) <==> t < l.startsAt)
            && (d == NotCovered(PERIOD_ENDED, l.granted - l.used) <==> l.startsAt <= t && l.resetsAt <= t)
            && (d == NotCovered(EXHAUSTED, 0) <==> InPeriod(l, t) && l.used == l.granted)
  {
  }
}
