/**
 * packages/case-lifecycle/deadlines.ts and `federalWindowEndDate` of bottom-line.ts: the
 * AEDPA year of 28 U.S.C. section 2244(d), on day numbers. The code sums clipped
 * intervals, one writ at a time; the specification counts days one at a time.
 */
module Deadlines {
  import opened Wrappers
  import T = TrapChain

  const AEDPA_DAYS := 365
  const LACHES_URGENCY_YEARS := 5

  /** A state writ; an undisposed one is still pending. */
  datatype Writ = Writ(filed: int, disposed: Option<int>)

  datatype Inputs = Inputs(judgment: int, motionForNewTrial: bool, coaJudgment: Option<int>, pdrDisposed: Option<int>,
                           certDisposed: Option<int>, writs: seq<Writ>, asOf: int)

  datatype CopyKey = Running | Tolled | Expired

  datatype Posture = Posture(finality: int, daysElapsed: int, daysTolled: int, daysRemaining: int, expired: bool,
                             estimatedExpiry: Option<int>, tollingNow: bool, copyKey: CopyKey, lachesUrgency: bool)

  function Max(a: int, b: int): int {
    if a >= b then a else b
  }

  function Min(a: int, b: int): int {
    if a <= b then a else b
  }

  /** `computeFinality`: the latest stage of direct review controls. */
  function ComputeFinality(i: Inputs): int {
    if i.certDisposed.Some? then i.certDisposed.value
    else if i.pdrDisposed.Some? then i.pdrDisposed.value + 90
    else if i.coaJudgment.Some? then i.coaJudgment.value + 30
    else i.judgment + if i.motionForNewTrial then 90 else 30
  }

  /** One writ's share of the loop: its pendency clipped to [finality, asOf]. */
  function Clip(w: Writ, finality: int, asOf: int): int {
    var start := Max(w.filed - finality, 0);
    var endRaw := if w.disposed.Some? then w.disposed.value - finality else asOf - finality;
    var end := Min(endRaw, asOf - finality);
    if end > start then end - start else 0
  }

  predicate PendingNow(w: Writ, asOf: int) {
    w.disposed.None? && asOf - w.filed >= 0
  }

  function SumClips(ws: seq<Writ>, finality: int, asOf: int): int {
    if ws == [] then 0 else SumClips(ws[..|ws| - 1], finality, asOf) + Clip(ws[|ws| - 1], finality, asOf)
  }

  function PostureOf(i: Inputs): Posture {
    var finality := ComputeFinality(i);
    var tolled := SumClips(i.writs, finality, i.asOf);
    var tollingNow := exists k :: 0 <= k < |i.writs| && PendingNow(i.writs[k], i.asOf);
    var elapsed := Max(Max(i.asOf - finality, 0) - tolled, 0);
    var remaining := Max(AEDPA_DAYS - elapsed, 0);
    var expired := remaining == 0;
    Posture(finality, elapsed, tolled, remaining, expired,
            if expired || tollingNow then None else Some(i.asOf + remaining), tollingNow,
            if expired then Expired else if tollingNow then Tolled else Running,
            i.asOf - finality > LACHES_URGENCY_YEARS * 365)
  }

  /** `computeDeadlinePosture`. */
  method ComputeDeadlinePosture(i: Inputs) returns (p: Posture)
    ensures p == PostureOf(i)
  {
    var finality := ComputeFinality(i);
    var tolled, tollingNow := 0, false;
    for k := 0 to |i.writs|
      invariant tolled == SumClips(i.writs[..k], finality, i.asOf)
      invariant tollingNow <==> exists j :: 0 <= j < k && PendingNow(i.writs[j], i.asOf)
    {
      var w := i.writs[k];
      assert i.writs[..k + 1][..k] == i.writs[..k];
      tolled := tolled + Clip(w, finality, i.asOf);
      if PendingNow(w, i.asOf) {
        tollingNow := true;
      }
    }
    assert i.writs[..|i.writs|] == i.writs;
    var elapsed := Max(Max(i.asOf - finality, 0) - tolled, 0);
    var remaining := Max(AEDPA_DAYS - elapsed, 0);
    var expired := remaining == 0;
    p := Posture(finality, elapsed, tolled, remaining, expired,
                 if expired || tollingNow then None else Some(i.asOf + remaining), tollingNow,
                 if expired then Expired else if tollingNow then Tolled else Running,
                 i.asOf - finality > LACHES_URGENCY_YEARS * 365);
  }

  /** `federalWindowEndDate`, fed from a posture as `bottomLine` feeds it. */
  function FederalWindowEnd(p: Posture): Option<int> {
    if p.tollingNow then None
    else if !p.expired then p.estimatedExpiry
    else Some(p.finality + (AEDPA_DAYS + p.daysTolled))
  }

  // ---- Specification: days one at a time ----

  predicate Pending(w: Writ, day: int) {
    w.filed <= day && (w.disposed.Some? ==> day < w.disposed.value)
  }

  /** How many writs are pending on a day. */
  function PendingCount(ws: seq<Writ>, day: int): nat {
    if ws == [] then 0 else PendingCount(ws[..|ws| - 1], day) + if Pending(ws[|ws| - 1], day) then 1 else 0
  }

  /** Days of [from, to) on which no writ is pending. */
  ghost function FreeDays(ws: seq<Writ>, from: int, to: int): nat
    decreases to - from
  {
    if to <= from then 0 else FreeDays(ws, from, to - 1) + if PendingCount(ws, to - 1) == 0 then 1 else 0
  }

  /** Days of [from, to) on which some writ is pending. */
  ghost function PausedDays(ws: seq<Writ>, from: int, to: int): nat
    decreases to - from
  {
    if to <= from then 0 else PausedDays(ws, from, to - 1) + if PendingCount(ws, to - 1) > 0 then 1 else 0
  }

  /** No day of [from, to) has two writs pending. */
  ghost predicate NoDoubleDay(ws: seq<Writ>, from: int, to: int) {
    forall d :: from <= d < to ==> PendingCount(ws, d) <= 1
  }

  /** The writs' periods do not overlap: one is disposed of before the other is filed, or is empty. */
  ghost predicate Apart(a: Writ, b: Writ) {
    || (a.disposed.Some? && (a.disposed.value <= b.filed || a.disposed.value <= a.filed))
    || (b.disposed.Some? && (b.disposed.value <= a.filed || b.disposed.value <= b.filed))
  }

  ghost predicate Disjoint(ws: seq<Writ>) {
    forall j, k :: 0 <= j < k < |ws| ==> Apart(ws[j], ws[k])
  }

  lemma {:induction false} SomePending(ws: seq<Writ>, d: int)
    ensures PendingCount(ws, d) > 0 <==> exists k :: 0 <= k < |ws| && Pending(ws[k], d)
    ensures (exists j, k :: 0 <= j < k < |ws| && Pending(ws[j], d) && Pending(ws[k], d)) <==> PendingCount(ws, d) >= 2
  {
    if ws != [] {
      var n := |ws| - 1;
      SomePending(ws[..n], d);
      if PendingCount(ws, d) >= 2 && Pending(ws[n], d) {
        var k :| 0 <= k < n && Pending(ws[..n][k], d);
        assert Pending(ws[k], d) && Pending(ws[n], d);
      }
    }
  }

  lemma DisjointHasNoDoubleDay(ws: seq<Writ>, from: int, to: int)
    requires Disjoint(ws)
    ensures NoDoubleDay(ws, from, to)
  {
    forall d | from <= d < to
      ensures PendingCount(ws, d) <= 1
    {
      SomePending(ws, d);
    }
  }

  // ---- The interval sum counts each day once per pending writ ----

  lemma {:induction false} SumStep(ws: seq<Writ>, finality: int, t: int)
    requires finality <= t
    ensures SumClips(ws, finality, t + 1) == SumClips(ws, finality, t) + PendingCount(ws, t)
  {
    if ws != [] {
      SumStep(ws[..|ws| - 1], finality, t);
    }
  }

  lemma {:induction false} SumBeforeFinality(ws: seq<Writ>, finality: int, t: int)
    requires t <= finality
    ensures SumClips(ws, finality, t) == 0
  {
    if ws != [] {
      SumBeforeFinality(ws[..|ws| - 1], finality, t);
    }
  }

  /** The sum never undercounts the paused days, and is exact precisely when no day is counted twice. */
  lemma {:induction false} SumCountsPausedDays(ws: seq<Writ>, finality: int, t: int)
    ensures SumClips(ws, finality, t) >= PausedDays(ws, finality, t)
    ensures SumClips(ws, finality, t) == PausedDays(ws, finality, t) <==> NoDoubleDay(ws, finality, t)
    ensures FreeDays(ws, finality, t) + PausedDays(ws, finality, t) == Max(t - finality, 0)
    decreases t - finality
  {
    if t <= finality {
      SumBeforeFinality(ws, finality, t);
    } else {
      SumCountsPausedDays(ws, finality, t - 1);
      SumStep(ws, finality, t - 1);
      assert NoDoubleDay(ws, finality, t) <==> NoDoubleDay(ws, finality, t - 1) && PendingCount(ws, t - 1) <= 1;
    }
  }

  /**
   * `daysElapsed` is the number of days from finality to `asOf` on which no writ was
   * pending, exactly when no day in between had two writs pending or no day was free.
   */
  lemma ElapsedIsFreeDays(i: Inputs)
    ensures var f := ComputeFinality(i); var free := FreeDays(i.writs, f, i.asOf);
            PostureOf(i).daysElapsed == free <==> NoDoubleDay(i.writs, f, i.asOf) || free == 0
  {
    SumCountsPausedDays(i.writs, ComputeFinality(i), i.asOf);
  }

  /** With disjoint writs the count is exact and the clamp at zero is never active. */
  lemma DisjointElapsed(i: Inputs)
    requires Disjoint(i.writs)
    ensures var f := ComputeFinality(i);
            PostureOf(i).daysElapsed == FreeDays(i.writs, f, i.asOf) == Max(i.asOf - f, 0) - PostureOf(i).daysTolled
  {
    var f := ComputeFinality(i);
    DisjointHasNoDoubleDay(i.writs, f, i.asOf);
    SumCountsPausedDays(i.writs, f, i.asOf);
  }

  lemma {:induction false} FreeDaysGrow(ws: seq<Writ>, from: int, t: int, u: int)
    requires t <= u
    ensures FreeDays(ws, from, t) <= FreeDays(ws, from, u) <= FreeDays(ws, from, t) + (u - t)
    decreases u - t
  {
    if t < u {
      FreeDaysGrow(ws, from, t, u - 1);
    }
  }

  function At(i: Inputs, t: int): Inputs {
    i.(asOf := t)
  }

  /** As time passes the elapsed days never fall and grow by at most one a day: an expired year stays expired. */
  lemma ElapsedMonotone(i: Inputs, t: int, u: int)
    requires Disjoint(i.writs) && t <= u
    ensures var p, q := PostureOf(At(i, t)), PostureOf(At(i, u));
            p.daysElapsed <= q.daysElapsed <= p.daysElapsed + (u - t) && (p.expired ==> q.expired)
  {
    DisjointElapsed(At(i, t));
    DisjointElapsed(At(i, u));
    FreeDaysGrow(i.writs, ComputeFinality(i), t, u);
  }

  lemma {:induction false} LaterWritChangesNothingBefore(ws: seq<Writ>, w: Writ, from: int, t: int)
    requires t <= w.filed
    ensures FreeDays(ws + [w], from, t) == FreeDays(ws, from, t)
    decreases t - from
  {
    if from < t {
      LaterWritChangesNothingBefore(ws, w, from, t - 1);
      assert (ws + [w])[..|ws|] == ws;
    }
  }

  lemma DisjointPrefix(ws: seq<Writ>, w: Writ)
    requires Disjoint(ws + [w])
    ensures Disjoint(ws)
  {
    forall j, k | 0 <= j < k < |ws|
      ensures Apart(ws[j], ws[k])
    {
      assert Apart((ws + [w])[j], (ws + [w])[k]);
    }
  }

  /** A writ filed once the year has expired never revives it. */
  lemma LateWritNeverRevives(i: Inputs, w: Writ, u: int)
    requires PostureOf(i).expired && i.asOf <= w.filed && i.asOf <= u
    requires Disjoint(i.writs + [w])
    ensures PostureOf(i.(writs := i.writs + [w], asOf := u)).expired
  {
    DisjointPrefix(i.writs, w);
    var with := i.(writs := i.writs + [w]);
    LaterWritChangesNothingBefore(i.writs, w, ComputeFinality(i), i.asOf);
    DisjointElapsed(i);
    DisjointElapsed(with);
    ElapsedMonotone(with, i.asOf, u);
  }

  /**
   * With any writs at all: from one day to the next the elapsed days fall exactly when two or
   * more writs were pending that day and some days had elapsed.
   */
  lemma ElapsedFallsExactly(i: Inputs, t: int)
    requires ComputeFinality(i) <= t
    ensures var p, q := PostureOf(At(i, t)), PostureOf(At(i, t + 1)); var pending := PendingCount(i.writs, t);
            (q.daysElapsed < p.daysElapsed <==>
               pending >= 2 && WritDays(i.writs, ComputeFinality(i), t) < t - ComputeFinality(i))
  {
    SumIsWritDays(i.writs, ComputeFinality(i), t);
    SumStep(i.writs, ComputeFinality(i), t);
  }

  /** The days of [from, to), each counted once for every writ pending on it. */
  ghost function WritDays(ws: seq<Writ>, from: int, to: int): nat
    decreases to - from
  {
    if to <= from then 0 else WritDays(ws, from, to - 1) + PendingCount(ws, to - 1)
  }

  lemma {:induction false} SumIsWritDays(ws: seq<Writ>, finality: int, t: int)
    ensures SumClips(ws, finality, t) == WritDays(ws, finality, t)
    decreases t - finality
  {
    if t <= finality {
      SumBeforeFinality(ws, finality, t);
    } else {
      SumIsWritDays(ws, finality, t - 1);
      SumStep(ws, finality, t - 1);
    }
  }

  lemma {:induction false} WritDaysSplit(ws: seq<Writ>, from: int, t: int, u: int)
    requires from <= t <= u
    ensures WritDays(ws, from, u) == WritDays(ws, from, t) + WritDays(ws, t, u)
    decreases u - t
  {
    if t < u {
      WritDaysSplit(ws, from, t, u - 1);
    }
  }

  /** With any writs: the year is expired exactly when the days since finality exceed the writ days by 365. */
  lemma ExpiredExactly(i: Inputs, t: int)
    ensures var f := ComputeFinality(i);
            PostureOf(At(i, t)).expired <==> WritDays(i.writs, f, t) + AEDPA_DAYS <= t - f
  {
    SumIsWritDays(i.writs, ComputeFinality(i), t);
  }

  /**
   * With any writs: a year expired at `t` is expired on every day up to `last` exactly when in
   * no stretch from `t` do the writ days outnumber the days by more than there were to spare.
   */
  lemma StaysExpiredExactly(i: Inputs, t: int, last: int)
    requires PostureOf(At(i, t)).expired && t <= last
    ensures (forall u :: t <= u <= last ==> PostureOf(At(i, u)).expired) <==> WritsAfford(i, t, last)
  {
    ExpiredExactly(i, t);
    forall u | t <= u <= last
      ensures PostureOf(At(i, u)).expired <==> WritDays(i.writs, t, u) <= u - t + DaysToSpare(i, t)
    {
      ExpiredExactly(i, u);
      WritDaysSplit(i.writs, ComputeFinality(i), t, u);
    }
    if forall u :: t <= u <= last ==> PostureOf(At(i, u)).expired {
      forall u | t <= u <= last
        ensures WritDays(i.writs, t, u) <= u - t + DaysToSpare(i, t)
      {
        assert PostureOf(At(i, u)).expired;
      }
    }
  }

  ghost function DaysToSpare(i: Inputs, t: int): int {
    t - ComputeFinality(i) - AEDPA_DAYS - WritDays(i.writs, ComputeFinality(i), t)
  }

  ghost predicate WritsAfford(i: Inputs, t: int, last: int) {
    forall u :: t <= u <= last ==> WritDays(i.writs, t, u) <= u - t + DaysToSpare(i, t)
  }

  lemma {:induction false} SingleWritDays(ws: seq<Writ>, t: int, u: int)
    requires t <= u && NoDoubleDay(ws, t, u)
    ensures WritDays(ws, t, u) <= u - t
    decreases u - t
  {
    if t < u {
      SingleWritDays(ws, t, u - 1);
    }
  }

  /** An expired year stays expired as long as no later day has two writs pending, however the earlier ones overlap. */
  lemma ExpiredWhileSingle(i: Inputs, t: int, u: int)
    requires PostureOf(At(i, t)).expired && t <= u && NoDoubleDay(i.writs, t, u)
    ensures PostureOf(At(i, u)).expired
  {
    ExpiredExactly(i, t);
    ExpiredExactly(i, u);
    WritDaysSplit(i.writs, ComputeFinality(i), t, u);
    SingleWritDays(i.writs, t, u);
  }

  /** Overlapping writs do revive it: two pending at once take two days off for each day that passes. */
  lemma OverlapRevives()
    ensures var w := Writ(365, None); var i := Inputs(-30, false, None, None, None, [w, w], 365);
            PostureOf(i).expired && !PostureOf(At(i, 366)).expired && !Disjoint(i.writs)
  {
    var w := Writ(365, None);
    var i := Inputs(-30, false, None, None, None, [w, w], 365);
    assert [w, w][..1] == [w] && [w][..0] == [];
    assert SumClips([w], 0, 365) == Clip(w, 0, 365) == 0 && SumClips([w], 0, 366) == Clip(w, 0, 366) == 1;
    assert SumClips([w, w], 0, 365) == 0 && SumClips([w, w], 0, 366) == 2;
    assert !Apart(i.writs[0], i.writs[1]);
  }

  // ---- From where the year runs ----

  ghost predicate RunsFrom(i: Inputs, day: int) {
    forall t :: PostureOf(At(i, t)).daysElapsed == if t <= day then 0 else t - day
  }

  /**
   * With no writs, days elapse from the end of the latest stage of direct review reached,
   * whatever the earlier stages say: certiorari disposed of; else 90 days after the petition
   * for discretionary review was; else the days the clock gives for that petition, after the
   * court of appeals' judgment; else those it gives for the notice of appeal.
   */
  lemma RunsFromLastStage(i: Inputs)
    requires i.writs == []
    ensures i.certDisposed.Some? ==> RunsFrom(i, i.certDisposed.value)
    ensures i.certDisposed.None? && i.pdrDisposed.Some? ==> RunsFrom(i, i.pdrDisposed.value + 90)
    ensures i.certDisposed.None? && i.pdrDisposed.None? && i.coaJudgment.Some? ==>
              RunsFrom(i, i.coaJudgment.value + T.VectorById(T.IdPdr).days)
    ensures i.certDisposed.None? && i.pdrDisposed.None? && i.coaJudgment.None? ==>
              forall r :: RunsFrom(i, i.judgment + T.VectorById(T.BaseOf(T.Noa, T.Modes(i.motionForNewTrial, r))).days)
  {
  }

  /** With writs, the day found above is the finality the posture reports, which the laws of this module count from. */
  lemma FinalityIsLastStage(i: Inputs, day: int)
    requires RunsFrom(i.(writs := []), day)
    ensures PostureOf(i).finality == day
  {
    var none := i.(writs := []);
    var f := ComputeFinality(i);
    assert PostureOf(At(none, f + 1)).daysElapsed == 1;
    assert PostureOf(At(none, f)).daysElapsed == 0;
  }

  /** The rest of the posture, in days: 365 in the year, urgency after more than 1825. */
  lemma PostureInDays(i: Inputs)
    ensures var p := PostureOf(i);
            && 0 <= p.daysRemaining <= 365 && (p.daysElapsed <= 365 ==> p.daysElapsed + p.daysRemaining == 365)
            && (p.expired <==> p.daysElapsed >= 365) && (p.lachesUrgency <==> i.asOf - p.finality > 1825)
            && (p.tollingNow <==>
                  exists k :: 0 <= k < |i.writs| && i.writs[k].disposed.None? && i.writs[k].filed <= i.asOf)
            && (p.copyKey == Expired <==> p.expired) && (p.copyKey == Tolled <==> !p.expired && p.tollingNow)
            && (p.estimatedExpiry.Some? <==> !p.expired && !p.tollingNow)
            && (p.estimatedExpiry.Some? ==> p.estimatedExpiry.value == i.asOf + p.daysRemaining)
            && (FederalWindowEnd(p).None? <==> p.tollingNow)
  {
    assert forall k :: 0 <= k < |i.writs| ==>
      (PendingNow(i.writs[k], i.asOf) <==> i.writs[k].disposed.None? && i.writs[k].filed <= i.asOf);
  }

  // ---- Where the window ends ----

  /** `x` is the first day on which the year has run out. */
  ghost predicate FirstExpired(ws: seq<Writ>, finality: int, x: int) {
    FreeDays(ws, finality, x) >= AEDPA_DAYS && FreeDays(ws, finality, x - 1) < AEDPA_DAYS
  }

  ghost predicate DisposedBy(ws: seq<Writ>, t: int) {
    forall k :: 0 <= k < |ws| ==> ws[k].disposed.Some? && ws[k].disposed.value <= t
  }

  /** The first expired day is where the posture flips. */
  lemma FirstExpiredIsFirst(i: Inputs, x: int, t: int)
    requires Disjoint(i.writs) && FirstExpired(i.writs, ComputeFinality(i), x)
    ensures PostureOf(At(i, t)).expired <==> x <= t
  {
    var f := ComputeFinality(i);
    DisjointElapsed(At(i, t));
    if x <= t {
      FreeDaysGrow(i.writs, f, x, t);
    } else {
      FreeDaysGrow(i.writs, f, t, x - 1);
    }
  }

  lemma {:induction false} FreeAfterDisposal(ws: seq<Writ>, from: int, t: int, u: int)
    requires DisposedBy(ws, t) && from <= t <= u
    ensures FreeDays(ws, from, u) == FreeDays(ws, from, t) + (u - t)
    decreases u - t
  {
    if t < u {
      FreeAfterDisposal(ws, from, t, u - 1);
      SomePending(ws, u - 1);
    }
  }

  lemma {:induction false} LastFreeDay(ws: seq<Writ>, finality: int, t: int) returns (x: int)
    requires FreeDays(ws, finality, t) >= AEDPA_DAYS
    ensures FirstExpired(ws, finality, x) && x <= t
    decreases t - finality
  {
    if FreeDays(ws, finality, t - 1) >= AEDPA_DAYS {
      x := LastFreeDay(ws, finality, t - 1);
    } else {
      x := t;
    }
  }

  /** Once every writ is disposed of, the year does run out, on one day. */
  lemma WindowEnds(i: Inputs) returns (x: int)
    requires ComputeFinality(i) <= i.asOf && DisposedBy(i.writs, i.asOf)
    ensures FirstExpired(i.writs, ComputeFinality(i), x)
  {
    FreeAfterDisposal(i.writs, ComputeFinality(i), i.asOf, i.asOf + AEDPA_DAYS);
    x := LastFreeDay(i.writs, ComputeFinality(i), i.asOf + AEDPA_DAYS);
  }

  lemma FirstExpiredDay(ws: seq<Writ>, finality: int, x: int)
    requires FirstExpired(ws, finality, x)
    ensures finality < x && FreeDays(ws, finality, x) == AEDPA_DAYS && PendingCount(ws, x - 1) == 0
  {
  }

  /** Every writ that was ever pending was filed before day `x`. */
  ghost predicate FiledBefore(ws: seq<Writ>, x: int) {
    forall k :: 0 <= k < |ws| && (ws[k].disposed.Some? ==> ws[k].filed < ws[k].disposed.value) ==> ws[k].filed < x
  }

  /** No writ is pending on any day of [x, t). */
  ghost predicate QuietFrom(ws: seq<Writ>, x: int, t: int) {
    forall d :: x <= d < t ==> PendingCount(ws, d) == 0
  }

  /** A writ filed before the year ran out paused it, so none was pending on or after the first expired day. */
  lemma FiledBeforeMeansOver(ws: seq<Writ>, finality: int, x: int, t: int)
    requires FirstExpired(ws, finality, x) && DisposedBy(ws, t)
    ensures FiledBefore(ws, x) <==> QuietFrom(ws, x, t)
  {
    FirstExpiredDay(ws, finality, x);
    SomePending(ws, x - 1);
    if FiledBefore(ws, x) {
      forall d | x <= d < t
        ensures PendingCount(ws, d) == 0
      {
        SomePending(ws, d);
        forall k | 0 <= k < |ws|
          ensures !Pending(ws[k], d)
        {
          assert !Pending(ws[k], x - 1);
        }
      }
    } else {
      var k :| 0 <= k < |ws| && ws[k].filed < ws[k].disposed.value && x <= ws[k].filed;
      SomePending(ws, ws[k].filed);
      assert Pending(ws[k], ws[k].filed);
    }
  }

  lemma {:induction false} PausedAfter(ws: seq<Writ>, finality: int, x: int, t: int)
    requires finality <= x <= t
    ensures PausedDays(ws, finality, t) >= PausedDays(ws, finality, x)
    ensures PausedDays(ws, finality, t) == PausedDays(ws, finality, x)
            <==> QuietFrom(ws, x, t)
    decreases t - x
  {
    if x < t {
      PausedAfter(ws, finality, x, t - 1);
      assert QuietFrom(ws, x, t) <==> QuietFrom(ws, x, t - 1) && PendingCount(ws, t - 1) == 0;
    }
  }

  /**
   * The date the two functions print for the window's end, open or closed, is finality +
   * 365 + tolled days; and it is the first day the posture is expired exactly when every
   * writ was filed before that day.
   */
  lemma WindowEndDate(i: Inputs, x: int)
    requires Disjoint(i.writs) && DisposedBy(i.writs, i.asOf) && ComputeFinality(i) <= i.asOf
    requires FirstExpired(i.writs, ComputeFinality(i), x)
    ensures var p := PostureOf(i); FederalWindowEnd(p) == Some(p.finality + AEDPA_DAYS + p.daysTolled)
    ensures FederalWindowEnd(PostureOf(i)) == Some(x) <==> FiledBefore(i.writs, x)
  {
    var f, ws := ComputeFinality(i), i.writs;
    DisjointElapsed(i);
    DisjointElapsed(At(i, x));
    DisjointHasNoDoubleDay(ws, f, Max(x, i.asOf));
    SumCountsPausedDays(ws, f, i.asOf);
    SumCountsPausedDays(ws, f, x);
    FirstExpiredDay(ws, f, x);
    FiledBeforeMeansOver(ws, f, x, i.asOf);
    if x <= i.asOf {
      FreeDaysGrow(ws, f, x, i.asOf);
      PausedAfter(ws, f, x, i.asOf);
    } else {
      FreeDaysGrow(ws, f, i.asOf, x - 1);
      FreeAfterDisposal(ws, f, i.asOf, x);
    }
  }

  /** A writ filed after the year ran out moves the printed end date, though not the expiry. */
  lemma LateWritMovesPrintedDate()
    ensures var i := Inputs(-30, false, None, None, None, [Writ(400, Some(410))], 500);
            FirstExpired(i.writs, 0, 365) && FederalWindowEnd(PostureOf(i)) == Some(375)
  {
    var w := Writ(400, Some(410));
    var i := Inputs(-30, false, None, None, None, [w], 500);
    assert [w][..0] == [];
    assert SumClips([w], 0, 500) == 10;
    FreeBeforeFiling(w, 365);
    FreeBeforeFiling(w, 364);
  }

  lemma {:induction false} FreeBeforeFiling(w: Writ, t: nat)
    requires t <= w.filed
    ensures FreeDays([w], 0, t) == t
  {
    if t > 0 {
      FreeBeforeFiling(w, t - 1);
      assert [w][..|[w]| - 1] == [];
      assert PendingCount([w], t - 1) == 0;
    }
  }
}
