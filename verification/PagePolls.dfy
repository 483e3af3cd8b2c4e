/**
 * The page of apps/web/app/(daybreak)/case/[caseId]/status/page.tsx and its polls. A poll
 * replaces the run events by those of the latest run (apps/api/src/routes/intake.ts); messages
 * are folded on top. When does the page hold what the route sends?
 */
module PagePolls {
  import opened Wrappers
  import opened Progress
  import opened ProgressFeed
  import opened OutboxProtocol
  import opened UnpolledPage

  /** No row of [from, to) has a run event of the case. */
  ghost predicate NoRunRow(c: string, log: seq<Row>, from: nat, to: nat) {
    forall k :: from <= k < to && k < |log| ==> !RunRow(c, log[k])
  }

  predicate Held(c: string, log: seq<Row>, w: Window, id: nat)
    requires Spans(w, |log|) && id < |log|
  {
    RunEventItem(log[id].event) in View(c, log, w)
  }

  // ---- Windows ----

  lemma Associates<T>(a: seq<T>, b: seq<T>, d: seq<T>)
    ensures (a + b) + d == a + (b + d)
  {
  }

  function ItemOf(c: string, row: Row): seq<Event> {
    if RunRow(c, row) then [RunEventItem(row.event)] else []
  }

  lemma ItemSnoc(c: string, log: seq<Row>, row: Row)
    ensures Items(c, log + [row]) == Items(c, log) + ItemOf(c, row)
  {
    RowSnoc(c, log, row);
  }

  function Items(c: string, log: seq<Row>): seq<Event> {
    RunItems(EventsOf(c, log))
  }

  lemma ItemsAppendOne(c: string, a: seq<Row>, b: seq<Row>, row: Row)
    requires Items(c, a + b) == Items(c, a) + Items(c, b)
    ensures Items(c, a + (b + [row])) == Items(c, a) + Items(c, b + [row])
  {
    Associates(a, b, [row]);
    ItemSnoc(c, a + b, row);
    ItemSnoc(c, b, row);
    Associates(Items(c, a), Items(c, b), ItemOf(c, row));
  }

  lemma {:induction false} ItemsAppend(c: string, a: seq<Row>, b: seq<Row>)
    ensures Items(c, a + b) == Items(c, a) + Items(c, b)
  {
    if b == [] {
      assert a + b == a;
      assert Items(c, b) == [] && Items(c, a) + [] == Items(c, a);
    } else {
      var front, last := b[..|b| - 1], b[|b| - 1];
      ItemsAppend(c, a, front);
      ItemsAppendOne(c, a, front, last);
      assert b == front + [last];
    }
  }

  lemma ViewSplits(c: string, log: seq<Row>, from: nat, mid: nat, upTo: nat)
    requires from <= mid <= upTo <= |log|
    ensures View(c, log, Window(from, upTo)) == View(c, log, Window(from, mid)) + View(c, log, Window(mid, upTo))
  {
    assert log[from..upTo] == log[from..mid] + log[mid..upTo];
    ItemsAppend(c, log[from..mid], log[mid..upTo]);
  }

  lemma ViewOfOne(c: string, log: seq<Row>, id: nat)
    requires id < |log|
    ensures View(c, log, Window(id, id + 1)) == if RunRow(c, log[id]) then [RunEventItem(log[id].event)] else []
  {
    assert log[id..id + 1] == [] + [log[id]];
    RowSnoc(c, [], log[id]);
  }

  lemma BothEmpty<T>(a: seq<T>, b: seq<T>)
    ensures a + b == [] <==> a == [] && b == []
  {
    assert |a + b| == |a| + |b|;
  }

  lemma NoneSnoc(c: string, rows: seq<Row>, last: Row)
    ensures NoRunRow(c, rows + [last], 0, |rows| + 1) <==> NoRunRow(c, rows, 0, |rows|) && ItemOf(c, last) == []
  {
    assert (rows + [last])[|rows|] == last;
    assert forall k :: 0 <= k < |rows| ==> (rows + [last])[k] == rows[k];
  }

  lemma {:induction false} ItemsEmpty(c: string, rows: seq<Row>)
    ensures Items(c, rows) == [] <==> NoRunRow(c, rows, 0, |rows|)
  {
    if rows == [] {
      assert Items(c, rows) == [];
    } else {
      var front, last := rows[..|rows| - 1], rows[|rows| - 1];
      ItemsEmpty(c, front);
      ItemSnoc(c, front, last);
      BothEmpty(Items(c, front), ItemOf(c, last));
      NoneSnoc(c, front, last);
      assert rows == front + [last];
    }
  }

  /** A window sends nothing exactly when no row of it has a run event of the case. */
  lemma ViewIsEmpty(c: string, log: seq<Row>, from: nat, upTo: nat)
    requires from <= upTo <= |log|
    ensures View(c, log, Window(from, upTo)) == [] <==> NoRunRow(c, log, from, upTo)
  {
    var rows := log[from..upTo];
    ItemsEmpty(c, rows);
    assert forall k :: from <= k < upTo ==> log[k] == rows[k - from];
    assert forall k :: 0 <= k < |rows| ==> rows[k] == log[from + k];
  }

  lemma RowInView(c: string, log: seq<Row>, w: Window, id: nat)
    requires Spans(w, |log|) && w.from <= id < w.upTo && RunRow(c, log[id])
    ensures Held(c, log, w, id)
  {
    ViewSplits(c, log, w.from, id, w.upTo);
    ViewSplits(c, log, id, id + 1, w.upTo);
    ViewOfOne(c, log, id);
    assert RunEventItem(log[id].event) in View(c, log, Window(id, id + 1));
  }

  lemma ViewGrows(c: string, log: seq<Row>, more: seq<Row>, w: Window)
    requires Spans(w, |log|)
    ensures View(c, log + more, w) == View(c, log, w)
  {
    assert (log + more)[w.from..w.upTo] == log[w.from..w.upTo];
  }

  // ---- What the route sends, as far as the page can know ----

  /** The rows the page can know of: those of the latest poll received and those of its part of the wire. */
  function Known(s: Spine): nat
    requires s.page.delivered <= |s.wire|
  {
    if s.page.polled.upTo < Seen(s) then Seen(s) else s.page.polled.upTo
  }

  /** Up to and with the last of the first `n` rows that has a run event of the case. */
  function LastRun(c: string, log: seq<Row>, n: nat): (r: nat)
    requires n <= |log|
    ensures r <= n
  {
    if n == 0 then 0 else if RunRow(c, log[n - 1]) then n else LastRun(c, log, n - 1)
  }

  /** The latest run that began before row `n`, or at an earlier one. */
  function LatestStart(starts: seq<nat>, n: nat): Option<nat> {
    if starts == [] then None
    else if starts[|starts| - 1] < n then Some(starts[|starts| - 1])
    else LatestStart(starts[..|starts| - 1], n)
  }

  /** What the route reads when row `n - 1` has just been appended (RouteAtIsLatest). */
  function RouteAt(starts: seq<nat>, n: nat): Window {
    match LatestStart(starts, n)
    case Some(r) => Window(r, n)
    case None => Window(n, n)
  }

  predicate Fits(s: Spine) {
    && s.page.delivered <= |s.wire| && Known(s) <= |s.log|
    && Spans(s.page.polled, |s.log|)
  }

  /**
   * What the route read at the latest moment the page has news of: its last run event known,
   * or its latest poll if that is later.
   */
  function Moment(c: string, s: Spine): Window
    requires Fits(s)
  {
    var last := LastRun(c, s.log, Known(s));
    if last <= s.page.polled.upTo then s.page.polled else RouteAt(s.starts, last)
  }

  /** The page holds what the route sent at that moment. */
  ghost predicate InStep(c: string, s: Spine) {
    Fits(s) && Spans(Moment(c, s), |s.log|) && s.page.runs == View(c, s.log, Moment(c, s))
  }

  lemma RouteAtIsLatest(c: string, s: Spine, row: Row)
    requires StartsWithin(s.starts, |s.log|)
    ensures Latest(Step(c, s, Append(row))) == RouteAt(s.starts, |s.log| + 1)
  {
  }

  lemma {:induction false} LastRunFacts(c: string, log: seq<Row>, n: nat)
    requires n <= |log|
    ensures NoRunRow(c, log, LastRun(c, log, n), n)
    ensures LastRun(c, log, n) > 0 ==> RunRow(c, log[LastRun(c, log, n) - 1])
  {
    if n > 0 && !RunRow(c, log[n - 1]) {
      LastRunFacts(c, log, n - 1);
    }
  }

  lemma {:induction false} LastRunGrows(c: string, log: seq<Row>, row: Row, n: nat)
    requires n <= |log|
    ensures LastRun(c, log + [row], n) == LastRun(c, log, n)
  {
    if n > 0 {
      LastRunGrows(c, log, row, n - 1);
    }
  }

  lemma {:induction false} LatestStartFacts(starts: seq<nat>, n: nat, rows: nat)
    requires StartsWithin(starts, rows)
    ensures match LatestStart(starts, n)
            case Some(r) => r < n && r in starts && forall k :: 0 <= k < |starts| ==> starts[k] <= r || n <= starts[k]
            case None => forall k :: 0 <= k < |starts| ==> n <= starts[k]
  {
    if starts != [] && n <= starts[|starts| - 1] {
      LatestStartFacts(starts[..|starts| - 1], n, rows);
    }
  }

  lemma RouteAtRouted(starts: seq<nat>, n: nat, rows: nat)
    requires StartsWithin(starts, rows) && n <= rows
    ensures Routed(RouteAt(starts, n), starts, rows)
  {
    LatestStartFacts(starts, n, rows);
  }

  /** The route never goes back to an older run. */
  lemma RoutesOrdered(a: Window, b: Window, starts: seq<nat>, rows: nat)
    requires Routed(a, starts, rows) && Routed(b, starts, rows) && a.upTo < b.upTo
    ensures a.from <= b.from
  {
  }

  lemma InvFits(s: Spine, f: nat)
    requires Inv(s, f)
    ensures Fits(s)
  {
    SeenWithin(s, f);
  }

  lemma MomentFacts(c: string, s: Spine, f: nat)
    requires Inv(s, f)
    ensures Fits(s)
    ensures var w := Moment(c, s);
            Routed(w, s.starts, |s.log|) && w.upTo <= Known(s) && NoRunRow(c, s.log, w.upTo, Known(s))
  {
    InvFits(s, f);
    LastRunFacts(c, s.log, Known(s));
    RouteAtRouted(s.starts, LastRun(c, s.log, Known(s)), |s.log|);
  }

  lemma {:induction false} HighWithin(wire: seq<nat>, rows: nat)
    requires forall k :: 0 <= k < |wire| ==> wire[k] < rows
    ensures High(wire) <= rows
  {
    if wire != [] {
      HighWithin(wire[..|wire| - 1], rows);
    }
  }

  lemma SeenWithin(s: Spine, f: nat)
    requires Inv(s, f)
    ensures Seen(s) <= |s.log|
  {
    HighWithin(s.wire[..s.page.delivered], |s.log|);
  }

  /**
   * When the page can know of every run event of the case and no run has begun since, the
   * moment's list is what the route sends now.
   */
  lemma CaughtUp(c: string, s: Spine, f: nat)
    requires Inv(s, f)
    requires Fits(s) && NoRunRow(c, s.log, Known(s), |s.log|)
    requires forall k :: 0 <= k < |s.starts| ==> s.starts[k] <= Moment(c, s).from
    ensures Spans(Moment(c, s), |s.log|) && Spans(Latest(s), |s.log|)
    ensures View(c, s.log, Moment(c, s)) == View(c, s.log, Latest(s))
  {
    var w, n := Moment(c, s), |s.log|;
    MomentFacts(c, s, f);
    LatestIsRouted(s);
    if s.starts == [] {
      ViewIsEmpty(c, s.log, w.from, w.upTo);
      ViewIsEmpty(c, s.log, n, n);
    } else {
      ViewSplits(c, s.log, w.from, w.upTo, n);
      ViewIsEmpty(c, s.log, w.upTo, n);
      assert Latest(s) == Window(w.from, n);
    }
  }

  // ---- One message ----

  /** The row a step lets the page hear. */
  function HeardBy(s: Spine, l: Label): Option<nat> {
    match l
    case Deliver => if s.page.delivered < |s.wire| then Some(s.wire[s.page.delivered]) else None
    case Redeliver(k) => if k < s.page.delivered && k < |s.wire| then Some(s.wire[k]) else None
    case _ => None
  }

  /** What is heard is known, or is the next row. */
  lemma HeardWithin(c: string, s: Spine, f: nat, l: Label)
    requires Inv(s, f) && HeardBy(s, l).Some?
    ensures Fits(s) && Fits(Step(c, s, l))
    ensures var id := HeardBy(s, l).value;
            id < |s.log| && id <= Known(s)
            && Known(Step(c, s, l)) == (if id < Known(s) then Known(s) else id + 1)
            && Step(c, s, l).page.runs == Receive(c, s.page.runs, s.log[id])
  {
    InvFits(s, f);
    HighBounds(s.wire, s.page.delivered);
    if l.Deliver? {
      HighPrefix(s.wire, s.page.delivered);
    }
  }

  /**
   * A message the page can hear without harm: no run event of its case; or a row it can know
   * of, in the moment's window or like one there; or the next row, unlike those of the window,
   * if none of these is of a run older than the row's. (Like one of them, it is dropped, and
   * what is left has to be what the route sends.)
   */
  ghost predicate Harmless(c: string, s: Spine, id: nat)
    requires Fits(s) && id < |s.log| && Spans(Moment(c, s), |s.log|)
  {
    var w, v := Moment(c, s), RouteAt(s.starts, id + 1);
    RunRow(c, s.log[id]) ==>
      if id < Known(s) then Held(c, s.log, w, id)
      else if Held(c, s.log, w, id) then Spans(v, |s.log|) && View(c, s.log, w) == View(c, s.log, v)
      else NoRunRow(c, s.log, w.from, v.from)
  }

  lemma KeepsFront<T>(a: seq<T>, b: seq<T>)
    ensures a + b == b <==> a == []
  {
    if a + b == b {
      assert |a + b| == |a| + |b|;
    }
  }

  /** The next row is a run event: what the route sends then, against the page's list with the row. */
  lemma NextRow(c: string, log: seq<Row>, w: Window, v: Window, id: nat)
    requires Spans(w, |log|) && Spans(v, |log|) && w.from <= v.from && w.upTo <= id && v.upTo == id + 1
    requires NoRunRow(c, log, w.upTo, id) && RunRow(c, log[id])
    ensures View(c, log, Window(w.from, v.from)) + View(c, log, v) == View(c, log, w) + [RunEventItem(log[id].event)]
    ensures !Held(c, log, w, id) ==>
              (Receive(c, View(c, log, w), log[id]) == View(c, log, v) <==> NoRunRow(c, log, w.from, v.from))
  {
    var item := RunEventItem(log[id].event);
    ViewSplits(c, log, w.from, v.from, id + 1);
    ViewSplits(c, log, w.from, w.upTo, id + 1);
    ViewSplits(c, log, w.upTo, id, id + 1);
    ViewIsEmpty(c, log, w.upTo, id);
    ViewOfOne(c, log, id);
    assert View(c, log, Window(w.upTo, id + 1)) == [item];
    KeepsFront(View(c, log, Window(w.from, v.from)), View(c, log, v));
    ViewIsEmpty(c, log, w.from, v.from);
  }

  lemma SameMoment(c: string, s: Spine, t: Spine)
    requires Fits(s) && Fits(t) && t.log == s.log && t.starts == s.starts && t.page.polled == s.page.polled
    requires LastRun(c, t.log, Known(t)) == LastRun(c, s.log, Known(s))
    ensures Moment(c, t) == Moment(c, s)
  {
  }

  /** A row known, or no run event of the case, leaves the moment where it was. */
  lemma OldDelivery(c: string, s: Spine, f: nat, l: Label)
    requires Inv(s, f) && InStep(c, s) && HeardBy(s, l).Some? && HeardBy(s, l).value < |s.log|
    requires !RunRow(c, s.log[HeardBy(s, l).value]) || HeardBy(s, l).value < Known(s)
    ensures InStep(c, Step(c, s, l)) <==> Harmless(c, s, HeardBy(s, l).value)
  {
    HeardWithin(c, s, f, l);
    SameMoment(c, s, Step(c, s, l));
  }

  /** The next row, if a run event of the case, is the new moment. */
  lemma NextDelivery(c: string, s: Spine, f: nat, l: Label)
    requires Inv(s, f) && HeardBy(s, l).Some? && HeardBy(s, l).value < |s.log|
    requires Fits(s) && RunRow(c, s.log[HeardBy(s, l).value]) && HeardBy(s, l).value == Known(s)
    ensures Fits(Step(c, s, l)) && Moment(c, Step(c, s, l)) == RouteAt(s.starts, Known(s) + 1)
    ensures var w, v := Moment(c, s), RouteAt(s.starts, Known(s) + 1);
            && Spans(w, |s.log|) && Spans(v, |s.log|) && w.from <= v.from && w.upTo <= Known(s)
            && NoRunRow(c, s.log, w.upTo, Known(s)) && v.upTo == Known(s) + 1
  {
    HeardWithin(c, s, f, l);
    MomentFacts(c, s, f);
    RouteAtRouted(s.starts, Known(s) + 1, |s.log|);
    RoutesOrdered(Moment(c, s), RouteAt(s.starts, Known(s) + 1), s.starts, |s.log|);
  }

  /** Hearing one message in step: still in step if and only if it is harmless. */
  lemma DeliveryAfterPoll(c: string, s: Spine, f: nat, l: Label)
    requires Inv(s, f) && InStep(c, s) && HeardBy(s, l).Some?
    ensures HeardBy(s, l).value < |s.log|
    ensures InStep(c, Step(c, s, l)) <==> Harmless(c, s, HeardBy(s, l).value)
  {
    var id := HeardBy(s, l).value;
    HeardWithin(c, s, f, l);
    if !RunRow(c, s.log[id]) || id < Known(s) {
      OldDelivery(c, s, f, l);
    } else {
      NextLaw(c, s, f, l);
    }
  }

  lemma NextLaw(c: string, s: Spine, f: nat, l: Label)
    requires Inv(s, f) && InStep(c, s) && HeardBy(s, l).Some? && HeardBy(s, l).value == Known(s)
    requires Known(s) < |s.log| && RunRow(c, s.log[Known(s)])
    ensures InStep(c, Step(c, s, l)) <==> Harmless(c, s, Known(s))
  {
    var w, v := Moment(c, s), RouteAt(s.starts, Known(s) + 1);
    HeardWithin(c, s, f, l);
    NextDelivery(c, s, f, l);
    NextRow(c, s.log, w, v, Known(s));
    assert InStep(c, Step(c, s, l)) <==> Receive(c, View(c, s.log, w), s.log[Known(s)]) == View(c, s.log, v);
  }

  ghost predicate HearsHarmless(c: string, s: Spine, l: Label) {
    HeardBy(s, l).Some? ==>
      var id := HeardBy(s, l).value;
      id < |s.log| && Fits(s) && Spans(Moment(c, s), |s.log|) && Harmless(c, s, id)
  }

  /** The moment and what was sent then are the same in both states, and so is the page's list. */
  ghost predicate SameView(c: string, s: Spine, t: Spine) {
    && Fits(s) && Fits(t) && Moment(c, t) == Moment(c, s) && t.page.runs == s.page.runs
    && (Spans(Moment(c, s), |s.log|) <==> Spans(Moment(c, t), |t.log|))
    && (Spans(Moment(c, s), |s.log|) ==> View(c, t.log, Moment(c, t)) == View(c, s.log, Moment(c, s)))
  }

  lemma QuietAppend(c: string, s: Spine, f: nat, row: Row)
    requires Inv(s, f)
    ensures SameView(c, s, Step(c, s, Append(row)))
  {
    MomentFacts(c, s, f);
    LastRunGrows(c, s.log, row, Known(s));
    ViewGrows(c, s.log, [row], Moment(c, s));
  }

  lemma QuietBegin(c: string, s: Spine, f: nat)
    requires Inv(s, f)
    ensures SameView(c, s, Step(c, s, BeginRun))
  {
    MomentFacts(c, s, f);
    StartAhead(s.starts, |s.log|, LastRun(c, s.log, Known(s)));
  }

  lemma QuietPublish(c: string, s: Spine, f: nat)
    requires Inv(s, f)
    ensures SameView(c, s, Step(c, s, PublishOne))
  {
    MomentFacts(c, s, f);
    if s.tx.Some? && s.tx.value.done < |s.tx.value.rows| {
      WirePublish(s.wire, s.tx.value.rows[s.tx.value.done], |s.log|, s.page.delivered);
      assert Known(Step(c, s, PublishOne)) == Known(s);
      SameMoment(c, s, Step(c, s, PublishOne));
    }
  }

  /** Steps that let the page hear nothing and leave its polls alone change nothing. */
  lemma QuietStep(c: string, s: Spine, f: nat, l: Label)
    requires Inv(s, f) && HeardBy(s, l).None? && !l.Answer? && !l.Open?
    ensures InStep(c, Step(c, s, l)) <==> InStep(c, s)
  {
    match l {
      case Append(row) => QuietAppend(c, s, f, row);
      case BeginRun => QuietBegin(c, s, f);
      case PublishOne => QuietPublish(c, s, f);
      case _ => MomentFacts(c, s, f);
    }
  }

  lemma StartAhead(starts: seq<nat>, rows: nat, n: nat)
    requires n <= rows
    ensures RouteAt(starts + [rows], n) == RouteAt(starts, n)
  {
    assert (starts + [rows])[..|starts|] == starts;
  }

  /** One step of a page in step, other than an answered poll or a reload. */
  lemma StepStaysInStep(c: string, s: Spine, f: nat, l: Label)
    requires Inv(s, f) && InStep(c, s) && !l.Answer? && !l.Open?
    ensures InStep(c, Step(c, s, l)) <==> HearsHarmless(c, s, l)
  {
    MomentFacts(c, s, f);
    if HeardBy(s, l).Some? {
      DeliveryAfterPoll(c, s, f, l);
    } else {
      QuietStep(c, s, f, l);
    }
  }

  // ---- When all run events are unlike ----

  /** No two run events of the case project alike. */
  ghost predicate AllUnlike(c: string, log: seq<Row>) {
    NoRepeats(RunItems(EventsOf(c, log)))
  }

  lemma WholeView(c: string, log: seq<Row>)
    ensures View(c, log, Window(0, |log|)) == RunItems(EventsOf(c, log))
  {
    assert log[0..|log|] == log;
  }

  /** When all are unlike, a row outside the window is like none of it. */
  lemma NotHeldOutside(c: string, log: seq<Row>, w: Window, id: nat)
    requires Spans(w, |log|) && id < |log| && RunRow(c, log[id]) && AllUnlike(c, log)
    requires id < w.from || w.upTo <= id
    ensures !Held(c, log, w, id)
  {
    var n := |log|;
    WholeView(c, log);
    ViewOfOne(c, log, id);
    if id < w.from {
      ViewSplits(c, log, 0, id, n);
      ViewSplits(c, log, id, id + 1, n);
      ViewSplits(c, log, id + 1, w.from, n);
      ViewSplits(c, log, w.from, w.upTo, n);
      LikeNoneAfter(View(c, log, Window(0, id)), RunEventItem(log[id].event), View(c, log, Window(id + 1, w.from)),
                    View(c, log, w), View(c, log, Window(w.upTo, n)));
    } else {
      ViewSplits(c, log, 0, w.from, n);
      ViewSplits(c, log, w.from, w.upTo, n);
      ViewSplits(c, log, w.upTo, id, n);
      ViewSplits(c, log, id, id + 1, n);
      LikeNoneBefore(View(c, log, Window(0, w.from)), View(c, log, w), View(c, log, Window(w.upTo, id)),
                     RunEventItem(log[id].event), View(c, log, Window(id + 1, n)));
    }
  }

  lemma LikeNoneAfter<T(!new)>(a: seq<T>, x: T, b: seq<T>, held: seq<T>, d: seq<T>)
    requires NoRepeats(a + ([x] + (b + (held + d))))
    ensures x !in held
  {
    var all := a + ([x] + (b + (held + d)));
    forall k | 0 <= k < |held|
      ensures held[k] != x
    {
      assert all[|a|] == x && all[|a| + 1 + |b| + k] == held[k];
    }
  }

  lemma LikeNoneBefore<T(!new)>(a: seq<T>, held: seq<T>, b: seq<T>, x: T, d: seq<T>)
    requires NoRepeats(a + (held + (b + ([x] + d))))
    ensures x !in held
  {
    var all := a + (held + (b + ([x] + d)));
    forall k | 0 <= k < |held|
      ensures held[k] != x
    {
      assert all[|a| + k] == held[k] && all[|a| + |held| + |b|] == x;
    }
  }

  /** No row with a run event of the case is in one window and not in the other. */
  ghost predicate SameRunRows(c: string, log: seq<Row>, a: Window, b: Window) {
    && NoRunRow(c, log, a.from, if a.upTo < b.from then a.upTo else b.from)
    && NoRunRow(c, log, if a.upTo < b.from then b.from else a.upTo, b.upTo)
  }

  lemma FirstHeld(c: string, log: seq<Row>, w: Window, k: nat)
    requires Spans(w, |log|) && w.from <= k < w.upTo && RunRow(c, log[k])
    ensures RunEventItem(log[k].event) in View(c, log, w)
  {
    RowInView(c, log, w, k);
  }

  /** Of unlike events two windows send the same exactly when they have the same run events' rows. */
  lemma ViewsAgree(c: string, log: seq<Row>, a: Window, b: Window)
    requires Spans(a, |log|) && Spans(b, |log|) && a.from <= b.from && a.upTo <= b.upTo && AllUnlike(c, log)
    ensures View(c, log, a) == View(c, log, b) <==> SameRunRows(c, log, a, b)
  {
    if SameRunRows(c, log, a, b) {
      if a.upTo < b.from {
        ViewIsEmpty(c, log, a.from, a.upTo);
        ViewIsEmpty(c, log, b.from, b.upTo);
      } else {
        ViewSplits(c, log, a.from, b.from, a.upTo);
        ViewSplits(c, log, b.from, a.upTo, b.upTo);
        ViewIsEmpty(c, log, a.from, b.from);
        ViewIsEmpty(c, log, a.upTo, b.upTo);
      }
    } else if k: nat :| k < |log| && RunRow(c, log[k]) && a.from <= k < a.upTo && k < b.from {
      FirstHeld(c, log, a, k);
      NotHeldOutside(c, log, b, k);
    } else {
      var k: nat :| k < |log| && RunRow(c, log[k]) && a.upTo <= k && b.from <= k < b.upTo;
      FirstHeld(c, log, b, k);
      NotHeldOutside(c, log, a, k);
    }
  }

  /** The message is a run event of a run older than the moment's. */
  ghost predicate HearsOlderRun(c: string, s: Spine, id: nat)
    requires Fits(s) && id < |s.log|
  {
    RunRow(c, s.log[id]) && id < Moment(c, s).from
  }

  /** The message is the next row, a run event, and the page holds run events of a run older than it. */
  ghost predicate HearsNewerRun(c: string, s: Spine, id: nat)
    requires Fits(s) && id < |s.log|
  {
    && RunRow(c, s.log[id]) && Known(s) <= id
    && !NoRunRow(c, s.log, Moment(c, s).from, RouteAt(s.starts, id + 1).from)
  }

  /** Of unlike events, a message does harm exactly when it is of an older run, or of a newer one. */
  lemma HarmlessWhenUnlike(c: string, s: Spine, f: nat, id: nat)
    requires Inv(s, f) && AllUnlike(c, s.log) && id < |s.log|
    ensures Fits(s) && Spans(Moment(c, s), |s.log|)
    ensures Harmless(c, s, id) <==> !HearsOlderRun(c, s, id) && !HearsNewerRun(c, s, id)
  {
    MomentFacts(c, s, f);
    var w := Moment(c, s);
    if RunRow(c, s.log[id]) {
      if w.from <= id < w.upTo {
        RowInView(c, s.log, w, id);
      } else {
        NotHeldOutside(c, s.log, w, id);
      }
    }
  }

  /**
   * An answered poll, whatever the page held: it puts the page in step if and only if it
   * misses no run event of the moment and brings none of an older run.
   */
  lemma AnswerExactly(c: string, s: Spine, f: nat, k: nat)
    requires Inv(s, f) && AllUnlike(c, s.log) && k < |s.asked|
    ensures Fits(Step(c, s, Answer(k)))
    ensures InStep(c, Step(c, s, Answer(k))) <==> SameRunRows(c, s.log, s.asked[k], Moment(c, Step(c, s, Answer(k))))
  {
    var t := Step(c, s, Answer(k));
    PageKeeps(c, s, f, Answer(k));
    MomentFacts(c, t, f);
    LastRunFacts(c, t.log, Known(t));
    var a, w := s.asked[k], Moment(c, t);
    if a.upTo < w.upTo {
      RoutesOrdered(a, w, s.starts, |s.log|);
    }
    ViewsAgree(c, s.log, a, w);
  }

  /** In particular a poll that is the latest received, read after every run event known, puts the page in step. */
  lemma PollPutsInStep(c: string, s: Spine, f: nat, k: nat)
    requires Inv(s, f) && k < |s.asked| && Later(s.page.polled, s.asked[k]) == s.asked[k]
    requires NoRunRow(c, s.log, s.asked[k].upTo, Known(s))
    ensures InStep(c, Step(c, s, Answer(k)))
  {
    var t := Step(c, s, Answer(k));
    PageKeeps(c, s, f, Answer(k));
    MomentFacts(c, t, f);
    LastRunFacts(c, t.log, Known(t));
  }

  /** Out of step, the page is out of step still after the next run event of the same run, whatever that is. */
  lemma LaggingPollBreaks(c: string, s: Spine, f: nat, l: Label)
    requires Inv(s, f) && !InStep(c, s) && HeardBy(s, l).Some? && HeardBy(s, l).value == Known(s)
    requires Fits(s) && Known(s) < |s.log| && RunRow(c, s.log[Known(s)])
    requires RunEventItem(s.log[Known(s)].event) !in s.page.runs
    requires RouteAt(s.starts, Known(s) + 1).from == Moment(c, s).from
    ensures !InStep(c, Step(c, s, l))
  {
    var id := Known(s);
    HeardWithin(c, s, f, l);
    NextDelivery(c, s, f, l);
    NextRow(c, s.log, Moment(c, s), RouteAt(s.starts, id + 1), id);
    ViewOfNone(c, s.log, Moment(c, s).from);
    SameEnd(s.page.runs, View(c, s.log, Moment(c, s)), RunEventItem(s.log[id].event));
  }

  lemma SameEnd<T>(a: seq<T>, b: seq<T>, x: T)
    ensures a + [x] == b + [x] <==> a == b
  {
    if a + [x] == b + [x] {
      assert a == (a + [x])[..|a|] && b == (b + [x])[..|b|];
    }
  }

  lemma ViewOfNone(c: string, log: seq<Row>, from: nat)
    requires from <= |log|
    ensures View(c, log, Window(from, from)) == []
  {
    assert log[from..from] == [];
  }

  // ---- Whole runs ----

  /** What each kind of step must not do: hear an older or newer run, be answered amiss, reload on known run events. */
  ghost predicate StaysRight(c: string, s: Spine, l: Label) {
    match l
    case Answer(k) =>
      var t := Step(c, s, l);
      k < |s.asked| ==> Fits(t) && SameRunRows(c, s.log, s.asked[k], Moment(c, t))
    case Open =>
      var t := Step(c, s, l);
      Fits(t) && NoRunRow(c, t.log, Moment(c, t).from, Moment(c, t).upTo)
    case _ =>
      HeardBy(s, l).Some? ==>
        var id := HeardBy(s, l).value;
        Fits(s) && id < |s.log| && !HearsOlderRun(c, s, id) && !HearsNewerRun(c, s, id)
  }

  lemma StaysRightExactly(c: string, s: Spine, f: nat, l: Label)
    requires Inv(s, f) && InStep(c, s) && AllUnlike(c, s.log)
    ensures InStep(c, Step(c, s, l)) <==> StaysRight(c, s, l)
  {
    if l.Answer? {
      if l.k < |s.asked| {
        AnswerExactly(c, s, f, l.k);
      }
    } else if l.Open? {
      var t := Step(c, s, l);
      PageKeeps(c, s, f, l);
      MomentFacts(c, t, f);
      ViewIsEmpty(c, t.log, Moment(c, t).from, Moment(c, t).upTo);
    } else {
      StepStaysInStep(c, s, f, l);
      if HeardBy(s, l).Some? {
        HeardWithin(c, s, f, l);
        HarmlessWhenUnlike(c, s, f, HeardBy(s, l).value);
      }
    }
  }

  ghost predicate AlwaysInStep(c: string, s: Spine, more: seq<Label>) {
    forall k :: 0 <= k <= |more| ==> InStep(c, Run(c, s, more[..k]))
  }

  ghost predicate AlwaysRight(c: string, s: Spine, more: seq<Label>) {
    forall k :: 0 <= k < |more| ==> StaysRight(c, Run(c, s, more[..k]), more[k])
  }

  lemma {:induction false} RunOn(c: string, s: Spine, f: nat, more: seq<Label>) returns (g: nat)
    requires Inv(s, f)
    ensures Inv(Run(c, s, more), g)
  {
    if more == [] {
      g := f;
    } else {
      g := RunOn(c, s, f, more[..|more| - 1]);
      g := StepKeeps(c, Run(c, s, more[..|more| - 1]), g, more[|more| - 1]);
    }
  }

  lemma RunSnoc(c: string, s: Spine, more: seq<Label>, k: nat)
    requires k < |more|
    ensures Run(c, s, more[..k + 1]) == Step(c, Run(c, s, more[..k]), more[k])
  {
    assert more[..k + 1][..k] == more[..k];
  }

  lemma {:induction false} LogGrows(c: string, s: Spine, more: seq<Label>, k: nat)
    requires k <= |more|
    ensures Run(c, s, more[..k]).log <= Run(c, s, more).log
    decreases |more| - k
  {
    if k < |more| {
      LogGrows(c, s, more, k + 1);
      RunSnoc(c, s, more, k);
    } else {
      assert more[..k] == more;
    }
  }

  lemma UnlikeBefore(c: string, log: seq<Row>, longer: seq<Row>)
    requires log <= longer && AllUnlike(c, longer)
    ensures AllUnlike(c, log)
  {
    assert longer == log + longer[|log|..];
    ItemsAppend(c, log, longer[|log|..]);
    var all := RunItems(EventsOf(c, longer));
    assert RunItems(EventsOf(c, log)) == all[..|RunItems(EventsOf(c, log))|];
  }

  lemma {:induction false} RightInStep(c: string, s: Spine, f: nat, more: seq<Label>, k: nat)
    requires Inv(s, f) && InStep(c, s) && k <= |more| && AllUnlike(c, Run(c, s, more).log)
    requires forall j :: 0 <= j < k ==> StaysRight(c, Run(c, s, more[..j]), more[j])
    ensures InStep(c, Run(c, s, more[..k]))
  {
    if k > 0 {
      RightInStep(c, s, f, more, k - 1);
      RightStep(c, s, f, more, k - 1);
    }
  }

  lemma RightStep(c: string, s: Spine, f: nat, more: seq<Label>, k: nat)
    requires Inv(s, f) && k < |more| && AllUnlike(c, Run(c, s, more).log) && InStep(c, Run(c, s, more[..k]))
    ensures InStep(c, Run(c, s, more[..k + 1])) <==> StaysRight(c, Run(c, s, more[..k]), more[k])
  {
    var g := RunOn(c, s, f, more[..k]);
    RunSnoc(c, s, more, k);
    LogGrows(c, s, more, k);
    UnlikeBefore(c, Run(c, s, more[..k]).log, Run(c, s, more).log);
    StaysRightExactly(c, Run(c, s, more[..k]), g, more[k]);
  }

  /**
   * From any state in step, polls, new runs and reloads included: of unlike run events, the
   * page holds after every step what the route sent at the latest moment it has news of, if
   * and only if it never hears a run event of an older run, nor of a newer run while it holds
   * some of the one before, and every answer and reload is up to date.
   */
  lemma InStepExactly(c: string, before: seq<Label>, more: seq<Label>)
    requires InStep(c, Run(c, START, before)) && AllUnlike(c, Run(c, Run(c, START, before), more).log)
    ensures AlwaysInStep(c, Run(c, START, before), more) <==> AlwaysRight(c, Run(c, START, before), more)
  {
    var s := Run(c, START, before);
    var f := RunKeeps(c, before);
    if AlwaysInStep(c, s, more) {
      forall k | 0 <= k < |more|
        ensures StaysRight(c, Run(c, s, more[..k]), more[k])
      {
        assert InStep(c, Run(c, s, more[..k])) && InStep(c, Run(c, s, more[..k + 1]));
        RightStep(c, s, f, more, k);
      }
    }
    if AlwaysRight(c, s, more) {
      forall k | 0 <= k <= |more|
        ensures InStep(c, Run(c, s, more[..k]))
      {
        RightInStep(c, s, f, more, k);
      }
    }
  }

  /** A page in step shows the timeline the route folds at that moment. */
  lemma FeedTimelineIsServerTimeline(c: string, s: Spine)
    requires InStep(c, s)
    ensures var w := Moment(c, s); TimelineOf(s.page.runs) == TimelineOf(EventsOf(c, s.log[w.from..w.upTo]))
  {
    var w := Moment(c, s);
    ProjectionKeepsTimeline(EventsOf(c, s.log[w.from..w.upTo]));
  }
}
