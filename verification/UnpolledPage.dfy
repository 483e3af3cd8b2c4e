/**
 * A page that subscribed before the first publish and does not poll: what the fold of
 * apps/web/lib/progress-feed.ts makes of at-least-once delivery, and of events alike.
 */
module UnpolledPage {
  import opened Wrappers
  import opened Progress
  import opened ProgressFeed
  import opened OutboxProtocol

  // ---- The specification: each event of a log, once and in order ----

  function InOrder(c: string, log: seq<Row>): seq<Event> {
    if log == [] then [] else Receive(c, InOrder(c, log[..|log| - 1]), log[|log| - 1])
  }

  /** The page holds an exactly-once prefix. */
  ghost predicate Followed(c: string, log: seq<Row>, wire: seq<nat>, page: Page) {
    && page.delivered <= |wire| && High(wire[..page.delivered]) <= |log|
    && page.runs == InOrder(c, log[..High(wire[..page.delivered])])
  }

  // ---- Receiving again, receiving next ----

  lemma {:induction false} HeardBefore(c: string, log: seq<Row>, i: nat)
    requires i < |log|
    ensures Receive(c, InOrder(c, log), log[i]) == InOrder(c, log)
  {
    var n := |log| - 1;
    if i < n {
      HeardBefore(c, log[..n], i);
    }
  }

  lemma HearNext(c: string, log: seq<Row>, h: nat)
    requires h < |log|
    ensures Receive(c, InOrder(c, log[..h]), log[h]) == InOrder(c, log[..h + 1])
  {
    assert log[..h + 1][..h] == log[..h];
  }

  /** Hearing an old row or the next one leaves the page at an exactly-once prefix. */
  lemma Heard(c: string, log: seq<Row>, h: nat, id: nat)
    requires id <= h <= |log| && id < |log|
    ensures Receive(c, InOrder(c, log[..h]), log[id]) == InOrder(c, log[..if id < h then h else id + 1])
  {
    if id < h {
      HeardBefore(c, log[..h], id);
      assert log[..h][id] == log[id];
    } else {
      HearNext(c, log, h);
    }
  }

  // ---- A page subscribed from the start that never polls ----

  ghost predicate NeverPolls(labels: seq<Label>) {
    forall k :: 0 <= k < |labels| ==> !labels[k].Open? && !labels[k].Answer?
  }

  ghost predicate Follows(c: string, s: Spine) {
    Followed(c, s.log, s.wire, s.page)
  }

  lemma DeliverFollows(c: string, s: Spine, f: nat)
    requires Inv(s, f) && Follows(c, s)
    ensures Follows(c, Step(c, s, Deliver))
  {
    if s.page.delivered < |s.wire| {
      HighPrefix(s.wire, s.page.delivered);
      Heard(c, s.log, High(s.wire[..s.page.delivered]), s.wire[s.page.delivered]);
    }
  }

  lemma RedeliverFollows(c: string, s: Spine, f: nat, k: nat)
    requires Inv(s, f) && Follows(c, s)
    ensures Follows(c, Step(c, s, Redeliver(k)))
  {
    if k < s.page.delivered {
      var h := High(s.wire[..s.page.delivered]);
      HighBounds(s.wire, s.page.delivered);
      HeardBefore(c, s.log[..h], s.wire[k]);
      assert s.log[..h][s.wire[k]] == s.log[s.wire[k]];
    }
  }

  lemma StepFollows(c: string, s: Spine, f: nat, l: Label)
    requires Inv(s, f) && Follows(c, s) && !l.Open? && !l.Answer?
    ensures Follows(c, Step(c, s, l))
  {
    match l {
      case Append(row) =>
        assert (s.log + [row])[..High(s.wire[..s.page.delivered])] == s.log[..High(s.wire[..s.page.delivered])];
      case PublishOne =>
        if s.tx.Some? && s.tx.value.done < |s.tx.value.rows| {
          WirePublish(s.wire, s.tx.value.rows[s.tx.value.done], |s.log|, s.page.delivered);
        }
      case Deliver => DeliverFollows(c, s, f);
      case Redeliver(k) => RedeliverFollows(c, s, f, k);
      case _ =>
    }
  }

  lemma {:induction false} RunFollows(c: string, labels: seq<Label>)
    requires NeverPolls(labels)
    ensures Follows(c, Run(c, START, labels))
  {
    if labels != [] {
      var before := labels[..|labels| - 1];
      RunFollows(c, before);
      var f := RunKeeps(c, before);
      StepFollows(c, Run(c, START, before), f, labels[|labels| - 1]);
    }
  }

  /**
   * Under any interleaving of appends, partial batches, crashes and redeliveries, a page that
   * does not poll holds what exactly-once, in-order delivery of a prefix of the log gives it.
   */
  lemma FeedIsExactlyOnce(c: string, labels: seq<Label>)
    requires NeverPolls(labels)
    ensures var s := Run(c, START, labels);
            s.page.delivered <= |s.wire| && Seen(s) <= |s.log|
            && s.page.runs == InOrder(c, s.log[..Seen(s)])
            && TimelineOf(s.page.runs) == TimelineOf(InOrder(c, s.log[..Seen(s)]))
  {
    RunFollows(c, labels);
  }

  // ---- Events alike ----

  lemma EventsSnoc(c: string, log: seq<Row>, row: Row)
    ensures EventsOf(c, log + [row]) == EventsOf(c, log) + if row.caseId == c then [row.event] else []
  {
    assert (log + [row])[..|log|] == log;
  }

  lemma ItemsSnoc(events: seq<Event>, e: Event)
    ensures RunItems(events + [e]) == RunItems(events) + if IsRunEvent(e) then [RunEventItem(e)] else []
  {
    assert (events + [e])[..|events|] == events;
  }

  lemma RowSnoc(c: string, log: seq<Row>, row: Row)
    ensures RunItems(EventsOf(c, log + [row]))
         == RunItems(EventsOf(c, log)) + if RunRow(c, row) then [RunEventItem(row.event)] else []
    ensures InOrder(c, log + [row]) == Receive(c, InOrder(c, log), row)
  {
    EventsSnoc(c, log, row);
    ItemsSnoc(EventsOf(c, log), row.event);
    assert (log + [row])[..|log|] == log;
    if row.caseId != c {
      assert EventsOf(c, log + [row]) == EventsOf(c, log);
    }
  }

  /** The page holds each item once, and just those of the case's run events. */
  lemma {:induction false} InOrderItems(c: string, log: seq<Row>)
    ensures NoRepeats(InOrder(c, log))
    ensures forall x :: x in InOrder(c, log) <==> x in RunItems(EventsOf(c, log))
    ensures |InOrder(c, log)| <= |RunItems(EventsOf(c, log))|
  {
    if log != [] {
      var n := |log| - 1;
      InOrderItems(c, log[..n]);
      assert log == log[..n] + [log[n]];
      RowSnoc(c, log[..n], log[n]);
    }
  }

  /** Exactly-once delivery holds every run event of the case exactly when no two of them project alike. */
  lemma {:induction false} DistinctKeptAll(c: string, log: seq<Row>)
    ensures InOrder(c, log) == RunItems(EventsOf(c, log)) <==> NoRepeats(RunItems(EventsOf(c, log)))
  {
    InOrderItems(c, log);
    if log != [] {
      var n := |log| - 1;
      var before, after := RunItems(EventsOf(c, log[..n])), RunItems(EventsOf(c, log));
      assert log == log[..n] + [log[n]];
      RowSnoc(c, log[..n], log[n]);
      DistinctKeptAll(c, log[..n]);
      InOrderItems(c, log[..n]);
      if NoRepeats(after) {
        assert before == after[..|before|];
        if RunRow(c, log[n]) {
          assert after[|before|] == RunEventItem(log[n].event);
        }
      }
    }
  }

  /** The row's event is dropped: the page holds one like it. */
  predicate Dropped(c: string, log: seq<Row>, n: nat)
    requires n < |log|
  {
    RunRow(c, log[n]) && RunEventItem(log[n].event) in InOrder(c, log[..n])
  }

  /** After `n` rows the page shows the timeline of the case's events. */
  predicate InPace(c: string, log: seq<Row>, n: nat)
    requires n <= |log|
  {
    TimelineOf(InOrder(c, log[..n])) == TimelineOf(EventsOf(c, log[..n]))
  }

  lemma {:induction false} ItemHasEvent(events: seq<Event>, item: Event) returns (k: nat)
    requires item in RunItems(events)
    ensures k < |events| && RunEventItem(events[k]) == item
  {
    var n := |events| - 1;
    if IsRunEvent(events[n]) && RunEventItem(events[n]) == item {
      k := n;
    } else {
      k := ItemHasEvent(events[..n], item);
    }
  }

  lemma FoldSnoc(events: seq<Event>, e: Event)
    ensures TimelineOf(events + [e]) == Fold1(TimelineOf(events), e)
  {
    assert (events + [e])[..|events|] == events;
  }

  lemma PaceStep(c: string, log: seq<Row>, n: nat)
    requires n < |log| && InPace(c, log, n)
    ensures InPace(c, log, n + 1) <==>
            (Dropped(c, log, n) ==> Shown(TimelineOf(EventsOf(c, log[..n])), log[n].event))
  {
    var rows, row := log[..n], log[n];
    var held, events := InOrder(c, rows), EventsOf(c, rows);
    assert log[..n + 1] == rows + [row];
    RowSnoc(c, rows, row);
    EventsSnoc(c, rows, row);
    FoldSnoc(events, row.event);
    if Dropped(c, log, n) {
      InOrderItems(c, rows);
      var k := ItemHasEvent(events, RunEventItem(row.event));
      RepeatChangesNothing(events, k, row.event);
    } else if RunRow(c, row) {
      FoldSnoc(held, RunEventItem(row.event));
      ProjectionFolds(TimelineOf(held), row.event);
    } else if row.caseId != c {
      assert EventsOf(c, log[..n + 1]) == events;
    }
  }

  /** Each row of the first `h` that is dropped was shown already. */
  ghost predicate DroppedWereShown(c: string, log: seq<Row>, h: nat)
    requires h <= |log|
  {
    forall n :: 0 <= n < h && Dropped(c, log, n) ==> Shown(TimelineOf(EventsOf(c, log[..n])), log[n].event)
  }

  /**
   * A page that hears the first `h` rows once, in order, shows the timeline of the case's
   * events after each of them, if and only if every event dropped as a duplicate was one the
   * timeline showed already.
   */
  lemma AlikeEventsExactly(c: string, log: seq<Row>, h: nat)
    requires h <= |log|
    ensures (forall n :: 0 <= n <= h ==> InPace(c, log, n)) <==> DroppedWereShown(c, log, h)
  {
    if forall n :: 0 <= n <= h ==> InPace(c, log, n) {
      forall n | 0 <= n < h && Dropped(c, log, n)
        ensures Shown(TimelineOf(EventsOf(c, log[..n])), log[n].event)
      {
        assert InPace(c, log, n) && InPace(c, log, n + 1);
        PaceStep(c, log, n);
      }
    }
    if DroppedWereShown(c, log, h) {
      forall n | 0 <= n <= h
        ensures InPace(c, log, n)
      {
        PaceKept(c, log, n);
      }
    }
  }

  lemma {:induction false} PaceKept(c: string, log: seq<Row>, n: nat)
    requires n <= |log| && DroppedWereShown(c, log, n)
    ensures InPace(c, log, n)
  {
    if n > 0 {
      PaceKept(c, log, n - 1);
      PaceStep(c, log, n - 1);
    } else {
      assert log[..0] == [];
    }
  }

  /** The page shows the timeline of the case's events on its part of the wire. */
  ghost predicate ShowsSeen(c: string, s: Spine) {
    && s.page.delivered <= |s.wire| && Seen(s) <= |s.log|
    && TimelineOf(s.page.runs) == TimelineOf(EventsOf(c, s.log[..Seen(s)]))
  }

  lemma SeenMoves(c: string, s: Spine, f: nat, l: Label)
    requires Inv(s, f) && !l.Open?
    ensures var t := Step(c, s, l);
            t.page.delivered <= |t.wire| && Seen(s) <= Seen(t) <= Seen(s) + 1 && s.log <= t.log
  {
    if l.Deliver? && s.page.delivered < |s.wire| {
      HighPrefix(s.wire, s.page.delivered);
    }
    if l.PublishOne? && s.tx.Some? && s.tx.value.done < |s.tx.value.rows| {
      WirePublish(s.wire, s.tx.value.rows[s.tx.value.done], |s.log|, s.page.delivered);
    }
  }

  /** The run's prefixes reach every position the page has seen. */
  lemma {:induction false} SeenReached(c: string, labels: seq<Label>, n: nat) returns (k: nat)
    requires NeverPolls(labels) && Follows(c, Run(c, START, labels)) && n <= Seen(Run(c, START, labels))
    ensures k <= |labels| && Follows(c, Run(c, START, labels[..k])) && Seen(Run(c, START, labels[..k])) == n
    ensures Run(c, START, labels[..k]).log <= Run(c, START, labels).log
  {
    if labels == [] || n == Seen(Run(c, START, labels)) {
      k := |labels|;
      assert labels[..k] == labels;
    } else {
      var before := labels[..|labels| - 1];
      var f := RunKeeps(c, before);
      RunFollows(c, before);
      SeenMoves(c, Run(c, START, before), f, labels[|labels| - 1]);
      k := SeenReached(c, before, n);
      assert before[..k] == labels[..k];
    }
  }

  lemma {:induction false} SeenGrows(c: string, labels: seq<Label>, k: nat)
    requires NeverPolls(labels) && k <= |labels|
    ensures Follows(c, Run(c, START, labels[..k])) && Follows(c, Run(c, START, labels))
    ensures Seen(Run(c, START, labels[..k])) <= Seen(Run(c, START, labels))
    ensures Run(c, START, labels[..k]).log <= Run(c, START, labels).log
  {
    RunFollows(c, labels);
    RunFollows(c, labels[..k]);
    if k == |labels| {
      assert labels[..k] == labels;
    } else {
      var before := labels[..|labels| - 1];
      assert before[..k] == labels[..k];
      SeenGrows(c, before, k);
      var f := RunKeeps(c, before);
      SeenMoves(c, Run(c, START, before), f, labels[|labels| - 1]);
    }
  }

  lemma ShowsIsInPace(c: string, s: Spine, log: seq<Row>)
    requires Follows(c, s) && s.log <= log
    ensures ShowsSeen(c, s) <==> InPace(c, log, Seen(s))
  {
    assert log[..Seen(s)] == s.log[..Seen(s)];
  }

  /**
   * Under any interleaving, a page that does not poll shows, after every step, the timeline of
   * the case's events it has seen, if and only if every one dropped was shown already.
   */
  lemma UnpolledTimeline(c: string, labels: seq<Label>)
    requires NeverPolls(labels)
    ensures var s := Run(c, START, labels);
            s.page.delivered <= |s.wire| && Seen(s) <= |s.log|
            && ((forall k :: 0 <= k <= |labels| ==> ShowsSeen(c, Run(c, START, labels[..k]))) <==>
                DroppedWereShown(c, s.log, Seen(s)))
  {
    var s := Run(c, START, labels);
    RunFollows(c, labels);
    AlikeEventsExactly(c, s.log, Seen(s));
    if DroppedWereShown(c, s.log, Seen(s)) {
      forall k | 0 <= k <= |labels|
        ensures ShowsSeen(c, Run(c, START, labels[..k]))
      {
        SeenGrows(c, labels, k);
        ShowsIsInPace(c, Run(c, START, labels[..k]), s.log);
      }
    }
    if forall k :: 0 <= k <= |labels| ==> ShowsSeen(c, Run(c, START, labels[..k])) {
      forall n | 0 <= n <= Seen(s)
        ensures InPace(c, s.log, n)
      {
        var k := SeenReached(c, labels, n);
        assert ShowsSeen(c, Run(c, START, labels[..k]));
        ShowsIsInPace(c, Run(c, START, labels[..k]), s.log);
      }
    }
  }

  lemma ThreeEvents(a: Event, b: Event, d: Event)
    ensures TimelineOf([a, b]) == Fold1(Fold1(EMPTY, a), b)
    ensures TimelineOf([a, b, d]) == Fold1(TimelineOf([a, b]), d)
  {
    assert [a, b, d][..2] == [a, b] && [a, b][..1] == [a] && [a][..0] == [];
    assert TimelineOf([a]) == Fold1(EMPTY, a);
  }

  lemma ThreeRows(c: string, a: Event, b: Event, d: Event)
    ensures var log := [Row(c, a), Row(c, b), Row(c, d)];
            EventsOf(c, log) == [a, b, d] && InOrder(c, log) == AddRun(AddRun(AddRun([], a), b), d)
  {
    var log := [Row(c, a), Row(c, b), Row(c, d)];
    assert log[..2] == [Row(c, a), Row(c, b)] && log[..2][..1] == [Row(c, a)] && log[..1][..0] == [];
    assert EventsOf(c, log[..1]) == [a] && EventsOf(c, log[..2]) == [a, b];
    assert InOrder(c, log[..1]) == AddRun([], a);
    assert InOrder(c, log[..2]) == AddRun(AddRun([], a), b);
  }

  /**
   * A second batch phase like the first, at the same instant: dropped, it leaves the page with a
   * check the events have ended.
   */
  lemma AlikeEventsPart(c: string, at: int)
    ensures var phase := Event(AnalysisPhase, map[PhaseKey := Str("batch")], at);
            var begun := Event(AnalysisProgress, map[Screen := Str("iac")], at);
            var log := [Row(c, phase), Row(c, begun), Row(c, phase)];
            InOrder(c, log) == [phase, begun] && TimelineOf(InOrder(c, log)).nowChecking.Some?
            && TimelineOf(EventsOf(c, log)).nowChecking.None?
  {
    var phase := Event(AnalysisPhase, map[PhaseKey := Str("batch")], at);
    var begun := Event(AnalysisProgress, map[Screen := Str("iac")], at);
    assert RunEventItem(phase) == phase && RunEventItem(begun) == begun;
    ThreeRows(c, phase, begun, phase);
    ThreeEvents(phase, begun, phase);
    assert AddRun([], phase) == [phase] && AddRun([phase], begun) == [phase, begun];
    assert ScreenOf(begun) == Some("iac");
  }
}
