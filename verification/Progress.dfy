/**
 * packages/case-lifecycle/progress.ts: the fold of a run's events into a timeline, and the
 * projection of an event the page may hold. Event payloads are maps from keys to strings,
 * integers or other values.
 */
module Progress {
  import opened Wrappers

  datatype EventType = AnalysisPhase | AnalysisProgress | ScreenCompleted
                     | DocOcrStarted | DocOcrDone | StageEntered | OtherType(name: string)

  datatype Key = Screen | Sample | SamplesTotal | ScreenIndex | ScreensTotal | PhaseKey | RequestsTotal
               | DocumentId | OtherKey(name: string)

  datatype Value = Str(s: string) | Num(n: int) | OtherValue(id: int)

  type Payload = map<Key, Value>

  datatype Event = Event(kind: EventType, payload: Payload, at: int)

  datatype Check = Check(screen: string, startedAt: Option<int>, finishedAt: Option<int>)

  datatype Now = Now(screen: string, sample: int, samplesTotal: int, screenIndex: int, screensTotal: int,
                     startedAt: int)

  datatype Phase = Context | Summary | Batch

  /** `checks` lists the Map's entries in insertion order. */
  datatype Timeline = Timeline(checks: seq<Check>, nowChecking: Option<Now>, phase: Option<Phase>,
                               screensTotal: Option<int>, requestsTotal: Option<int>)

  const EMPTY: Timeline := Timeline([], None, None, None, None)

  /** The screen an event names; an empty name counts as none. */
  function ScreenOf(e: Event): Option<string> {
    if Screen in e.payload && e.payload[Screen].Str? && e.payload[Screen].s != ""
    then Some(e.payload[Screen].s) else None
  }

  function NumberAt(p: Payload, k: Key): Option<int> {
    if k in p && p[k].Num? then Some(p[k].n) else None
  }

  function NumberOr(p: Payload, k: Key, fallback: int): int {
    if k in p && p[k].Num? then p[k].n else fallback
  }

  function PhaseOf(p: Payload): Option<Phase> {
    if PhaseKey !in p then None
    else if p[PhaseKey] == Str("context") then Some(Context)
    else if p[PhaseKey] == Str("summary") then Some(Summary)
    else if p[PhaseKey] == Str("batch") then Some(Batch)
    else None
  }

  predicate Has(checks: seq<Check>, screen: string) {
    exists k :: 0 <= k < |checks| && checks[k].screen == screen
  }

  /** The Map's entry for a screen started, added at the end when new. */
  function Started(checks: seq<Check>, screen: string, at: int): (r: seq<Check>)
    ensures |checks| <= |r| <= |checks| + 1
  {
    if checks == [] then [Check(screen, Some(at), None)]
    else if checks[0].screen == screen then
      [Check(screen, if checks[0].startedAt.Some? then checks[0].startedAt else Some(at), checks[0].finishedAt)]
      + checks[1..]
    else [checks[0]] + Started(checks[1..], screen, at)
  }

  function Finished(checks: seq<Check>, screen: string, at: int): seq<Check> {
    if checks == [] then [Check(screen, None, Some(at))]
    else if checks[0].screen == screen then [Check(screen, checks[0].startedAt, Some(at))] + checks[1..]
    else [checks[0]] + Finished(checks[1..], screen, at)
  }

  function OnPhase(t: Timeline, e: Event): Timeline {
    Timeline(t.checks, None, PhaseOf(e.payload),
             if NumberAt(e.payload, ScreensTotal).Some? then NumberAt(e.payload, ScreensTotal) else t.screensTotal,
             if NumberAt(e.payload, RequestsTotal).Some? then NumberAt(e.payload, RequestsTotal) else t.requestsTotal)
  }

  /** What a check that begins shows, as one of `count`. */
  function BegunNow(t: Timeline, e: Event, screen: string, count: nat): Now {
    Now(screen, NumberOr(e.payload, Sample, 1), NumberOr(e.payload, SamplesTotal, 1),
        NumberOr(e.payload, ScreenIndex, count),
        NumberOr(e.payload, ScreensTotal, if t.screensTotal.Some? then t.screensTotal.value else 0), e.at)
  }

  function OnProgress(t: Timeline, e: Event, screen: string): Timeline {
    var checks := Started(t.checks, screen, e.at);
    var now := BegunNow(t, e, screen, |checks|);
    Timeline(checks, Some(now), None,
             if now.screensTotal != 0 then Some(now.screensTotal) else t.screensTotal, t.requestsTotal)
  }

  function OnCompleted(t: Timeline, e: Event, screen: string): Timeline {
    Timeline(Finished(t.checks, screen, e.at),
             if t.nowChecking.Some? && t.nowChecking.value.screen == screen then None else t.nowChecking,
             if t.phase == Some(Batch) then None else t.phase, t.screensTotal, t.requestsTotal)
  }

  function Fold1(t: Timeline, e: Event): Timeline {
    if e.kind == AnalysisPhase then OnPhase(t, e)
    else if e.kind == AnalysisProgress && ScreenOf(e).Some? then OnProgress(t, e, ScreenOf(e).value)
    else if e.kind == ScreenCompleted && ScreenOf(e).Some? then OnCompleted(t, e, ScreenOf(e).value)
    else t
  }

  function TimelineOf(events: seq<Event>): Timeline {
    if events == [] then EMPTY else Fold1(TimelineOf(events[..|events| - 1]), events[|events| - 1])
  }

  /** The screens of the finished checks, in their order. */
  function DoneScreens(checks: seq<Check>): seq<string> {
    if checks == [] then []
    else DoneScreens(checks[..|checks| - 1])
         + if checks[|checks| - 1].finishedAt.Some? then [checks[|checks| - 1].screen] else []
  }

  /** `analysisTimeline`. */
  method AnalysisTimeline(events: seq<Event>) returns (t: Timeline, checksDone: seq<string>)
    ensures t == TimelineOf(events) && checksDone == DoneScreens(t.checks)
    ensures forall s :: s in checksDone <==> Completed(events, s)
    ensures NoRepeats(checksDone)
  {
    t := EMPTY;
    for k := 0 to |events|
      invariant t == TimelineOf(events[..k])
    {
      assert events[..k + 1][..k] == events[..k];
      t := Fold1(t, events[k]);
    }
    assert events[..|events|] == events;
    ChecksSpec(events);
    checksDone := [];
    for k := 0 to |t.checks|
      invariant checksDone == DoneScreens(t.checks[..k])
    {
      assert t.checks[..k + 1][..k] == t.checks[..k];
      if t.checks[k].finishedAt.Some? {
        checksDone := checksDone + [t.checks[k].screen];
      }
    }
    assert t.checks[..|t.checks|] == t.checks;
    DoneAreFinished(t.checks);
  }

  lemma {:induction false} DoneAreFinished(checks: seq<Check>)
    requires DistinctScreens(checks)
    ensures forall s :: s in DoneScreens(checks) <==> HasFinished(checks, s)
    ensures NoRepeats(DoneScreens(checks))
  {
    if checks != [] {
      var n := |checks| - 1;
      DoneAreFinished(checks[..n]);
      FinishedSnoc(checks);
      assert HasFinished(checks[..n], checks[n].screen) ==> false by {
        assert forall k :: 0 <= k < n ==> checks[..n][k] == checks[k];
      }
    }
  }

  lemma FinishedSnoc(checks: seq<Check>)
    requires checks != []
    ensures var n := |checks| - 1;
            forall s :: HasFinished(checks, s) <==>
                          HasFinished(checks[..n], s) || (checks[n].screen == s && checks[n].finishedAt.Some?)
  {
    var n := |checks| - 1;
    assert forall k :: 0 <= k < n ==> checks[..n][k] == checks[k];
  }

  // ---- What the timeline says of the events ----

  ghost predicate Completed(events: seq<Event>, screen: string) {
    exists k :: 0 <= k < |events| && Completes(events[k], screen)
  }

  ghost predicate Mentioned(events: seq<Event>, screen: string) {
    exists k :: 0 <= k < |events| && Mentions(events[k], screen)
  }

  ghost predicate DistinctScreens(checks: seq<Check>) {
    forall j, k :: 0 <= j < k < |checks| ==> checks[j].screen != checks[k].screen
  }

  ghost predicate HasFinished(checks: seq<Check>, screen: string) {
    exists k :: 0 <= k < |checks| && checks[k].screen == screen && checks[k].finishedAt.Some?
  }

  lemma {:induction false} StartedScreens(checks: seq<Check>, screen: string, at: int)
    requires DistinctScreens(checks)
    ensures var r := Started(checks, screen, at);
            DistinctScreens(r) && (forall s :: Has(r, s) <==> s == screen || Has(checks, s))
            && forall s :: HasFinished(r, s) <==> HasFinished(checks, s)
  {
    var r := Started(checks, screen, at);
    if checks == [] {
      assert r[0].screen == screen;
    } else if checks[0].screen == screen {
      assert r[0].screen == screen && forall k :: 1 <= k < |r| ==> r[k] == checks[k];
    } else {
      Tail(checks);
      StartedScreens(checks[1..], screen, at);
      Tail(r);
      assert r[1..] == Started(checks[1..], screen, at);
    }
  }

  lemma {:induction false} FinishedScreens(checks: seq<Check>, screen: string, at: int)
    requires DistinctScreens(checks)
    ensures var r := Finished(checks, screen, at);
            DistinctScreens(r) && (forall s :: Has(r, s) <==> s == screen || Has(checks, s))
            && forall s :: HasFinished(r, s) <==> s == screen || HasFinished(checks, s)
  {
    var r := Finished(checks, screen, at);
    if checks == [] {
      assert r[0].screen == screen;
    } else if checks[0].screen == screen {
      assert r[0].screen == screen && forall k :: 1 <= k < |r| ==> r[k] == checks[k];
    } else {
      Tail(checks);
      FinishedScreens(checks[1..], screen, at);
      Tail(r);
      assert r[1..] == Finished(checks[1..], screen, at);
    }
  }

  lemma Tail(c: seq<Check>)
    requires c != []
    ensures DistinctScreens(c) <==> DistinctScreens(c[1..]) && !Has(c[1..], c[0].screen)
    ensures forall s :: Has(c, s) <==> c[0].screen == s || Has(c[1..], s)
    ensures forall s :: HasFinished(c, s) <==> (c[0].screen == s && c[0].finishedAt.Some?) || HasFinished(c[1..], s)
  {
    assert c == [c[0]] + c[1..];
    forall s
      ensures Has(c, s) <==> c[0].screen == s || Has(c[1..], s)
      ensures HasFinished(c, s) <==> (c[0].screen == s && c[0].finishedAt.Some?) || HasFinished(c[1..], s)
    {
      if k :| 0 <= k < |c| && c[k].screen == s && k > 0 {
        assert c[1..][k - 1] == c[k];
      }
      if k :| 0 <= k < |c| && c[k].screen == s && c[k].finishedAt.Some? && k > 0 {
        assert c[1..][k - 1] == c[k];
      }
      if k :| 0 <= k < |c[1..]| && c[1..][k].screen == s {
        assert c[k + 1] == c[1..][k];
      }
      if k :| 0 <= k < |c[1..]| && c[1..][k].screen == s && c[1..][k].finishedAt.Some? {
        assert c[k + 1] == c[1..][k];
      }
    }
  }

  predicate Mentions(e: Event, screen: string) {
    (e.kind == ScreenCompleted || e.kind == AnalysisProgress) && ScreenOf(e) == Some(screen)
  }

  predicate Completes(e: Event, screen: string) {
    e.kind == ScreenCompleted && ScreenOf(e) == Some(screen)
  }

  lemma FoldChecks(t: Timeline, e: Event)
    requires DistinctScreens(t.checks)
    ensures DistinctScreens(Fold1(t, e).checks)
    ensures forall s :: Has(Fold1(t, e).checks, s) <==> Mentions(e, s) || Has(t.checks, s)
    ensures forall s :: HasFinished(Fold1(t, e).checks, s) <==> Completes(e, s) || HasFinished(t.checks, s)
  {
    if ScreenOf(e).Some? {
      StartedScreens(t.checks, ScreenOf(e).value, e.at);
      FinishedScreens(t.checks, ScreenOf(e).value, e.at);
    }
  }

  /** Each screen mentioned is listed once, and it is done exactly when some event completed it. */
  lemma {:induction false} ChecksSpec(events: seq<Event>)
    ensures DistinctScreens(TimelineOf(events).checks)
    ensures forall s :: Has(TimelineOf(events).checks, s) <==> Mentioned(events, s)
    ensures forall s :: HasFinished(TimelineOf(events).checks, s) <==> Completed(events, s)
  {
    if events != [] {
      var n := |events| - 1;
      ChecksSpec(events[..n]);
      FoldChecks(TimelineOf(events[..n]), events[n]);
      forall s
        ensures Mentioned(events, s) <==> Mentions(events[n], s) || Mentioned(events[..n], s)
        ensures Completed(events, s) <==> Completes(events[n], s) || Completed(events[..n], s)
      {
        assert forall k :: 0 <= k < n ==> events[..n][k] == events[k];
      }
    }
  }

  function ScreensOf(checks: seq<Check>): seq<string> {
    seq(|checks|, k requires 0 <= k < |checks| => checks[k].screen)
  }

  /** The screens the events mention, in the order of their first mention. */
  function FirstMentions(events: seq<Event>): seq<string> {
    if events == [] then []
    else
      var n := |events| - 1;
      var before := FirstMentions(events[..n]);
      if ScreenOf(events[n]).Some? && Mentions(events[n], ScreenOf(events[n]).value)
         && ScreenOf(events[n]).value !in before
      then before + [ScreenOf(events[n]).value] else before
  }

  lemma {:induction false} PutScreens(checks: seq<Check>, screen: string, at: int)
    ensures ScreensOf(Started(checks, screen, at))
         == if screen in ScreensOf(checks) then ScreensOf(checks) else ScreensOf(checks) + [screen]
    ensures ScreensOf(Finished(checks, screen, at)) == ScreensOf(Started(checks, screen, at))
  {
    if checks == [] {
    } else if checks[0].screen == screen {
      assert ScreensOf(checks)[0] == screen;
      assert ScreensOf(Started(checks, screen, at)) == ScreensOf(checks);
    } else {
      PutScreens(checks[1..], screen, at);
      HeadScreen(checks[0], checks[1..]);
      HeadScreen(checks[0], Started(checks[1..], screen, at));
      HeadScreen(checks[0], Finished(checks[1..], screen, at));
      assert checks == [checks[0]] + checks[1..];
    }
  }

  lemma HeadScreen(c: Check, checks: seq<Check>)
    ensures ScreensOf([c] + checks) == [c.screen] + ScreensOf(checks)
  {
  }

  /** The checks stand in the order in which the events first mention them. */
  lemma {:induction false} ChecksOrder(events: seq<Event>)
    ensures ScreensOf(TimelineOf(events).checks) == FirstMentions(events)
  {
    if events != [] {
      var n := |events| - 1;
      ChecksOrder(events[..n]);
      if ScreenOf(events[n]).Some? {
        PutScreens(TimelineOf(events[..n]).checks, ScreenOf(events[n]).value, events[n].at);
      }
    }
  }

  /** The last check begun: no later phase, and neither a later check nor its own completion. */
  ghost predicate IsRunning(events: seq<Event>, k: int) {
    && 0 <= k < |events| && events[k].kind == AnalysisProgress && ScreenOf(events[k]).Some?
    && forall j :: k < j < |events| ==> Leaves(events[j], ScreenOf(events[k]).value)
  }

  /** The event leaves a running check alone. */
  ghost predicate Leaves(e: Event, screen: string) {
    && e.kind != AnalysisPhase
    && !(e.kind == AnalysisProgress && ScreenOf(e).Some?)
    && !(e.kind == ScreenCompleted && ScreenOf(e) == Some(screen))
  }

  /** `nowChecking` is the check that is running, if one is, with its start time. */
  lemma {:induction false} NowCheckingSpec(events: seq<Event>, k: int)
    ensures IsRunning(events, k) ==>
              var now := TimelineOf(events).nowChecking;
              now.Some? && Some(now.value.screen) == ScreenOf(events[k]) && now.value.startedAt == events[k].at
    ensures TimelineOf(events).nowChecking.Some? ==> exists j :: IsRunning(events, j)
  {
    if events != [] {
      var n := |events| - 1;
      var e := events[n];
      NowCheckingSpec(events[..n], k);
      if IsRunning(events, k) && k < n {
        assert IsRunning(events[..n], k);
        assert Leaves(e, ScreenOf(events[k]).value);
      }
      if TimelineOf(events).nowChecking.Some? {
        if e.kind == AnalysisProgress && ScreenOf(e).Some? {
          assert IsRunning(events, n);
        } else {
          var j :| IsRunning(events[..n], j);
          NowCheckingSpec(events[..n], j);
          assert IsRunning(events, j);
        }
      }
    }
  }

  /** The running check's numbers: as its event states them, else 1 of 1, and its place among the checks mentioned. */
  lemma {:induction false} NowCheckingNumbers(events: seq<Event>, k: int)
    requires IsRunning(events, k)
    ensures TimelineOf(events).nowChecking.Some?
    ensures var now, p := TimelineOf(events).nowChecking.value, events[k].payload;
            && now.sample == (if Sample in p && p[Sample].Num? then p[Sample].n else 1)
            && now.samplesTotal == (if SamplesTotal in p && p[SamplesTotal].Num? then p[SamplesTotal].n else 1)
            && now.screenIndex == (if ScreenIndex in p && p[ScreenIndex].Num? then p[ScreenIndex].n
                                   else |FirstMentions(events[..k + 1])|)
            && (ScreensTotal in p && p[ScreensTotal].Num? ==> now.screensTotal == p[ScreensTotal].n)
  {
    var n := |events| - 1;
    if k < n {
      assert IsRunning(events[..n], k);
      assert Leaves(events[n], ScreenOf(events[k]).value);
      NowCheckingNumbers(events[..n], k);
      NowCheckingSpec(events[..n], k);
      assert events[..n][..k + 1] == events[..k + 1];
    } else {
      assert events[..k + 1] == events;
      ChecksOrder(events);
    }
  }

  /** No check is without a name: a screen named by the empty string is none. */
  lemma NamedChecks(events: seq<Event>)
    ensures !Has(TimelineOf(events).checks, "")
  {
    ChecksSpec(events);
  }

  /** The three phases by name; any other value is none. */
  lemma PhaseNames(p: Payload)
    ensures PhaseOf(p) == Some(Context) <==> PhaseKey in p && p[PhaseKey] == Str("context")
    ensures PhaseOf(p) == Some(Summary) <==> PhaseKey in p && p[PhaseKey] == Str("summary")
    ensures PhaseOf(p) == Some(Batch) <==> PhaseKey in p && p[PhaseKey] == Str("batch")
  {
    assert "context"[0] != "summary"[0] && "summary"[0] != "batch"[0] && "context"[0] != "batch"[0];
  }

  // ---- When a check began and ended ----

  /** The start of a screen's entry. */
  function StartOf(checks: seq<Check>, screen: string): Option<int> {
    if checks == [] then None
    else if checks[0].screen == screen then checks[0].startedAt else StartOf(checks[1..], screen)
  }

  function FinishOf(checks: seq<Check>, screen: string): Option<int> {
    if checks == [] then None
    else if checks[0].screen == screen then checks[0].finishedAt else FinishOf(checks[1..], screen)
  }

  lemma {:induction false} StartedTimes(checks: seq<Check>, screen: string, at: int, x: string)
    ensures var r := Started(checks, screen, at);
            FinishOf(r, x) == FinishOf(checks, x)
            && StartOf(r, x) == if x == screen && StartOf(checks, x).None? then Some(at) else StartOf(checks, x)
  {
    if checks == [] {
    } else if checks[0].screen == screen {
      assert Started(checks, screen, at)[1..] == checks[1..];
    } else {
      StartedTimes(checks[1..], screen, at, x);
      assert Started(checks, screen, at)[1..] == Started(checks[1..], screen, at);
    }
  }

  lemma {:induction false} FinishedTimes(checks: seq<Check>, screen: string, at: int, x: string)
    ensures var r := Finished(checks, screen, at);
            StartOf(r, x) == StartOf(checks, x)
            && FinishOf(r, x) == if x == screen then Some(at) else FinishOf(checks, x)
  {
    if checks == [] {
    } else if checks[0].screen == screen {
      assert Finished(checks, screen, at)[1..] == checks[1..];
    } else {
      FinishedTimes(checks[1..], screen, at, x);
      assert Finished(checks, screen, at)[1..] == Finished(checks[1..], screen, at);
    }
  }

  predicate Begins(e: Event, screen: string) {
    e.kind == AnalysisProgress && ScreenOf(e) == Some(screen)
  }

  /** Event `k` is the first to begin the screen's check. */
  ghost predicate FirstBegin(events: seq<Event>, screen: string, k: int) {
    0 <= k < |events| && Begins(events[k], screen) && forall j :: 0 <= j < k ==> !Begins(events[j], screen)
  }

  /** Event `k` is the last to complete the screen's check. */
  ghost predicate LastCompletion(events: seq<Event>, screen: string, k: int) {
    0 <= k < |events| && Completes(events[k], screen) && forall j :: k < j < |events| ==> !Completes(events[j], screen)
  }

  lemma FoldTimes(t: Timeline, e: Event, x: string)
    ensures var r := Fold1(t, e).checks;
            StartOf(r, x) == (if Begins(e, x) && StartOf(t.checks, x).None? then Some(e.at) else StartOf(t.checks, x))
            && FinishOf(r, x) == (if Completes(e, x) then Some(e.at) else FinishOf(t.checks, x))
  {
    if ScreenOf(e).Some? {
      StartedTimes(t.checks, ScreenOf(e).value, e.at, x);
      FinishedTimes(t.checks, ScreenOf(e).value, e.at, x);
    }
  }

  /** A check's start is the time of the first event that begins it, if one does. */
  lemma {:induction false} StartSpec(events: seq<Event>, screen: string, k: int)
    ensures FirstBegin(events, screen, k) ==> StartOf(TimelineOf(events).checks, screen) == Some(events[k].at)
    ensures StartOf(TimelineOf(events).checks, screen).Some? ==> exists j :: FirstBegin(events, screen, j)
  {
    if events != [] {
      var n := |events| - 1;
      var before := events[..n];
      StartSpec(before, screen, k);
      FoldTimes(TimelineOf(before), events[n], screen);
      if StartOf(TimelineOf(before).checks, screen).Some? {
        var j :| FirstBegin(before, screen, j);
        StartSpec(before, screen, j);
        assert FirstBegin(events, screen, j);
      } else {
        NotBegun(before, screen);
        assert Begins(events[n], screen) ==> FirstBegin(events, screen, n);
      }
    }
  }

  lemma {:induction false} NotBegun(events: seq<Event>, screen: string)
    ensures StartOf(TimelineOf(events).checks, screen).None? <==>
              forall j :: 0 <= j < |events| ==> !Begins(events[j], screen)
  {
    if events != [] {
      var n := |events| - 1;
      NotBegun(events[..n], screen);
      FoldTimes(TimelineOf(events[..n]), events[n], screen);
      assert forall j :: 0 <= j < n ==> events[..n][j] == events[j];
    }
  }

  /** A check's end is the time of the last event that completes it, if one does. */
  lemma {:induction false} FinishSpec(events: seq<Event>, screen: string, k: int)
    ensures LastCompletion(events, screen, k) ==> FinishOf(TimelineOf(events).checks, screen) == Some(events[k].at)
    ensures FinishOf(TimelineOf(events).checks, screen).Some? ==> exists j :: LastCompletion(events, screen, j)
  {
    if events != [] {
      var n := |events| - 1;
      var before := events[..n];
      FinishSpec(before, screen, k);
      FoldTimes(TimelineOf(before), events[n], screen);
      if Completes(events[n], screen) {
        assert LastCompletion(events, screen, n);
      } else {
        if LastCompletion(events, screen, k) {
          assert LastCompletion(before, screen, k);
        }
        if FinishOf(TimelineOf(before).checks, screen).Some? {
          var j :| LastCompletion(before, screen, j);
          assert LastCompletion(events, screen, j);
        }
      }
    }
  }

  // ---- The phase and the totals ----

  /** The event ends a phase: the next phase, a check, or, for a batch, its first result. */
  predicate EndsPhase(e: Event, phase: Phase) {
    || e.kind == AnalysisPhase
    || (e.kind == AnalysisProgress && ScreenOf(e).Some?)
    || (e.kind == ScreenCompleted && ScreenOf(e).Some? && phase == Batch)
  }

  ghost predicate Stands(events: seq<Event>, k: int, phase: Phase) {
    && 0 <= k < |events| && events[k].kind == AnalysisPhase && PhaseOf(events[k].payload) == Some(phase)
    && forall j :: k < j < |events| ==> !EndsPhase(events[j], phase)
  }

  /** The phase is the last one announced that nothing has ended. */
  lemma {:induction false} PhaseSpec(events: seq<Event>, phase: Phase)
    ensures TimelineOf(events).phase == Some(phase) <==> exists k :: Stands(events, k, phase)
  {
    if events != [] {
      var n := |events| - 1;
      PhaseSpec(events[..n], phase);
      if k :| Stands(events[..n], k, phase) {
        assert !EndsPhase(events[n], phase) ==> Stands(events, k, phase);
      }
      if Stands(events, n, phase) {
        assert TimelineOf(events).phase == Some(phase);
      } else if k :| Stands(events, k, phase) {
        assert Stands(events[..n], k, phase);
      }
      if events[n].kind == AnalysisPhase && PhaseOf(events[n].payload) == Some(phase) {
        assert Stands(events, n, phase);
      }
    }
  }

  /** The number of screens an event states; a check that states none, or none left, states nothing. */
  function ScreensStated(e: Event): Option<int> {
    if e.kind == AnalysisPhase then NumberAt(e.payload, ScreensTotal)
    else if e.kind == AnalysisProgress && ScreenOf(e).Some? && NumberAt(e.payload, ScreensTotal) != Some(0)
    then NumberAt(e.payload, ScreensTotal) else None
  }

  function RequestsStated(e: Event): Option<int> {
    if e.kind == AnalysisPhase then NumberAt(e.payload, RequestsTotal) else None
  }

  /** What the last event that states a number states. */
  ghost predicate LastStated(events: seq<Event>, of: Event -> Option<int>, n: Option<int>) {
    if n.None? then forall k :: 0 <= k < |events| ==> of(events[k]).None?
    else exists k :: 0 <= k < |events| && of(events[k]) == n && forall j :: k < j < |events| ==> of(events[j]).None?
  }

  lemma LastStatedSnoc(events: seq<Event>, of: Event -> Option<int>, n: Option<int>, e: Event)
    requires LastStated(events, of, n)
    ensures LastStated(events + [e], of, if of(e).Some? then of(e) else n)
  {
    var more := events + [e];
    assert of(more[|events|]) == of(e);
    if of(e).None? && n.Some? {
      var k :| 0 <= k < |events| && of(events[k]) == n && forall j :: k < j < |events| ==> of(events[j]).None?;
      assert of(more[k]) == n && forall j :: k < j < |more| ==> of(more[j]).None?;
    }
  }

  /** The totals are those of the last event that states them. */
  lemma {:induction false} TotalsSpec(events: seq<Event>)
    ensures LastStated(events, ScreensStated, TimelineOf(events).screensTotal)
    ensures LastStated(events, RequestsStated, TimelineOf(events).requestsTotal)
  {
    if events != [] {
      var n := |events| - 1;
      var t := TimelineOf(events[..n]);
      TotalsSpec(events[..n]);
      LastStatedSnoc(events[..n], ScreensStated, t.screensTotal, events[n]);
      LastStatedSnoc(events[..n], RequestsStated, t.requestsTotal, events[n]);
      assert events[..n] + [events[n]] == events;
    }
  }

  // ---- When a repeated event changes nothing ----

  predicate Agrees(stated: Option<int>, shown: Option<int>) {
    stated.Some? ==> shown == stated
  }

  /** The timeline shows already what the event says. */
  predicate Shown(t: Timeline, e: Event) {
    if e.kind == AnalysisPhase then
      && t.nowChecking.None? && t.phase == PhaseOf(e.payload)
      && Agrees(NumberAt(e.payload, ScreensTotal), t.screensTotal)
      && Agrees(NumberAt(e.payload, RequestsTotal), t.requestsTotal)
    else if ScreenOf(e).None? then true
    else if e.kind == AnalysisProgress then
      t.nowChecking == Some(BegunNow(t, e, ScreenOf(e).value, |t.checks|)) && Agrees(ScreensStated(e), t.screensTotal)
    else if e.kind == ScreenCompleted then
      && FinishOf(t.checks, ScreenOf(e).value) == Some(e.at) && t.phase != Some(Batch)
      && !(t.nowChecking.Some? && t.nowChecking.value.screen == ScreenOf(e).value)
    else true
  }

  lemma {:induction false} StartedAgain(checks: seq<Check>, screen: string, at: int)
    requires StartOf(checks, screen).Some?
    ensures Started(checks, screen, at) == checks
  {
    if checks[0].screen == screen {
      assert checks == [checks[0]] + checks[1..];
    } else {
      StartedAgain(checks[1..], screen, at);
    }
  }

  lemma {:induction false} FinishedAgain(checks: seq<Check>, screen: string, at: int)
    ensures Finished(checks, screen, at) == checks <==> FinishOf(checks, screen) == Some(at)
  {
    FinishedTimes(checks, screen, at, screen);
    if checks != [] && FinishOf(checks, screen) == Some(at) {
      if checks[0].screen == screen {
        assert checks == [checks[0]] + checks[1..];
      } else {
        FinishedAgain(checks[1..], screen, at);
      }
    }
  }

  lemma {:induction false} CheckEndsPhase(events: seq<Event>)
    ensures TimelineOf(events).nowChecking.Some? ==> TimelineOf(events).phase.None?
  {
    if events != [] {
      CheckEndsPhase(events[..|events| - 1]);
    }
  }

  /** Two events with one projection: a message and its repetition, or two events alike. */
  predicate Alike(a: Event, b: Event) {
    RunEventItem(a) == RunEventItem(b)
  }

  /** An event like an earlier one changes the timeline exactly when the timeline no longer shows what it says. */
  lemma RepeatChangesNothing(events: seq<Event>, k: int, e: Event)
    requires 0 <= k < |events| && Alike(events[k], e)
    ensures Fold1(TimelineOf(events), e) == TimelineOf(events) <==> Shown(TimelineOf(events), e)
  {
    var t := TimelineOf(events);
    CheckEndsPhase(events);
    if ScreenOf(e).Some? {
      var screen := ScreenOf(e).value;
      assert RunEventItem(events[k]).payload == RunEventItem(e).payload;
      AlikeScreens(events[k], e);
      if e.kind == AnalysisProgress {
        NotBegun(events, screen);
        assert Begins(events[k], screen);
        StartedAgain(t.checks, screen, e.at);
      } else if e.kind == ScreenCompleted {
        FinishedAgain(t.checks, screen, e.at);
      }
    }
  }

  lemma AlikeScreens(a: Event, b: Event)
    requires Alike(a, b)
    ensures ScreenOf(a) == ScreenOf(b) && a.kind == b.kind && a.at == b.at
  {
    assert ScreenOf(RunEventItem(a)) == ScreenOf(a) && ScreenOf(RunEventItem(b)) == ScreenOf(b);
  }

  // ---- The projection ----

  predicate RunKey(k: Key) {
    !k.DocumentId? && !k.OtherKey?
  }

  /** `runEventItem`: the type, the time, and the enums and counts of the payload. */
  function RunEventItem(e: Event): Event {
    Event(e.kind, map k | k in e.payload && RunKey(k) && !e.payload[k].OtherValue? :: e.payload[k], e.at)
  }

  predicate IsRunEvent(e: Event) {
    e.kind == AnalysisPhase || e.kind == AnalysisProgress || e.kind == ScreenCompleted
  }

  /** The run events of a stream, projected. */
  function RunItems(events: seq<Event>): seq<Event> {
    if events == [] then []
    else RunItems(events[..|events| - 1])
         + if IsRunEvent(events[|events| - 1]) then [RunEventItem(events[|events| - 1])] else []
  }

  lemma ProjectionReads(e: Event)
    ensures var p := RunEventItem(e).payload;
            (forall k :: RunKey(k) ==> NumberAt(p, k) == NumberAt(e.payload, k))
            && (forall k, fallback :: RunKey(k) ==> NumberOr(p, k, fallback) == NumberOr(e.payload, k, fallback))
            && ScreenOf(RunEventItem(e)) == ScreenOf(e) && PhaseOf(p) == PhaseOf(e.payload)
  {
  }

  lemma ProjectionFolds(t: Timeline, e: Event)
    ensures Fold1(t, RunEventItem(e)) == Fold1(t, e)
  {
    ProjectionReads(e);
  }

  /** What the page may hold of an event: its type, its time, and the strings and numbers of seven keys. */
  lemma ProjectionExactly(e: Event, k: Key)
    ensures var item := RunEventItem(e);
            && item.kind == e.kind && item.at == e.at
            && (k in item.payload <==>
                  && k in e.payload && (e.payload[k].Str? || e.payload[k].Num?)
                  && (k == Screen || k == Sample || k == SamplesTotal || k == ScreenIndex || k == ScreensTotal
                      || k == PhaseKey || k == RequestsTotal))
            && (k in item.payload ==> item.payload[k] == e.payload[k])
  {
  }

  /** The run events are of just the types that can move a timeline. */
  lemma RunEventsMove(e: Event)
    ensures IsRunEvent(e) <==> exists t: Timeline, p: Payload :: Fold1(t, Event(e.kind, p, e.at)) != t
  {
    var p: Payload := map[Screen := Str("iac")];
    if e.kind == AnalysisPhase {
      var t := Timeline([], Some(Now("iac", 1, 1, 1, 0, 0)), None, None, None);
      assert Fold1(t, Event(e.kind, p, e.at)).nowChecking.None?;
    } else if e.kind == AnalysisProgress || e.kind == ScreenCompleted {
      assert ScreenOf(Event(e.kind, p, e.at)) == Some("iac");
      assert |Fold1(EMPTY, Event(e.kind, p, e.at)).checks| == 1;
    }
  }

  /** The page folds its projected run events to the very timeline the server folds from the full stream. */
  lemma {:induction false} ProjectionKeepsTimeline(events: seq<Event>)
    ensures TimelineOf(RunItems(events)) == TimelineOf(events)
  {
    if events != [] {
      var n := |events| - 1;
      ProjectionKeepsTimeline(events[..n]);
      if IsRunEvent(events[n]) {
        ProjectionFolds(TimelineOf(events[..n]), events[n]);
        var items := RunItems(events);
        assert items[..|items| - 1] == RunItems(events[..n]);
      } else {
        assert RunItems(events) == RunItems(events[..n]);
      }
    }
  }
}
