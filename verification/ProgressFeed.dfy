/**
 * apps/web/lib/progress-feed.ts: the page's live feed. Server facts seed it, stream
 * messages (facts and pulses) fold into it, and the timeline is re-folded from its run
 * events. The activity list is left out.
 */
module ProgressFeed {
  import opened Wrappers
  import opened Progress

  datatype StepLabel = DocumentStep | ContextStep | SummaryStep | BatchStep | CheckStep

  datatype LiveStep = LiveStep(kind: StepLabel, screen: Option<string>, documentId: Option<string>, startedAt: int)

  datatype PulsePhase = Reading | Writing | Waiting | Saving

  datatype FeedState = FeedState(step: Option<LiveStep>, phase: Option<PulsePhase>, lastSignalAt: Option<int>,
                                 screensPlanned: seq<string>, runEvents: seq<Event>, documentInProgress: Option<int>)

  datatype Message = Pulse(step: LiveStep, phase: Option<PulsePhase>) | Fact(event: Event) | Unreadable

  /** `a === b` between a step's optional string and a payload's value. */
  predicate SameName(a: Option<string>, p: Payload, k: Key) {
    if k in p then a.Some? && p[k] == Str(a.value) else a.None?
  }

  /** The run events after one more event: projected, and added unless already held. */
  function AddRun(runs: seq<Event>, e: Event): seq<Event> {
    if !IsRunEvent(e) || RunEventItem(e) in runs then runs else runs + [RunEventItem(e)]
  }

  predicate EndsStep(prev: FeedState, e: Event) {
    && prev.step.Some?
    && ((e.kind == ScreenCompleted && prev.step.value.kind == CheckStep
         && SameName(prev.step.value.screen, e.payload, Screen))
        || (e.kind == DocOcrDone && prev.step.value.kind == DocumentStep
            && SameName(prev.step.value.documentId, e.payload, DocumentId)))
  }

  /** `applyMessage`. */
  function ApplyMessage(prev: FeedState, msg: Message, now: int): FeedState {
    match msg
    case Pulse(step, phase) =>
      FeedState(Some(step), if phase.Some? then phase else prev.phase, Some(now), prev.screensPlanned,
                prev.runEvents, prev.documentInProgress)
    case Unreadable => prev
    case Fact(e) =>
      var ends := e.kind == StageEntered || EndsStep(prev, e);
      FeedState(if ends then None else prev.step, if ends then None else prev.phase, Some(now), prev.screensPlanned,
                AddRun(prev.runEvents, e),
                if e.kind == DocOcrStarted then Some(e.at)
                else if e.kind == DocOcrDone || e.kind == StageEntered then None
                else prev.documentInProgress)
  }

  /** `timelineOf`. */
  function FeedTimeline(feed: FeedState): Timeline {
    TimelineOf(feed.runEvents)
  }

  /** Only a fact touches the run events, and a fact already folded in is folded in for good. */
  lemma DeliveredTwice(feed: FeedState, e: Event, now: int, later: int, msg: Message)
    ensures var once := ApplyMessage(feed, Fact(e), now);
            ApplyMessage(once, Fact(e), later).runEvents == once.runEvents
    ensures !msg.Fact? ==> ApplyMessage(feed, msg, now).runEvents == feed.runEvents
  {
  }

  /** Without the test for duplicates a redelivered fact would turn a finished check back into a running one. */
  lemma DedupIsNeeded(at: int, done: int)
    ensures var p := map[Screen := Str("iac")];
            var begun, finished := Event(AnalysisProgress, p, at), Event(ScreenCompleted, p, done);
            TimelineOf([begun, finished]).nowChecking.None? && TimelineOf([begun, finished, begun]).nowChecking.Some?
  {
    var p := map[Screen := Str("iac")];
    var begun, finished := Event(AnalysisProgress, p, at), Event(ScreenCompleted, p, done);
    assert [begun, finished, begun][..2] == [begun, finished];
    assert [begun, finished][..1] == [begun] && [begun][..0] == [];
    assert TimelineOf([begun]) == Fold1(EMPTY, begun);
  }

  // ---- Server facts ----

  datatype LivePulse = LivePulse(at: int, step: LiveStep, phase: PulsePhase)

  datatype Facts = Facts(screensPlanned: seq<string>, runEvents: Option<seq<Event>>, checksDone: seq<string>,
                         documentInProgress: Option<Option<int>>, livePulse: Option<LivePulse>,
                         lastActivityAt: Option<int>)

  const PULSE_FRESH_MS := 120_000

  function Newest(a: Option<int>, b: Option<int>): Option<int> {
    if a.None? then b else if b.None? || b.value <= a.value then a else b
  }

  function ChecksAsEvents(screens: seq<string>, at: int): seq<Event> {
    seq(|screens|, k requires 0 <= k < |screens| => Event(ScreenCompleted, map[Screen := Str(screens[k])], at))
  }

  /** `feedFromFacts`. */
  function FeedFromFacts(prev: FeedState, facts: Facts, now: int): FeedState {
    var pulse := if facts.livePulse.Some? && now - facts.livePulse.value.at < PULSE_FRESH_MS
                 then facts.livePulse else None;
    var usePulse := pulse.Some? && (prev.lastSignalAt.None? || pulse.value.at >= prev.lastSignalAt.value);
    FeedState(
      if usePulse then Some(pulse.value.step) else prev.step,
      if usePulse then Some(pulse.value.phase) else prev.phase,
      Newest(Newest(prev.lastSignalAt, facts.lastActivityAt), if pulse.Some? then Some(pulse.value.at) else None),
      if facts.screensPlanned != [] then facts.screensPlanned else prev.screensPlanned,
      if facts.runEvents.Some? then facts.runEvents.value
      else if facts.checksDone != [] then
        ChecksAsEvents(facts.checksDone, if facts.lastActivityAt.Some? then facts.lastActivityAt.value else now)
      else prev.runEvents,
      if facts.documentInProgress.Some? then facts.documentInProgress.value else prev.documentInProgress)
  }

  /** A server that sends finished screens only: the timeline folded from the feed shows just those as done. */
  lemma OldServerChecks(prev: FeedState, facts: Facts, now: int, screen: string)
    requires facts.runEvents.None? && facts.checksDone != [] && screen != ""
    ensures HasFinished(FeedTimeline(FeedFromFacts(prev, facts, now)).checks, screen) <==> screen in facts.checksDone
  {
    var runs := FeedFromFacts(prev, facts, now).runEvents;
    ChecksSpec(runs);
    if screen in facts.checksDone {
      var k :| 0 <= k < |facts.checksDone| && facts.checksDone[k] == screen;
      assert Completes(runs[k], screen);
    }
  }

  /**
   * A poll never takes the signal clock back, and it replaces the live step only by a pulse
   * under two minutes old that is no older than the last signal.
   */
  lemma PollKeepsFresherSignal(prev: FeedState, facts: Facts, now: int)
    ensures var next := FeedFromFacts(prev, facts, now);
            (prev.lastSignalAt.Some? ==> next.lastSignalAt.Some? && next.lastSignalAt.value >= prev.lastSignalAt.value)
            && (next.step != prev.step ==>
                  facts.livePulse.Some? && now - facts.livePulse.value.at < PULSE_FRESH_MS
                  && next.lastSignalAt.Some? && next.lastSignalAt.value >= facts.livePulse.value.at
                  && (prev.lastSignalAt.Some? ==> facts.livePulse.value.at >= prev.lastSignalAt.value))
  {
  }

  // ---- What a message moves ----

  /** A pulse moves the step and the signal clock, and nothing else. */
  lemma PulseMoves(prev: FeedState, step: LiveStep, phase: Option<PulsePhase>, now: int)
    ensures var next := ApplyMessage(prev, Pulse(step, phase), now);
            && next.step == Some(step) && next.lastSignalAt == Some(now)
            && next.phase == (if phase.Some? then phase else prev.phase)
            && next.screensPlanned == prev.screensPlanned && next.runEvents == prev.runEvents
            && next.documentInProgress == prev.documentInProgress
  {
  }

  /**
   * A fact never begins a step. It ends the one shown when the stage changes, when it
   * completes the very check shown, or when it has read the very document shown.
   */
  lemma FactEndsStep(prev: FeedState, e: Event, now: int)
    ensures var next := ApplyMessage(prev, Fact(e), now);
            && next.lastSignalAt == Some(now) && next.screensPlanned == prev.screensPlanned
            && (next.step.None? || (next.step == prev.step && next.phase == prev.phase))
            && (prev.step.Some? && next.step.None? ==> next.phase.None?)
            && (prev.step.Some? ==> (next.step.None? <==>
                  var shown := prev.step.value;
                  || e.kind == StageEntered
                  || (e.kind == ScreenCompleted && shown.kind == CheckStep
                      && (if Screen in e.payload
                          then e.payload[Screen].Str? && shown.screen == Some(e.payload[Screen].s)
                          else shown.screen == None))
                  || (e.kind == DocOcrDone && shown.kind == DocumentStep
                      && (if DocumentId in e.payload
                          then e.payload[DocumentId].Str? && shown.documentId == Some(e.payload[DocumentId].s)
                          else shown.documentId == None))))
  {
  }

  function Folded(feed: FeedState, msgs: seq<Message>, now: int): FeedState {
    if msgs == [] then feed else ApplyMessage(Folded(feed, msgs[..|msgs| - 1], now), msgs[|msgs| - 1], now)
  }

  predicate EndsDocument(m: Message) {
    m.Fact? && (m.event.kind == DocOcrStarted || m.event.kind == DocOcrDone || m.event.kind == StageEntered)
  }

  ghost predicate DocumentStands(msgs: seq<Message>, k: int) {
    && 0 <= k < |msgs| && msgs[k].Fact? && msgs[k].event.kind == DocOcrStarted
    && forall j :: k < j < |msgs| ==> !EndsDocument(msgs[j])
  }

  /** The document in progress is the last one begun, unless one was finished or a stage entered since. */
  lemma {:induction false} DocumentSpec(feed: FeedState, msgs: seq<Message>, now: int, k: int)
    requires feed.documentInProgress.None?
    ensures DocumentStands(msgs, k) ==> Folded(feed, msgs, now).documentInProgress == Some(msgs[k].event.at)
    ensures Folded(feed, msgs, now).documentInProgress.Some? ==> exists j :: DocumentStands(msgs, j)
  {
    if msgs != [] {
      var n := |msgs| - 1;
      DocumentSpec(feed, msgs[..n], now, k);
      if DocumentStands(msgs, k) && k < n {
        assert DocumentStands(msgs[..n], k);
        assert !EndsDocument(msgs[n]);
      }
      if Folded(feed, msgs, now).documentInProgress.Some? {
        if EndsDocument(msgs[n]) {
          assert DocumentStands(msgs, n);
        } else {
          var j :| DocumentStands(msgs[..n], j);
          assert DocumentStands(msgs, j);
        }
      }
    }
  }

  /** A poll that sends run events replaces the page's; what it does not send, the page keeps. */
  lemma PollReplaces(prev: FeedState, facts: Facts, now: int)
    ensures var next := FeedFromFacts(prev, facts, now);
            && (facts.runEvents.Some? ==> next.runEvents == facts.runEvents.value)
            && (facts.runEvents.None? && facts.checksDone == [] ==> next.runEvents == prev.runEvents)
            && (facts.documentInProgress.Some? ==> next.documentInProgress == facts.documentInProgress.value)
            && (facts.documentInProgress.None? ==> next.documentInProgress == prev.documentInProgress)
            && (facts.screensPlanned != [] ==> next.screensPlanned == facts.screensPlanned)
            && (facts.screensPlanned == [] ==> next.screensPlanned == prev.screensPlanned)
  {
  }

  /** A fresh pulse no older than the last signal is shown. */
  lemma FreshPulseShown(prev: FeedState, facts: Facts, now: int)
    requires facts.livePulse.Some? && now - facts.livePulse.value.at < 120_000
    requires prev.lastSignalAt.None? || prev.lastSignalAt.value <= facts.livePulse.value.at
    ensures var next := FeedFromFacts(prev, facts, now);
            next.step == Some(facts.livePulse.value.step) && next.phase == Some(facts.livePulse.value.phase)
  {
  }
}
