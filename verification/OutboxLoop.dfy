/**
 * packages/database/events.ts, `startCaseEventOutbox`: the loop that runs the outbox
 * transaction again and again. Its closure holds `stopped` and `running`; `timers` lists the
 * delays of the ticks set and not yet fired, `inflight` counts the transactions open.
 */
module OutboxLoop {
  import opened Wrappers

  datatype State = State(stopped: bool, running: bool, timers: seq<nat>, inflight: nat)

  /** A transaction returns the number of rows it published, or fails. */
  datatype Event = TimerFires(k: nat) | Returned(n: Option<nat>) | Stop

  function Delay(n: Option<nat>, idleMs: nat): nat {
    if n.Some? && n.value > 0 then 0 else idleMs
  }

  /** `tick`, up to its await. */
  function Ticked(s: State): State {
    if s.stopped || s.running then s else State(s.stopped, true, s.timers, s.inflight + 1)
  }

  /** `tick`, from its await on. */
  function Answered(s: State, n: Option<nat>, idleMs: nat): State
    requires s.inflight > 0
  {
    State(s.stopped, false, if s.stopped then s.timers else s.timers + [Delay(n, idleMs)], s.inflight - 1)
  }

  class Loop {
    const idleMs: nat
    var stopped: bool
    var running: bool
    var timers: seq<nat>
    var inflight: nat

    function Now(): State
      reads this
    {
      State(stopped, running, timers, inflight)
    }

    /** The first tick runs at once. */
    constructor (idleMs: nat)
      ensures this.idleMs == idleMs && Now() == Started()
    {
      this.idleMs := idleMs;
      stopped, running, timers, inflight := false, false, [], 0;
      new;
      var begun := Tick();
    }

    method Tick() returns (begun: bool)
      modifies this
      ensures Now() == Ticked(old(Now())) && (begun <==> !old(stopped) && !old(running))
    {
      if stopped || running {
        return false;
      }
      running := true;
      inflight := inflight + 1;
      begun := true;
    }

    method TimerFires(k: nat) returns (begun: bool)
      requires k < |timers|
      modifies this
      ensures Now() == After(old(Now()), Event.TimerFires(k), idleMs)
      ensures begun <==> old(Now()).inflight < Now().inflight
    {
      timers := timers[..k] + timers[k + 1..];
      begun := Tick();
    }

    method Returned(n: Option<nat>)
      requires inflight > 0
      modifies this
      ensures Now() == After(old(Now()), Event.Returned(n), idleMs)
    {
      running := false;
      inflight := inflight - 1;
      if !stopped {
        timers := timers + [Delay(n, idleMs)];
      }
    }

    method Stop()
      modifies this
      ensures Now() == After(old(Now()), Event.Stop, idleMs)
    {
      stopped := true;
    }
  }

  function Started(): State {
    Ticked(State(false, false, [], 0))
  }

  /** An event that cannot happen changes nothing. */
  function After(s: State, e: Event, idleMs: nat): State {
    match e
    case TimerFires(k) =>
      if k < |s.timers| then Ticked(State(s.stopped, s.running, s.timers[..k] + s.timers[k + 1..], s.inflight)) else s
    case Returned(n) => if s.inflight > 0 then Answered(s, n, idleMs) else s
    case Stop => State(true, s.running, s.timers, s.inflight)
  }

  function Run(s: State, events: seq<Event>, idleMs: nat): State {
    if events == [] then s else After(Run(s, events[..|events| - 1], idleMs), events[|events| - 1], idleMs)
  }

  ghost predicate Alive(s: State) {
    && s.inflight == (if s.running then 1 else 0)
    && s.inflight + |s.timers| <= 1
    && (!s.stopped ==> s.inflight + |s.timers| == 1)
  }

  /** Until it is stopped the loop has exactly one transaction open or one tick due: it neither doubles nor dies. */
  lemma {:induction false} LoopStaysSingle(events: seq<Event>, idleMs: nat)
    ensures Alive(Run(Started(), events, idleMs))
  {
    if events != [] {
      LoopStaysSingle(events[..|events| - 1], idleMs);
    }
  }

  /** A transaction is begun only when none is open, and a tick is turned away only by a stop. */
  lemma BeginsOnlyWhenClosed(events: seq<Event>, e: Event, idleMs: nat)
    ensures var s := Run(Started(), events, idleMs); var t := After(s, e, idleMs);
            (t.inflight > s.inflight ==> s.inflight == 0 && !s.stopped)
            && (e.TimerFires? && e.k < |s.timers| ==> (t.inflight > s.inflight <==> !s.stopped))
  {
    LoopStaysSingle(events, idleMs);
  }

  /** Once stopped, the loop opens no transaction again: what is open may end, the rest of the run does nothing. */
  lemma {:induction false} StoppedStaysStopped(s: State, more: seq<Event>, idleMs: nat)
    requires s.stopped
    ensures var t := Run(s, more, idleMs); t.stopped && t.inflight <= s.inflight && |t.timers| <= |s.timers|
  {
    if more != [] {
      StoppedStaysStopped(s, more[..|more| - 1], idleMs);
    }
  }

  /**
   * A backlog is drained without delay: the next tick comes at once exactly when rows were
   * published, or the idle time is nothing.
   */
  lemma NextTick(events: seq<Event>, n: Option<nat>, idleMs: nat)
    requires var s := Run(Started(), events, idleMs); s.inflight > 0 && !s.stopped
    ensures var t := After(Run(Started(), events, idleMs), Returned(n), idleMs);
            |t.timers| == 1 && (t.timers[0] == 0 <==> (n.Some? && n.value > 0) || idleMs == 0)
            && (t.timers[0] == 0 || t.timers[0] == idleMs)
  {
    LoopStaysSingle(events, idleMs);
  }
}
