/**
 * packages/database/events.ts: the only writer of case state, and the outbox transaction
 * that publishes the events it appends.
 */
module CaseEvents {
  import opened Wrappers
  import opened CaseMachine
  import opened Progress
  import opened OutboxProtocol

  datatype CaseRow = CaseRow(status: Status, slaStartedAt: Option<int>, ocrHalt: bool, delayOurs: bool,
                             subsequentWrit: bool)

  /** `payloadValid` is the registry's verdict on the payload; `event.at` is the instant of the transaction. */
  datatype AppendInput = AppendInput(caseId: string, event: Event, payloadValid: bool, transition: Option<Status>,
                                     setHold: Option<Hold>, clearHold: Option<Hold>)

  datatype AppendError = InvalidPayload | CaseNotFound | IllegalTransition(from: Status, to: Status)

  function HoldAfter(before: bool, h: Hold, i: AppendInput): bool {
    if i.clearHold == Some(h) then false else if i.setHold == Some(h) then true else before
  }

  /** The case row an accepted event leaves behind. */
  function Updated(row: CaseRow, i: AppendInput): CaseRow {
    CaseRow(if i.transition.Some? then i.transition.value else row.status,
            if i.transition == Some(DOCS_COMPLETE) && row.slaStartedAt.None? then Some(i.event.at)
            else row.slaStartedAt,
            HoldAfter(row.ocrHalt, OCR_HALT, i), HoldAfter(row.delayOurs, DELAY_OURS, i),
            HoldAfter(row.subsequentWrit, SUBSEQUENT_WRIT_MODE, i))
  }

  predicate Touches(i: AppendInput) {
    i.transition.Some? || i.setHold.Some? || i.clearHold.Some?
  }

  /** Whether the event is refused, and why; nothing is written then. */
  function Refusal(cases: map<string, CaseRow>, i: AppendInput): Option<AppendError> {
    if !i.payloadValid then Some(InvalidPayload)
    else if !Touches(i) then None
    else if i.caseId !in cases then Some(CaseNotFound)
    else if i.transition.Some? && !IsLegal(cases[i.caseId].status, i.transition.value)
    then Some(IllegalTransition(cases[i.caseId].status, i.transition.value))
    else None
  }

  class CaseStore {
    var cases: map<string, CaseRow>
    var log: seq<Row>
    /** `publishedAt` set, per event. */
    var stamped: seq<bool>
    /** Ids published to the channels, in order; a rollback does not unpublish. */
    var wire: seq<nat>

    ghost predicate Valid()
      reads this
    {
      |stamped| == |log|
    }

    constructor ()
      ensures Valid() && cases == map[] && log == [] && wire == []
    {
      cases, log, stamped, wire := map[], [], [], [];
    }

    /** `appendCaseEvent`: the event and the case row together, or neither. */
    method AppendCaseEvent(i: AppendInput) returns (r: Result<nat, AppendError>)
      requires Valid()
      modifies this
      ensures Valid() && wire == old(wire)
      ensures match Refusal(old(cases), i)
              case Some(e) => r == Failure(e) && cases == old(cases) && log == old(log) && stamped == old(stamped)
              case None =>
                r == Success(|old(log)|) && log == old(log) + [Row(i.caseId, i.event)]
                && stamped == old(stamped) + [false]
                && cases == if Touches(i) then old(cases)[i.caseId := Updated(old(cases)[i.caseId], i)] else old(cases)
    {
      if !i.payloadValid {
        return Failure(InvalidPayload);
      }
      var updates := cases;
      if i.transition.Some? {
        if i.caseId !in cases {
          return Failure(CaseNotFound);
        }
        var current := cases[i.caseId];
        if !IsLegal(current.status, i.transition.value) {
          return Failure(IllegalTransition(current.status, i.transition.value));
        }
      }
      if Touches(i) {
        if i.caseId !in cases {
          return Failure(CaseNotFound);
        }
        updates := cases[i.caseId := Updated(cases[i.caseId], i)];
      }
      r := Success(|log|);
      cases := updates;
      log := log + [Row(i.caseId, i.event)];
      stamped := stamped + [false];
    }

    /**
     * `publishCaseEventOutbox`: claim, publish and stamp row by row, commit. `fault` is the
     * number of rows published before the transaction fails, if it does; the stamps roll
     * back, the messages stay out. The effect is that of the protocol's own steps.
     */
    method PublishCaseEventOutbox(batchSize: nat, fault: Option<nat>) returns (published: Option<nat>)
      requires Valid()
      requires fault.Some? ==> fault.value <= |Claim(stamped, batchSize)|
      modifies this
      ensures Valid() && cases == old(cases) && log == old(log)
      ensures var rows := Claim(old(stamped), batchSize);
              wire == old(wire) + (if fault.Some? then rows[..fault.value] else rows)
              && stamped == (if fault.Some? then old(stamped) else Stamp(old(stamped), rows))
              && published == (if fault.Some? then None else Some(|rows|))
      ensures var n := Unstamped(old(stamped));
              fault.None? ==> published == Some(if batchSize < n then batchSize else n)
    {
      ClaimSize(stamped, batchSize);
      var rows := Claim(stamped, batchSize);
      var stamps := stamped;
      var k := 0;
      ClaimInLog(stamped, 0, batchSize);
      while k < |rows|
        invariant 0 <= k <= |rows| && (fault.Some? ==> k <= fault.value)
        invariant wire == old(wire) + rows[..k]
        invariant stamped == old(stamped) && cases == old(cases) && log == old(log)
        invariant |stamps| == |stamped|
        invariant forall j :: 0 <= j < |stamps| ==> (stamps[j] <==> stamped[j] || j in rows[..k])
      {
        if fault == Some(k) {
          return None;
        }
        wire := wire + [rows[k]];
        stamps := stamps[rows[k] := true];
        assert rows[..k + 1] == rows[..k] + [rows[k]];
        k := k + 1;
      }
      assert rows[..|rows|] == rows;
      if fault.Some? {
        return None;
      }
      assert stamps == Stamp(stamped, rows);
      stamped := stamps;
      published := Some(|rows|);
    }
  }

  lemma {:induction false} ClaimInLog(stamped: seq<bool>, i: nat, size: nat)
    requires i <= |stamped|
    ensures forall k :: 0 <= k < |ClaimFrom(stamped, i, size)| ==> ClaimFrom(stamped, i, size)[k] < |stamped|
    decreases |stamped| - i
  {
    if size > 0 && i < |stamped| {
      ClaimInLog(stamped, i + 1, if stamped[i] then size else size - 1);
    }
  }

  // ---- The transaction is a run of protocol steps ----

  function Publishes(n: nat): seq<Label> {
    seq(n, k => PublishOne)
  }

  /** The spine with its stamps, wire and transaction replaced. */
  function Outgoing(s: Spine, stamped: seq<bool>, wire: seq<nat>, tx: Option<Tx>): Spine {
    Spine(s.log, stamped, wire, tx, s.starts, s.asked, s.page)
  }

  lemma {:induction false} PublishesRun(c: string, s: Spine, rows: seq<nat>, k: nat)
    requires s.tx == Some(Tx(rows, 0)) && k <= |rows|
    ensures Run(c, s, Publishes(k)) == Outgoing(s, s.stamped, s.wire + rows[..k], Some(Tx(rows, k)))
  {
    if k > 0 {
      PublishesRun(c, s, rows, k - 1);
      assert Publishes(k)[..k - 1] == Publishes(k - 1);
      assert s.wire + rows[..k - 1] + [rows[k - 1]] == s.wire + rows[..k];
    } else {
      assert s.wire + rows[..0] == s.wire;
    }
  }

  /** What the method does to log, stamps and wire is a tick, its publishes, and a commit or a crash. */
  lemma TransactionIsProtocolRun(c: string, s: Spine, batchSize: nat, fault: Option<nat>)
    requires s.tx.None? && |s.stamped| == |s.log|
    requires fault.Some? ==> fault.value <= |Claim(s.stamped, batchSize)|
    ensures var rows := Claim(s.stamped, batchSize);
            var sent := if fault.Some? then rows[..fault.value] else rows;
            Step(c, Run(c, Step(c, s, Tick(batchSize)), Publishes(|sent|)), if fault.Some? then Crash else Commit)
            == Outgoing(s, if fault.Some? then s.stamped else Stamp(s.stamped, rows), s.wire + sent, None)
  {
    var rows := Claim(s.stamped, batchSize);
    var n := if fault.Some? then fault.value else |rows|;
    PublishesRun(c, Step(c, s, Tick(batchSize)), rows, n);
    assert rows[..|rows|] == rows;
  }

  // ---- The outbox drains ----

  /** One tick without a fault: claim, publish each row claimed, commit. */
  function RoundLabels(stamped: seq<bool>, size: nat): seq<Label> {
    [Tick(size)] + Publishes(|Claim(stamped, size)|) + [Commit]
  }

  function Round(c: string, s: Spine, size: nat): Spine {
    Run(c, s, RoundLabels(s.stamped, size))
  }

  function Rounds(c: string, s: Spine, size: nat, k: nat): Spine {
    if k == 0 then s else Round(c, Rounds(c, s, size, k - 1), size)
  }

  lemma {:induction false} RunConcat(c: string, s: Spine, a: seq<Label>, b: seq<Label>)
    ensures Run(c, s, a + b) == Run(c, Run(c, s, a), b)
  {
    if b == [] {
      assert a + b == a;
    } else {
      assert (a + b)[..|a + b| - 1] == a + b[..|b| - 1];
      RunConcat(c, s, a, b[..|b| - 1]);
    }
  }

  lemma RunOne(c: string, s: Spine, l: Label)
    ensures Run(c, s, [l]) == Step(c, s, l)
  {
    assert [l][..0] == [];
  }

  lemma RoundIs(c: string, s: Spine, size: nat)
    requires s.tx.None? && |s.stamped| == |s.log|
    ensures Round(c, s, size)
         == Outgoing(s, Stamp(s.stamped, Claim(s.stamped, size)), s.wire + Claim(s.stamped, size), None)
  {
    var n := |Claim(s.stamped, size)|;
    RunConcat(c, s, [Tick(size)] + Publishes(n), [Commit]);
    RunConcat(c, s, [Tick(size)], Publishes(n));
    RunOne(c, s, Tick(size));
    RunOne(c, Run(c, s, [Tick(size)] + Publishes(n)), Commit);
    TransactionIsProtocolRun(c, s, size, None);
  }

  /** A round stamps the next rows, as many as the batch and the backlog allow. */
  lemma RoundStamps(c: string, s: Spine, f: nat, size: nat) returns (f': nat)
    requires Inv(s, f) && s.tx.None?
    ensures f' == if size < |s.log| - f then f + size else |s.log|
    ensures Inv(Round(c, s, size), f') && Round(c, s, size).tx.None? && Round(c, s, size).log == s.log
    ensures var n := Unstamped(s.stamped);
            Unstamped(Round(c, s, size).stamped) == if size < n then n - size else 0
  {
    var rows := Claim(s.stamped, size);
    f' := f + |rows|;
    RoundIs(c, s, size);
    ClaimSize(s.stamped, size);
    UnstampedIsRest(s.stamped, f, 0);
    ClaimIsNext(s.stamped, f, 0, size);
    StampedNext(s.stamped, f, rows);
    WireClaimed(s.wire, f, rows, |s.log|, s.page.delivered);
    UnstampedIsRest(Stamp(s.stamped, rows), f', 0);
  }

  /** The wire within the log, published up to `high`, its first `d` messages as they were. */
  ghost predicate Extends(wire: seq<nat>, was: seq<nat>, n: nat, d: nat, high: nat) {
    d <= |was| && was <= wire && WireWithin(wire, n) && high <= High(wire)
  }

  lemma ExtendsOne(wire: seq<nat>, was: seq<nat>, n: nat, d: nat, id: nat)
    requires Extends(wire, was, n, d, id) && id < n
    ensures Extends(wire + [id], was, n, d, id + 1)
  {
    WirePublish(wire, id, n, |wire|);
  }

  ghost predicate Consecutive(rows: seq<nat>, f: nat) {
    forall k :: 0 <= k < |rows| ==> rows[k] == f + k
  }

  lemma FirstOf(wire: seq<nat>, rows: seq<nat>, f: nat)
    requires rows != [] && Consecutive(rows, f)
    ensures rows[0] == f && Consecutive(rows[1..], f + 1) && wire + rows == (wire + [f]) + rows[1..]
  {
  }

  lemma {:induction false} WireExtends(wire: seq<nat>, was: seq<nat>, n: nat, d: nat, f: nat, rows: seq<nat>)
    requires Extends(wire, was, n, d, f) && f + |rows| <= n && Consecutive(rows, f)
    ensures Extends(wire + rows, was, n, d, f + |rows|)
    decreases |rows|
  {
    if rows == [] {
      assert wire + rows == wire;
    } else {
      ExtendsOne(wire, was, n, d, f);
      FirstOf(wire, rows, f);
      WireExtends(wire + [f], was, n, d, f + 1, rows[1..]);
    }
  }

  lemma WireClaimed(wire: seq<nat>, f: nat, rows: seq<nat>, n: nat, d: nat)
    requires WireWithin(wire, n) && f <= High(wire) && d <= |wire| && f + |rows| <= n && Consecutive(rows, f)
    ensures WireWithin(wire + rows, n) && f + |rows| <= High(wire + rows) && (wire + rows)[..d] == wire[..d]
  {
    WireExtends(wire, wire, n, d, f, rows);
  }

  lemma {:induction false} RoundsStamp(c: string, s: Spine, f: nat, size: nat, k: nat) returns (f': nat)
    requires Inv(s, f) && s.tx.None?
    ensures f' == if k * size < |s.log| - f then f + k * size else |s.log|
    ensures var t := Rounds(c, s, size, k); Inv(t, f') && t.tx.None? && t.log == s.log
  {
    if k == 0 {
      f' := f;
    } else {
      f' := RoundsStamp(c, s, f, size, k - 1);
      OneMore(k, size);
      f' := RoundStamps(c, Rounds(c, s, size, k - 1), f', size);
    }
  }

  lemma OneMore(k: nat, size: nat)
    requires k > 0
    ensures k * size == (k - 1) * size + size && (k - 1) * size >= 0
  {
  }

  /**
   * From any reachable state with no transaction open, enough undisturbed ticks of a batch of
   * any size publish and stamp every row.
   */
  lemma OutboxDrains(c: string, labels: seq<Label>, size: nat, k: nat)
    requires var s := Run(c, START, labels); s.tx.None? && Unstamped(s.stamped) <= k * size
    ensures var s := Run(c, START, labels); var t := Rounds(c, s, size, k);
            t.log == s.log && |t.stamped| == |s.log| && Unstamped(t.stamped) == 0
            && forall id :: 0 <= id < |s.log| ==> t.stamped[id] && id in t.wire
  {
    var s := Run(c, START, labels);
    var f := RunKeeps(c, labels);
    UnstampedIsRest(s.stamped, f, 0);
    var g := RoundsStamp(c, s, f, size, k);
    var t := Rounds(c, s, size, k);
    UnstampedIsRest(t.stamped, g, 0);
    forall id | 0 <= id < |s.log|
      ensures id in t.wire
    {
      LadderHits(t.wire, id);
    }
  }

  // ---- Runs of one case ----

  const DRAFT_CASE: CaseRow := CaseRow(DRAFT, None, false, false, false)

  predicate Accepted(row: CaseRow, i: AppendInput) {
    i.payloadValid && (i.transition.Some? ==> IsLegal(row.status, i.transition.value))
  }

  function CaseStep(row: CaseRow, i: AppendInput): CaseRow {
    if Accepted(row, i) then Updated(row, i) else row
  }

  /** On a case that exists, the store refuses just what `Accepted` refuses and writes just what `CaseStep` says. */
  lemma StoreFollowsCase(cases: map<string, CaseRow>, i: AppendInput)
    requires i.caseId in cases
    ensures Refusal(cases, i).None? <==> Accepted(cases[i.caseId], i)
    ensures !Touches(i) ==> Updated(cases[i.caseId], i) == cases[i.caseId]
  {
  }

  function CaseRun(inputs: seq<AppendInput>): CaseRow {
    if inputs == [] then DRAFT_CASE else CaseStep(CaseRun(inputs[..|inputs| - 1]), inputs[|inputs| - 1])
  }

  /** The statuses entered, in order, from DRAFT on. */
  function History(inputs: seq<AppendInput>): seq<Status> {
    if inputs == [] then [DRAFT]
    else
      var n := |inputs| - 1;
      History(inputs[..n])
      + if inputs[n].transition.Some? && Accepted(CaseRun(inputs[..n]), inputs[n])
        then [inputs[n].transition.value] else []
  }

  /** Input `k` was accepted and entered `s`. */
  predicate Enters(inputs: seq<AppendInput>, k: nat, s: Status)
    requires k < |inputs|
  {
    inputs[k].transition == Some(s) && Accepted(CaseRun(inputs[..k]), inputs[k])
  }

  ghost predicate FirstEntry(inputs: seq<AppendInput>, k: nat, s: Status) {
    k < |inputs| && Enters(inputs, k, s) && forall j: nat :: j < k ==> !Enters(inputs, j, s)
  }

  /** The SLA stamp is the instant of the first entry to DOCS_COMPLETE, and there is none before it. */
  lemma {:induction false} SlaStampIsFirstEntry(inputs: seq<AppendInput>, k: nat)
    ensures FirstEntry(inputs, k, DOCS_COMPLETE) ==> CaseRun(inputs).slaStartedAt == Some(inputs[k].event.at)
    ensures CaseRun(inputs).slaStartedAt.Some? ==> exists j :: FirstEntry(inputs, j, DOCS_COMPLETE)
  {
    if inputs != [] {
      var n := |inputs| - 1;
      var prefix := inputs[..n];
      SlaStampIsFirstEntry(prefix, k);
      assert forall j: nat :: j < n ==> prefix[..j] == inputs[..j];
      assert forall j: nat :: j < n ==> (Enters(prefix, j, DOCS_COMPLETE) <==> Enters(inputs, j, DOCS_COMPLETE));
      if FirstEntry(inputs, k, DOCS_COMPLETE) && k < n {
        assert FirstEntry(prefix, k, DOCS_COMPLETE);
      }
      if CaseRun(prefix).slaStartedAt.Some? {
        var j :| FirstEntry(prefix, j, DOCS_COMPLETE);
        assert FirstEntry(inputs, j, DOCS_COMPLETE);
        if FirstEntry(inputs, n, DOCS_COMPLETE) {
          assert false;
        }
      } else if CaseRun(inputs).slaStartedAt.Some? {
        forall j: nat | j < n
          ensures !Enters(inputs, j, DOCS_COMPLETE)
        {
          NoStampNoEntry(prefix, j);
        }
        assert FirstEntry(inputs, n, DOCS_COMPLETE);
      }
    }
  }

  lemma {:induction false} NoStampNoEntry(inputs: seq<AppendInput>, j: nat)
    requires j < |inputs| && CaseRun(inputs).slaStartedAt.None?
    ensures !Enters(inputs, j, DOCS_COMPLETE)
  {
    var n := |inputs| - 1;
    if j < n {
      NoStampNoEntry(inputs[..n], j);
      assert inputs[..n][..j] == inputs[..j];
    }
  }

  /** Once set, the stamp never changes, whatever comes. */
  lemma StampNeverChanges(row: CaseRow, i: AppendInput)
    ensures row.slaStartedAt.Some? ==> CaseStep(row, i).slaStartedAt == row.slaStartedAt
  {
  }

  predicate InPipeline(s: Status) {
    s != DRAFT && s != AWAITING_DOCS && s != REFUNDED && s != DELETED
  }

  /** Every case from DOCS_COMPLETE through DELIVERED carries the stamp. */
  lemma {:induction false} PipelineIsStamped(inputs: seq<AppendInput>)
    ensures InPipeline(CaseRun(inputs).status) ==> CaseRun(inputs).slaStartedAt.Some?
  {
    if inputs != [] {
      PipelineIsStamped(inputs[..|inputs| - 1]);
    }
  }

  /** The statuses of `route` were entered in that order since the last AWAITING_DOCS. */
  predicate Passed(h: seq<Status>, route: seq<Status>) {
    if route == [] then true
    else if h == [] || h[|h| - 1] == AWAITING_DOCS then false
    else
      || (h[|h| - 1] == route[|route| - 1] && Passed(h[..|h| - 1], route[..|route| - 1]))
      || Passed(h[..|h| - 1], route)
  }

  /** What a case in each status has behind it of the route from DOCS_COMPLETE over ANALYZING to QA_REVIEW. */
  function Behind(s: Status): seq<Status> {
    match s
    case DOCS_COMPLETE | QUOTED | DIGITIZING => [DOCS_COMPLETE]
    case ANALYZING | ADJUDICATING => [DOCS_COMPLETE, ANALYZING]
    case QA_REVIEW | QA_REJECTED | READY | DELIVERED => [DOCS_COMPLETE, ANALYZING, QA_REVIEW]
    case _ => []
  }

  lemma PassedStill(h: seq<Status>, s: Status, route: seq<Status>)
    requires Passed(h, route) && s != AWAITING_DOCS
    ensures Passed(h + [s], route)
  {
    assert (h + [s])[..|h|] == h;
  }

  lemma PassedNow(h: seq<Status>, s: Status, route: seq<Status>)
    requires Passed(h, route) && s != AWAITING_DOCS
    ensures Passed(h + [s], route + [s])
  {
    assert (h + [s])[..|h|] == h && (route + [s])[..|route|] == route;
  }

  /** A longer route passed means the shorter one was. */
  lemma {:induction false} PassedPrefix(h: seq<Status>, route: seq<Status>)
    requires route != [] && Passed(h, route)
    ensures Passed(h, route[..|route| - 1])
    decreases |h|
  {
    if |route| > 1 {
      var g := h[..|h| - 1];
      var short := route[..|route| - 1];
      if h[|h| - 1] == route[|route| - 1] && Passed(g, short) {
      } else {
        PassedPrefix(g, route);
      }
    }
  }

  /** The route behind a status is kept by every legal transition but the return to AWAITING_DOCS. */
  lemma {:induction false} RouteBehind(inputs: seq<AppendInput>)
    ensures var h := History(inputs);
            h != [] && h[|h| - 1] == CaseRun(inputs).status && Passed(h, Behind(CaseRun(inputs).status))
  {
    if inputs != [] {
      var n := |inputs| - 1;
      var before, i := CaseRun(inputs[..n]), inputs[n];
      RouteBehind(inputs[..n]);
      if i.transition.Some? && Accepted(before, i) {
        RouteStep(History(inputs[..n]), before.status, i.transition.value);
      } else {
        assert History(inputs) == History(inputs[..n]);
      }
    }
  }

  /** A legal transition restarts the route, keeps it, takes its next status, or goes back for a re-analysis. */
  lemma BehindStep(from: Status, to: Status)
    requires IsLegal(from, to)
    ensures
      || Behind(to) == []
      || (to != AWAITING_DOCS && Behind(to) == Behind(from))
      || (to != AWAITING_DOCS && Behind(to) == Behind(from) + [to])
      || (to != AWAITING_DOCS && Behind(from) == Behind(to) + [QA_REVIEW])
  {
  }

  lemma RouteStep(h: seq<Status>, from: Status, to: Status)
    requires Passed(h, Behind(from)) && IsLegal(from, to)
    ensures Passed(h + [to], Behind(to))
  {
    BehindStep(from, to);
    if to != AWAITING_DOCS {
      if Behind(to) == Behind(from) {
        PassedStill(h, to, Behind(to));
      } else if Behind(to) == Behind(from) + [to] {
        PassedNow(h, to, Behind(from));
      } else if Behind(from) == Behind(to) + [QA_REVIEW] {
        PassedPrefix(h, Behind(from));
        assert (Behind(to) + [QA_REVIEW])[..|Behind(to)|] == Behind(to);
        PassedStill(h, to, Behind(to));
      }
    }
  }

  /**
   * Every case in READY has passed DOCS_COMPLETE, ANALYZING and QA_REVIEW, in order, since it last
   * awaited documents.
   */
  lemma ReadyWasReviewed(inputs: seq<AppendInput>)
    requires CaseRun(inputs).status == READY
    ensures Passed(History(inputs), [DOCS_COMPLETE, ANALYZING, QA_REVIEW])
  {
    RouteBehind(inputs);
  }

  /** DELETED is absorbing: whatever follows, the status stays and no transition is accepted. */
  lemma {:induction false} DeletedForever(inputs: seq<AppendInput>, more: seq<AppendInput>)
    requires CaseRun(inputs).status == DELETED
    ensures CaseRun(inputs + more).status == DELETED && History(inputs + more) == History(inputs)
  {
    if more == [] {
      assert inputs + more == inputs;
    } else {
      var n := |more| - 1;
      DeletedForever(inputs, more[..n]);
      assert (inputs + more)[..|inputs + more| - 1] == inputs + more[..n];
    }
  }

  /** A hold named to be cleared ends clear, even if set by the same event; one named to be set ends set. */
  lemma HoldsAreSetAndCleared(row: CaseRow, i: AppendInput)
    requires Accepted(row, i)
    ensures var r := CaseStep(row, i);
            && (i.clearHold == Some(OCR_HALT) ==> !r.ocrHalt) && (i.clearHold == Some(DELAY_OURS) ==> !r.delayOurs)
            && (i.clearHold == Some(SUBSEQUENT_WRIT_MODE) ==> !r.subsequentWrit)
            && (i.setHold != i.clearHold ==>
                  && (i.setHold == Some(OCR_HALT) ==> r.ocrHalt) && (i.setHold == Some(DELAY_OURS) ==> r.delayOurs)
                  && (i.setHold == Some(SUBSEQUENT_WRIT_MODE) ==> r.subsequentWrit))
  {
  }

  /** Hold changes never move the status, and touch only the hold they name. */
  lemma HoldsAreOrthogonal(row: CaseRow, i: AppendInput)
    requires i.transition.None?
    ensures CaseStep(row, i).status == row.status && CaseStep(row, i).slaStartedAt == row.slaStartedAt
    ensures i.setHold != Some(OCR_HALT) && i.clearHold != Some(OCR_HALT) ==> CaseStep(row, i).ocrHalt == row.ocrHalt
    ensures i.setHold != Some(DELAY_OURS) && i.clearHold != Some(DELAY_OURS)
            ==> CaseStep(row, i).delayOurs == row.delayOurs
    ensures i.setHold != Some(SUBSEQUENT_WRIT_MODE) && i.clearHold != Some(SUBSEQUENT_WRIT_MODE)
            ==> CaseStep(row, i).subsequentWrit == row.subsequentWrit
  {
  }
}
