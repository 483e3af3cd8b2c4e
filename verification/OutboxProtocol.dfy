/**
 * The event spine of packages/database/events.ts and the page that follows it, as a state
 * machine: appends, the outbox transaction with its claim, publishes, commit and crash, the
 * delivery of messages, in order and again, and the page's own polls of the checklist route
 * (apps/api/src/routes/intake.ts), which send the run events of the latest run. One process
 * publishes. This module has the publisher, UnpolledPage a page that never polls, PagePolls
 * one that does.
 */
module OutboxProtocol {
  import opened Wrappers
  import opened Progress
  import opened ProgressFeed

  /** A CaseEvent row; its id is its index in the log. */
  datatype Row = Row(caseId: string, event: Event)

  /** The publisher's open transaction: the rows it claimed and how many it has published. */
  datatype Tx = Tx(rows: seq<nat>, done: nat)

  /** The rows of the log from `from` up to, not including, `upTo`. */
  datatype Window = Window(from: nat, upTo: nat)

  /**
   * The page has heard the first `delivered` messages of the wire and holds the run events
   * `runs`. `polled` is bookkeeping: of the windows of the polls it has received, the latest.
   */
  datatype Page = Page(delivered: nat, runs: seq<Event>, polled: Window)

  /**
   * `stamped` is publishedAt; `wire` lists the ids published, in order; `starts` has the
   * first row of each analysis run of the page's case; `asked` lists the windows of polls
   * the server has answered and the page not yet received.
   */
  datatype Spine = Spine(log: seq<Row>, stamped: seq<bool>, wire: seq<nat>, tx: Option<Tx>,
                         starts: seq<nat>, asked: seq<Window>, page: Page)

  datatype Label =
    | Append(row: Row)
    | Tick(batchSize: nat)
    | PublishOne
    | Commit
    | Crash
    | Deliver
    | Redeliver(k: nat)
    | BeginRun
    | Open
    | Ask
    | Answer(k: nat)

  /** A page subscribed from the start of the log. */
  const START: Spine := Spine([], [], [], None, [], [], Page(0, [], Window(0, 0)))

  /** The first `size` unstamped rows from id `i` on, in id order. */
  function ClaimFrom(stamped: seq<bool>, i: nat, size: nat): seq<nat>
    requires i <= |stamped|
    decreases |stamped| - i
  {
    if size == 0 || i == |stamped| then []
    else if stamped[i] then ClaimFrom(stamped, i + 1, size)
    else [i] + ClaimFrom(stamped, i + 1, size - 1)
  }

  function Claim(stamped: seq<bool>, size: nat): seq<nat> {
    ClaimFrom(stamped, 0, size)
  }

  function Stamp(stamped: seq<bool>, rows: seq<nat>): seq<bool> {
    seq(|stamped|, k requires 0 <= k < |stamped| => stamped[k] || k in rows)
  }

  // ---- The page ----

  /** The case's own events, in log order. */
  function EventsOf(c: string, log: seq<Row>): seq<Event> {
    if log == [] then []
    else EventsOf(c, log[..|log| - 1]) + if log[|log| - 1].caseId == c then [log[|log| - 1].event] else []
  }

  /** A row with a run event of the case. */
  predicate RunRow(c: string, row: Row) {
    row.caseId == c && IsRunEvent(row.event)
  }

  predicate Spans(w: Window, n: nat) {
    w.from <= w.upTo <= n
  }

  /** What the checklist route sends of a window: its run events, projected. */
  function View(c: string, log: seq<Row>, w: Window): seq<Event>
    requires Spans(w, |log|)
  {
    RunItems(EventsOf(c, log[w.from..w.upTo]))
  }

  /** The window a poll reads: the latest run's rows, or none before the first run. */
  function Latest(s: Spine): Window {
    Window(if s.starts != [] then s.starts[|s.starts| - 1] else |s.log|, |s.log|)
  }

  /** The page of case `c` hears its own channel only. */
  function Receive(c: string, runs: seq<Event>, row: Row): seq<Event> {
    if row.caseId == c then AddRun(runs, row.event) else runs
  }

  /** Of two windows polled, the one read later. */
  function Later(a: Window, b: Window): Window {
    if a.upTo < b.upTo || (a.upTo == b.upTo && a.from <= b.from) then b else a
  }

  lemma LaterIsOne(a: Window, b: Window)
    ensures Later(a, b) == a || Later(a, b) == b
    ensures Later(a, b).upTo >= a.upTo && Later(a, b).upTo >= b.upTo
    ensures a.upTo == b.upTo ==> Later(a, b).from >= a.from && Later(a, b).from >= b.from
  {
  }

  /** The page after hearing message `k` of the wire. */
  function Hear(c: string, s: Spine, k: nat, delivered: nat): Page
    requires k < |s.wire|
  {
    Page(delivered, if s.wire[k] < |s.log| then Receive(c, s.page.runs, s.log[s.wire[k]]) else s.page.runs,
         s.page.polled)
  }

  function WithPage(s: Spine, asked: seq<Window>, page: Page): Spine {
    Spine(s.log, s.stamped, s.wire, s.tx, s.starts, asked, page)
  }

  /**
   * One step; a step that is not enabled changes nothing (a tick while one runs is the
   * overlap guard). Opening the page empties its feed and subscribes it to what is published
   * from then on.
   */
  function Step(c: string, s: Spine, l: Label): Spine {
    match l
    case Append(row) => Spine(s.log + [row], s.stamped + [false], s.wire, s.tx, s.starts, s.asked, s.page)
    case Tick(size) =>
      if s.tx.Some? then s
      else Spine(s.log, s.stamped, s.wire, Some(Tx(Claim(s.stamped, size), 0)), s.starts, s.asked, s.page)
    case PublishOne =>
      if s.tx.Some? && s.tx.value.done < |s.tx.value.rows| then
        Spine(s.log, s.stamped, s.wire + [s.tx.value.rows[s.tx.value.done]],
              Some(Tx(s.tx.value.rows, s.tx.value.done + 1)), s.starts, s.asked, s.page)
      else s
    case Commit =>
      if s.tx.Some? && s.tx.value.done == |s.tx.value.rows|
      then Spine(s.log, Stamp(s.stamped, s.tx.value.rows), s.wire, None, s.starts, s.asked, s.page)
      else s
    case Crash => Spine(s.log, s.stamped, s.wire, None, s.starts, s.asked, s.page)
    case Deliver =>
      if s.page.delivered < |s.wire|
      then WithPage(s, s.asked, Hear(c, s, s.page.delivered, s.page.delivered + 1)) else s
    case Redeliver(k) =>
      if k < s.page.delivered && k < |s.wire| then WithPage(s, s.asked, Hear(c, s, k, s.page.delivered)) else s
    case BeginRun => Spine(s.log, s.stamped, s.wire, s.tx, s.starts + [|s.log|], s.asked, s.page)
    case Open => WithPage(s, [], Page(|s.wire|, [], Window(0, 0)))
    case Ask => WithPage(s, s.asked + [Latest(s)], s.page)
    case Answer(k) =>
      if k < |s.asked| && Spans(s.asked[k], |s.log|) then
        WithPage(s, s.asked[..k] + s.asked[k + 1..],
                 Page(s.page.delivered, View(c, s.log, s.asked[k]), Later(s.page.polled, s.asked[k])))
      else s
  }

  function Run(c: string, s: Spine, labels: seq<Label>): Spine {
    if labels == [] then s else Step(c, Run(c, s, labels[..|labels| - 1]), labels[|labels| - 1])
  }

  // ---- The publisher's invariant ----

  /** One past the highest id published. */
  function High(wire: seq<nat>): nat {
    if wire == [] then 0
    else
      var before := High(wire[..|wire| - 1]);
      if wire[|wire| - 1] < before then before else wire[|wire| - 1] + 1
  }

  /** Every publish repeats an id or takes the next one. */
  ghost predicate Ladder(wire: seq<nat>) {
    forall k :: 0 <= k < |wire| ==> wire[k] <= High(wire[..k])
  }

  ghost predicate StampedUpTo(stamped: seq<bool>, f: nat) {
    f <= |stamped| && forall k :: 0 <= k < |stamped| ==> (stamped[k] <==> k < f)
  }

  /** An open transaction claimed the next rows, and has published those it has done. */
  ghost predicate TxFollows(rows: nat, wire: seq<nat>, tx: Option<Tx>, f: nat) {
    tx.Some? ==>
      && tx.value.done <= |tx.value.rows| && f + |tx.value.rows| <= rows
      && (forall k :: 0 <= k < |tx.value.rows| ==> tx.value.rows[k] == f + k)
      && f + tx.value.done <= High(wire)
  }

  ghost predicate WireWithin(wire: seq<nat>, rows: nat) {
    Ladder(wire) && forall k :: 0 <= k < |wire| ==> wire[k] < rows
  }

  /** The publisher's side: `f` rows are stamped, all of them published. */
  ghost predicate Published(rows: nat, stamped: seq<bool>, wire: seq<nat>, tx: Option<Tx>, f: nat) {
    && |stamped| == rows && StampedUpTo(stamped, f) && WireWithin(wire, rows)
    && f <= High(wire) && TxFollows(rows, wire, tx, f)
  }

  /** The starts in order, the latest still at or below the end of the log. */
  ghost predicate StartsWithin(starts: seq<nat>, rows: nat) {
    && (forall j, k :: 0 <= j < k < |starts| ==> starts[j] <= starts[k])
    && forall k :: 0 <= k < |starts| ==> starts[k] <= rows
  }

  /** The window is one the route read at some time: of the run latest then, or empty before the first run. */
  ghost predicate Routed(w: Window, starts: seq<nat>, rows: nat) {
    && Spans(w, rows)
    && (forall k :: 0 <= k < |starts| ==> starts[k] <= w.from || w.upTo <= starts[k])
    && (w.from in starts || (w.from == w.upTo && forall k :: 0 <= k < |starts| ==> w.upTo <= starts[k]))
  }

  ghost predicate AllRouted(ws: seq<Window>, starts: seq<nat>, rows: nat) {
    forall k :: 0 <= k < |ws| ==> Routed(ws[k], starts, rows)
  }

  /** The page's positions lie in the wire and the log. */
  ghost predicate Placed(rows: nat, wire: seq<nat>, starts: seq<nat>, asked: seq<Window>, page: Page) {
    && page.delivered <= |wire| && StartsWithin(starts, rows)
    && Routed(page.polled, starts, rows) && AllRouted(asked, starts, rows)
  }

  ghost predicate Inv(s: Spine, f: nat) {
    && Published(|s.log|, s.stamped, s.wire, s.tx, f)
    && Placed(|s.log|, s.wire, s.starts, s.asked, s.page)
  }

  lemma {:induction false} ClaimIsNext(stamped: seq<bool>, f: nat, i: nat, size: nat)
    requires StampedUpTo(stamped, f) && i <= |stamped|
    ensures var rows := ClaimFrom(stamped, i, size); var from := if i < f then f else i;
            from + |rows| <= |stamped| && |rows| <= size && forall k :: 0 <= k < |rows| ==> rows[k] == from + k
    decreases |stamped| - i
  {
    if size > 0 && i < |stamped| {
      if stamped[i] {
        ClaimIsNext(stamped, f, i + 1, size);
      } else {
        ClaimIsNext(stamped, f, i + 1, size - 1);
      }
    }
  }

  /** How many rows from id `i` on are not stamped. */
  function UnstampedFrom(stamped: seq<bool>, i: nat): nat
    requires i <= |stamped|
    decreases |stamped| - i
  {
    if i == |stamped| then 0 else UnstampedFrom(stamped, i + 1) + if stamped[i] then 0 else 1
  }

  function Unstamped(stamped: seq<bool>): nat {
    UnstampedFrom(stamped, 0)
  }

  lemma {:induction false} ClaimFromSize(stamped: seq<bool>, i: nat, size: nat)
    requires i <= |stamped|
    ensures var n := UnstampedFrom(stamped, i); |ClaimFrom(stamped, i, size)| == if size < n then size else n
    decreases |stamped| - i
  {
    if size > 0 && i < |stamped| {
      ClaimFromSize(stamped, i + 1, if stamped[i] then size else size - 1);
    }
  }

  /** A claim takes as many rows as the batch allows and are not stamped. */
  lemma ClaimSize(stamped: seq<bool>, size: nat)
    ensures var n := Unstamped(stamped); |Claim(stamped, size)| == if size < n then size else n
  {
    ClaimFromSize(stamped, 0, size);
  }

  /** The rows are unstamped, in order, and an unstamped row left out comes after a full batch. */
  ghost predicate IsClaim(stamped: seq<bool>, i: nat, size: nat, rows: seq<nat>) {
    && (forall k :: 0 <= k < |rows| ==> i <= rows[k] < |stamped| && !stamped[rows[k]])
    && (forall j, k :: 0 <= j < k < |rows| ==> rows[j] < rows[k])
    && forall id :: i <= id < |stamped| && !stamped[id] && id !in rows ==>
         |rows| == size && forall k :: 0 <= k < |rows| ==> rows[k] < id
  }

  lemma ClaimCons(stamped: seq<bool>, i: nat, size: nat, rest: seq<nat>)
    requires i < |stamped| && !stamped[i] && size > 0 && IsClaim(stamped, i + 1, size - 1, rest)
    ensures IsClaim(stamped, i, size, [i] + rest)
  {
    var rows := [i] + rest;
    assert rows[0] == i && forall k :: 0 < k < |rows| ==> rows[k] == rest[k - 1];
    forall id | i <= id < |stamped| && !stamped[id] && id !in rows
      ensures |rows| == size && forall k :: 0 <= k < |rows| ==> rows[k] < id
    {
      assert id != i && id !in rest;
    }
  }

  lemma ClaimSkip(stamped: seq<bool>, i: nat, size: nat, rows: seq<nat>)
    requires i < |stamped| && stamped[i] && IsClaim(stamped, i + 1, size, rows)
    ensures IsClaim(stamped, i, size, rows)
  {
  }

  lemma {:induction false} ClaimFromFirst(stamped: seq<bool>, i: nat, size: nat)
    requires i <= |stamped|
    ensures IsClaim(stamped, i, size, ClaimFrom(stamped, i, size))
    decreases |stamped| - i
  {
    if size > 0 && i < |stamped| {
      if stamped[i] {
        ClaimFromFirst(stamped, i + 1, size);
        ClaimSkip(stamped, i, size, ClaimFrom(stamped, i + 1, size));
      } else {
        ClaimFromFirst(stamped, i + 1, size - 1);
        ClaimCons(stamped, i, size, ClaimFrom(stamped, i + 1, size - 1));
      }
    }
  }

  /** A claim is the first unstamped rows, in id order. */
  lemma ClaimIsFirst(stamped: seq<bool>, size: nat)
    ensures IsClaim(stamped, 0, size, Claim(stamped, size))
  {
    ClaimFromFirst(stamped, 0, size);
  }

  lemma {:induction false} UnstampedIsRest(stamped: seq<bool>, f: nat, i: nat)
    requires StampedUpTo(stamped, f) && i <= |stamped|
    ensures UnstampedFrom(stamped, i) == if i < f then |stamped| - f else |stamped| - i
    decreases |stamped| - i
  {
    if i < |stamped| {
      UnstampedIsRest(stamped, f, i + 1);
    }
  }

  lemma HighSnoc(wire: seq<nat>, id: nat)
    ensures High(wire + [id]) == if id < High(wire) then High(wire) else id + 1
    ensures Ladder(wire) && id <= High(wire) ==> Ladder(wire + [id])
  {
    assert (wire + [id])[..|wire|] == wire;
    forall k | 0 <= k < |wire|
      ensures (wire + [id])[..k] == wire[..k]
    {
    }
  }

  lemma HighPrefix(wire: seq<nat>, k: nat)
    requires k < |wire|
    ensures High(wire[..k + 1]) == if wire[k] < High(wire[..k]) then High(wire[..k]) else wire[k] + 1
  {
    assert wire[..k + 1] == wire[..k] + [wire[k]];
    HighSnoc(wire[..k], wire[k]);
  }

  lemma {:induction false} HighBounds(wire: seq<nat>, k: nat)
    requires k <= |wire|
    ensures forall j :: 0 <= j < k ==> wire[j] < High(wire[..k])
  {
    if k > 0 {
      HighBounds(wire, k - 1);
      HighPrefix(wire, k - 1);
    }
  }

  // ---- Every step keeps the publisher's invariant ----

  lemma TickKeeps(c: string, s: Spine, f: nat, size: nat)
    requires Inv(s, f)
    ensures Inv(Step(c, s, Tick(size)), f)
  {
    ClaimIsNext(s.stamped, f, 0, size);
  }

  lemma PublishKeeps(c: string, s: Spine, f: nat)
    requires Inv(s, f)
    ensures Inv(Step(c, s, PublishOne), f)
  {
    if s.tx.Some? && s.tx.value.done < |s.tx.value.rows| {
      WirePublish(s.wire, s.tx.value.rows[s.tx.value.done], |s.log|, s.page.delivered);
    }
  }

  lemma WirePublish(wire: seq<nat>, id: nat, n: nat, d: nat)
    requires Ladder(wire) && id <= High(wire) && id < n && d <= |wire| && forall k :: 0 <= k < |wire| ==> wire[k] < n
    ensures Ladder(wire + [id]) && forall k :: 0 <= k < |wire + [id]| ==> (wire + [id])[k] < n
    ensures High(wire + [id]) >= High(wire) && High(wire + [id]) >= id + 1 && (wire + [id])[..d] == wire[..d]
  {
    HighSnoc(wire, id);
  }

  lemma CommitKeeps(c: string, s: Spine, f: nat) returns (f': nat)
    requires Inv(s, f)
    ensures Inv(Step(c, s, Commit), f')
  {
    f' := f;
    if s.tx.Some? && s.tx.value.done == |s.tx.value.rows| {
      f' := f + |s.tx.value.rows|;
      StampedNext(s.stamped, f, s.tx.value.rows);
    }
  }

  lemma StampedNext(stamped: seq<bool>, f: nat, rows: seq<nat>)
    requires StampedUpTo(stamped, f) && f + |rows| <= |stamped| && forall k :: 0 <= k < |rows| ==> rows[k] == f + k
    ensures StampedUpTo(Stamp(stamped, rows), f + |rows|)
  {
    forall k | 0 <= k < |stamped|
      ensures Stamp(stamped, rows)[k] <==> k < f + |rows|
    {
      if f <= k < f + |rows| {
        assert rows[k - f] == k;
      }
    }
  }

  lemma StillRouted(w: Window, starts: seq<nat>, rows: nat, more: nat)
    requires Routed(w, starts, rows) && rows <= more
    ensures Routed(w, starts, more) && Routed(w, starts + [rows], more)
  {
  }

  lemma AllStillRouted(ws: seq<Window>, starts: seq<nat>, rows: nat, more: nat)
    requires AllRouted(ws, starts, rows) && rows <= more
    ensures AllRouted(ws, starts, more) && AllRouted(ws, starts + [rows], more)
  {
    forall k | 0 <= k < |ws|
      ensures Routed(ws[k], starts, more) && Routed(ws[k], starts + [rows], more)
    {
      StillRouted(ws[k], starts, rows, more);
    }
  }

  lemma AppendKeeps(c: string, s: Spine, f: nat, row: Row)
    requires Inv(s, f)
    ensures Inv(Step(c, s, Append(row)), f)
  {
    StillRouted(s.page.polled, s.starts, |s.log|, |s.log| + 1);
    AllStillRouted(s.asked, s.starts, |s.log|, |s.log| + 1);
  }

  lemma BeginKeeps(c: string, s: Spine, f: nat)
    requires Inv(s, f)
    ensures Inv(Step(c, s, BeginRun), f)
  {
    StillRouted(s.page.polled, s.starts, |s.log|, |s.log|);
    AllStillRouted(s.asked, s.starts, |s.log|, |s.log|);
  }

  lemma LatestIsRouted(s: Spine)
    requires StartsWithin(s.starts, |s.log|)
    ensures Routed(Latest(s), s.starts, |s.log|)
  {
  }

  /** Hearing a message, opening the page, asking and being answered leave the positions in place. */
  lemma PageKeeps(c: string, s: Spine, f: nat, l: Label)
    requires Inv(s, f) && (l.Deliver? || l.Redeliver? || l.Open? || l.Ask? || l.Answer?)
    ensures Inv(Step(c, s, l), f)
  {
    LatestIsRouted(s);
  }

  lemma StepKeeps(c: string, s: Spine, f: nat, l: Label) returns (f': nat)
    requires Inv(s, f)
    ensures Inv(Step(c, s, l), f')
  {
    f' := f;
    match l {
      case Append(row) => AppendKeeps(c, s, f, row);
      case BeginRun => BeginKeeps(c, s, f);
      case Tick(size) => TickKeeps(c, s, f, size);
      case PublishOne => PublishKeeps(c, s, f);
      case Commit => f' := CommitKeeps(c, s, f);
      case Crash =>
      case _ => PageKeeps(c, s, f, l);
    }
  }

  lemma {:induction false} RunKeeps(c: string, labels: seq<Label>) returns (f: nat)
    ensures Inv(Run(c, START, labels), f)
  {
    if labels == [] {
      f := 0;
    } else {
      f := RunKeeps(c, labels[..|labels| - 1]);
      f := StepKeeps(c, Run(c, START, labels[..|labels| - 1]), f, labels[|labels| - 1]);
    }
  }

  // ---- The page of the protocol is the page's feed ----

  /** Hearing a row folds its message; receiving an answer folds the facts polled. */
  lemma PageIsFeed(c: string, s: Spine, feed: FeedState, facts: Facts, now: int, k: nat)
    requires feed.runEvents == s.page.runs
    ensures k < |s.wire| && s.wire[k] < |s.log| && s.log[s.wire[k]].caseId == c ==>
              Hear(c, s, k, s.page.delivered).runs == ApplyMessage(feed, Fact(s.log[s.wire[k]].event), now).runEvents
    ensures k < |s.asked| && Spans(s.asked[k], |s.log|) && facts.runEvents == Some(View(c, s.log, s.asked[k])) ==>
              Step(c, s, Answer(k)).page.runs == FeedFromFacts(feed, facts, now).runEvents
  {
  }

  // ---- What is stamped was published ----

  /** Ids on the page's part of the wire: `0` up to, not including, this. */
  function Seen(s: Spine): nat
    requires s.page.delivered <= |s.wire|
  {
    High(s.wire[..s.page.delivered])
  }

  /** The stamped rows are a prefix of the log, all of them published; and all delivered once the wire is drained. */
  lemma StampedWasPublished(c: string, labels: seq<Label>)
    ensures var s := Run(c, START, labels);
            |s.stamped| == |s.log|
            && (forall j, k :: 0 <= j < k < |s.stamped| && s.stamped[k] ==> s.stamped[j])
            && (forall k :: 0 <= k < |s.stamped| && s.stamped[k] ==> k in s.wire)
            && (s.page.delivered == |s.wire| ==> forall k :: 0 <= k < |s.stamped| && s.stamped[k] ==> k < Seen(s))
  {
    var s := Run(c, START, labels);
    var f := RunKeeps(c, labels);
    forall k | 0 <= k < |s.stamped| && s.stamped[k]
      ensures k in s.wire
    {
      LadderHits(s.wire, k);
    }
    assert s.wire[..|s.wire|] == s.wire;
  }

  lemma {:induction false} LadderHits(wire: seq<nat>, id: nat)
    requires Ladder(wire) && id < High(wire)
    ensures id in wire
  {
    var n := |wire| - 1;
    assert forall k :: 0 <= k < n ==> wire[..n][..k] == wire[..k];
    if id < High(wire[..n]) {
      LadderHits(wire[..n], id);
    }
  }
}
