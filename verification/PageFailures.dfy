/** Runs of the protocol in which the page parts from what the route sends, in each of the ways PagePolls tells. */
module PageFailures {
  import opened Wrappers
  import opened Progress
  import opened ProgressFeed
  import opened OutboxProtocol
  import opened UnpolledPage
  import opened PagePolls

  /** A page that has heard and polled nothing. */
  const UNREAD: Page := Page(0, [], Window(0, 0))

  function Begun(screen: string, at: int): Event {
    Event(AnalysisProgress, map[Screen := Str(screen)], at)
  }

  function Done(screen: string, at: int): Event {
    Event(ScreenCompleted, map[Screen := Str(screen)], at)
  }

  lemma BegunDone(screen: string, at: int)
    requires screen != ""
    ensures RunEventItem(Begun(screen, at)) == Begun(screen, at) && RunEventItem(Done(screen, at)) == Done(screen, at)
    ensures ScreenOf(Begun(screen, at)) == Some(screen) && ScreenOf(Done(screen, at)) == Some(screen)
  {
  }

  lemma LaggingTimelines(at: int)
    ensures FinishOf(TimelineOf([Begun("iac", at), Begun("brady", at + 2)]).checks, "iac").None?
    ensures var server := [Begun("iac", at), Done("iac", at + 1), Begun("brady", at + 2)];
            FinishOf(TimelineOf(server).checks, "iac") == Some(at + 1)
  {
    var page := [Begun("iac", at), Begun("brady", at + 2)];
    var server := [Begun("iac", at), Done("iac", at + 1), Begun("brady", at + 2)];
    FinishSpec(page, "iac", 0);
    BegunDone("iac", at + 1);
    assert Completes(server[1], "iac") && !Completes(server[2], "iac");
    assert LastCompletion(server, "iac", 1);
    FinishSpec(server, "iac", 1);
  }

  lemma OlderTimelines(at: int)
    ensures TimelineOf([Done("iac", at + 1), Begun("iac", at)]).nowChecking.Some?
    ensures TimelineOf([Done("iac", at + 1)]).nowChecking.None?
  {
    BegunDone("iac", at);
    assert IsRunning([Done("iac", at + 1), Begun("iac", at)], 1);
    NowCheckingSpec([Done("iac", at + 1), Begun("iac", at)], 1);
    NowCheckingSpec([Done("iac", at + 1)], 0);
  }

  /** One step more of a run being built. */
  lemma Then(c: string, labels: seq<Label>, s: Spine, l: Label) returns (more: seq<Label>, t: Spine)
    requires Run(c, START, labels) == s
    ensures more == labels + [l] && t == Step(c, s, l) && Run(c, START, more) == t
  {
    more, t := labels + [l], Step(c, s, l);
    assert more[..|labels|] == labels;
  }

  lemma ClaimEnds(stamped: seq<bool>, k: nat)
    requires k < |stamped| && !stamped[k]
    ensures ClaimFrom(stamped, k, 1) == [k]
  {
    assert ClaimFrom(stamped, k + 1, 0) == [];
  }

  lemma ClaimAll(stamped: seq<bool>, n: nat)
    requires 1 <= n <= |stamped| <= 3 && forall k :: 0 <= k < |stamped| ==> !stamped[k]
    ensures Claim(stamped, n) == if n == 1 then [0] else if n == 2 then [0, 1] else [0, 1, 2]
  {
    ClaimEnds(stamped, n - 1);
    if n == 3 {
      assert ClaimFrom(stamped, 1, 2) == [1] + ClaimFrom(stamped, 2, 1);
    }
  }

  /** The page polls a single run row of an unfolded log. */
  lemma PollsOne(c: string, log: seq<Row>, id: nat, e: Event)
    requires id < |log| && log[id] == Row(c, e) && IsRunEvent(e) && RunEventItem(e) == e
    ensures View(c, log, Window(id, id + 1)) == [e]
  {
    ViewOfOne(c, log, id);
  }

  lemma HearsAnother(c: string, runs: seq<Event>, e: Event)
    requires IsRunEvent(e) && RunEventItem(e) == e && e !in runs
    ensures Receive(c, runs, Row(c, e)) == runs + [e]
  {
  }

  /** The state of a run in which nothing is stamped and what is published is in `wire`. */
  function Unstamped(log: seq<Row>, n: nat, starts: seq<nat>, asked: seq<Window>, page: Page): Spine {
    Spine(log, seq(|log|, k => false), seq(n, k => k), if n == 0 then None else Some(Tx(seq(n, k => k), n)),
          starts, asked, page)
  }

  lemma ThenAppend(c: string, labels: seq<Label>, log: seq<Row>, starts: seq<nat>, asked: seq<Window>, page: Page,
                   row: Row)
    returns (more: seq<Label>)
    requires Run(c, START, labels) == Unstamped(log, 0, starts, asked, page)
    ensures more == labels + [Append(row)] && Run(c, START, more) == Unstamped(log + [row], 0, starts, asked, page)
  {
    var t;
    more, t := Then(c, labels, Unstamped(log, 0, starts, asked, page), Append(row));
    assert seq(|log|, k => false) + [false] == seq(|log + [row]|, k => false);
  }

  lemma ThenBegin(c: string, labels: seq<Label>, log: seq<Row>, starts: seq<nat>, asked: seq<Window>, page: Page)
    returns (more: seq<Label>)
    requires Run(c, START, labels) == Unstamped(log, 0, starts, asked, page)
    ensures more == labels + [BeginRun] && Run(c, START, more) == Unstamped(log, 0, starts + [|log|], asked, page)
  {
    var t;
    more, t := Then(c, labels, Unstamped(log, 0, starts, asked, page), BeginRun);
  }

  lemma ThenAsk(c: string, labels: seq<Label>, log: seq<Row>, starts: seq<nat>, page: Page) returns (more: seq<Label>)
    requires Run(c, START, labels) == Unstamped(log, 0, starts, [], page) && starts != []
    ensures more == labels + [Ask]
    ensures Run(c, START, more) == Unstamped(log, 0, starts, [Window(starts[|starts| - 1], |log|)], page)
  {
    var t;
    assert Latest(Unstamped(log, 0, starts, [], page)) == Window(starts[|starts| - 1], |log|);
    more, t := Then(c, labels, Unstamped(log, 0, starts, [], page), Ask);
    assert t.asked == [Window(starts[|starts| - 1], |log|)];
  }

  lemma ThenAnswer(c: string, labels: seq<Label>, log: seq<Row>, n: nat, starts: seq<nat>, w: Window, page: Page)
    returns (more: seq<Label>)
    requires Run(c, START, labels) == Unstamped(log, n, starts, [w], page) && Spans(w, |log|)
    ensures more == labels + [Answer(0)]
    ensures Run(c, START, more)
         == Unstamped(log, n, starts, [], Page(page.delivered, View(c, log, w), Later(page.polled, w)))
  {
    var t;
    more, t := Then(c, labels, Unstamped(log, n, starts, [w], page), Answer(0));
  }

  /** The publisher's transaction over the first `n` rows, `k` of them published. */
  function Publishing(log: seq<Row>, n: nat, k: nat, starts: seq<nat>, asked: seq<Window>, page: Page): Spine {
    Spine(log, seq(|log|, j => false), seq(k, j => j), Some(Tx(seq(n, j => j), k)), starts, asked, page)
  }

  lemma ClaimSome(size: nat, n: nat)
    requires 1 <= n <= size <= 3
    ensures Claim(seq(size, j => false), n) == seq(n, j => j)
  {
    ClaimAll(seq(size, j => false), n);
  }

  lemma ThenTick(c: string, labels: seq<Label>, log: seq<Row>, starts: seq<nat>, asked: seq<Window>, page: Page,
                 n: nat) returns (more: seq<Label>)
    requires Run(c, START, labels) == Unstamped(log, 0, starts, asked, page) && 1 <= n <= |log| <= 3
    ensures Run(c, START, more) == Publishing(log, n, 0, starts, asked, page)
  {
    var t;
    ClaimSome(|log|, n);
    more, t := Then(c, labels, Unstamped(log, 0, starts, asked, page), Tick(n));
  }

  lemma ThenPublishOne(c: string, labels: seq<Label>, log: seq<Row>, starts: seq<nat>, asked: seq<Window>, page: Page,
                       n: nat, k: nat) returns (more: seq<Label>)
    requires Run(c, START, labels) == Publishing(log, n, k, starts, asked, page) && k < n
    ensures Run(c, START, more) == Publishing(log, n, k + 1, starts, asked, page)
  {
    var t;
    more, t := Then(c, labels, Publishing(log, n, k, starts, asked, page), PublishOne);
    assert seq(k, j => j) + [k] == seq(k + 1, j => j);
  }

  lemma {:induction false} ThenPublish(c: string, labels: seq<Label>, log: seq<Row>, starts: seq<nat>,
                                       asked: seq<Window>, page: Page, n: nat, k: nat) returns (more: seq<Label>)
    requires Run(c, START, labels) == Unstamped(log, 0, starts, asked, page) && 1 <= n <= |log| <= 3 && k <= n
    ensures Run(c, START, more) == Publishing(log, n, k, starts, asked, page)
  {
    if k == 0 {
      more := ThenTick(c, labels, log, starts, asked, page, n);
    } else {
      more := ThenPublish(c, labels, log, starts, asked, page, n, k - 1);
      more := ThenPublishOne(c, more, log, starts, asked, page, n, k - 1);
    }
  }

  lemma AllPublished(log: seq<Row>, n: nat, starts: seq<nat>, asked: seq<Window>, page: Page)
    requires n > 0
    ensures Publishing(log, n, n, starts, asked, page) == Unstamped(log, n, starts, asked, page)
  {
  }

  lemma ThenDeliver(c: string, labels: seq<Label>, log: seq<Row>, n: nat, starts: seq<nat>, asked: seq<Window>,
                    page: Page) returns (more: seq<Label>)
    requires Run(c, START, labels) == Unstamped(log, n, starts, asked, page) && page.delivered < n <= |log|
    ensures more == labels + [Deliver]
    ensures Run(c, START, more) == Unstamped(log, n, starts, asked, Page(page.delivered + 1,
                                     Receive(c, page.runs, log[page.delivered]), page.polled))
  {
    var t;
    more, t := Then(c, labels, Unstamped(log, n, starts, asked, page), Deliver);
  }

  lemma Fresh(c: string) returns (labels: seq<Label>)
    ensures labels == [] && Run(c, START, labels) == Unstamped([], 0, [], [], UNREAD)
  {
    labels := [];
  }

  lemma TwoAppended(c: string, a: Event, b: Event) returns (labels: seq<Label>)
    ensures Run(c, START, labels) == Unstamped([Row(c, a), Row(c, b)], 0, [0, 1], [], UNREAD)
  {
    labels := Fresh(c);
    labels := ThenBegin(c, labels, [], [], [], UNREAD);
    labels := ThenAppend(c, labels, [], [0], [], UNREAD, Row(c, a));
    labels := ThenBegin(c, labels, [Row(c, a)], [0], [], UNREAD);
    labels := ThenAppend(c, labels, [Row(c, a)], [0, 1], [], UNREAD, Row(c, b));
  }

  lemma PolledSecond(c: string, log: seq<Row>, labels: seq<Label>, b: Event) returns (more: seq<Label>)
    requires Run(c, START, labels) == Unstamped(log, 0, [0, 1], [], UNREAD)
    requires |log| == 2 && log[1] == Row(c, b) && IsRunEvent(b) && RunEventItem(b) == b
    ensures Run(c, START, more) == Unstamped(log, 0, [0, 1], [], Page(0, [b], Window(1, 2)))
  {
    more := ThenAsk(c, labels, log, [0, 1], UNREAD);
    more := ThenAnswer(c, more, log, 0, [0, 1], Window(1, 2), UNREAD);
    PollsOne(c, log, 1, b);
  }

  /** A run in which row 0, of run 1, is published after the page has polled run 2, which began at row 1. */
  lemma OlderRunHeard(c: string, a: Event, b: Event) returns (labels: seq<Label>)
    requires IsRunEvent(a) && RunEventItem(a) == a && IsRunEvent(b) && RunEventItem(b) == b && a != b
    ensures Run(c, START, labels)
         == Unstamped([Row(c, a), Row(c, b)], 1, [0, 1], [], Page(1, [b, a], Window(1, 2)))
  {
    var log, polled := [Row(c, a), Row(c, b)], Page(0, [b], Window(1, 2));
    labels := TwoAppended(c, a, b);
    labels := PolledSecond(c, log, labels, b);
    labels := ThenPublish(c, labels, log, [0, 1], [], polled, 1, 1);
    AllPublished(log, 1, [0, 1], [], polled);
    labels := ThenDeliver(c, labels, log, 1, [0, 1], [], polled);
    HearsAnother(c, [b], a);
  }

  /** A message of the run before, heard after a poll of the new run, makes its finished check a running one again. */
  lemma OlderRunReopens(c: string, at: int) returns (labels: seq<Label>)
    ensures var s := Run(c, START, labels);
            && s.page.runs == [Done("iac", at + 1), Begun("iac", at)] && Latest(s) == Window(1, 2) && |s.log| == 2
            && TimelineOf(s.page.runs).nowChecking.Some?
            && TimelineOf(View(c, s.log, Latest(s))).nowChecking.None?
  {
    BegunDone("iac", at);
    BegunDone("iac", at + 1);
    labels := OlderRunHeard(c, Begun("iac", at), Done("iac", at + 1));
    PollsOne(c, Run(c, START, labels).log, 1, Done("iac", at + 1));
    OlderTimelines(at);
  }

  lemma PolledFirst(c: string, a: Event) returns (labels: seq<Label>)
    requires IsRunEvent(a) && RunEventItem(a) == a
    ensures Run(c, START, labels) == Unstamped([Row(c, a)], 0, [0], [], Page(0, [a], Window(0, 1)))
  {
    labels := Fresh(c);
    labels := ThenBegin(c, labels, [], [], [], UNREAD);
    labels := ThenAppend(c, labels, [], [0], [], UNREAD, Row(c, a));
    labels := ThenAsk(c, labels, [Row(c, a)], [0], UNREAD);
    labels := ThenAnswer(c, labels, [Row(c, a)], 0, [0], Window(0, 1), UNREAD);
    PollsOne(c, [Row(c, a)], 0, a);
  }

  lemma SecondRun(c: string, labels: seq<Label>, a: Event, b: Event) returns (more: seq<Label>)
    requires Run(c, START, labels) == Unstamped([Row(c, a)], 0, [0], [], Page(0, [a], Window(0, 1)))
    ensures Run(c, START, more) == Unstamped([Row(c, a), Row(c, b)], 0, [0, 1], [], Page(0, [a], Window(0, 1)))
  {
    more := ThenBegin(c, labels, [Row(c, a)], [0], [], Page(0, [a], Window(0, 1)));
    more := ThenAppend(c, more, [Row(c, a)], [0, 1], [], Page(0, [a], Window(0, 1)), Row(c, b));
  }

  lemma HearsBoth(c: string, log: seq<Row>, labels: seq<Label>, a: Event, b: Event) returns (more: seq<Label>)
    requires |log| == 2 && log[0] == Row(c, a) && log[1] == Row(c, b)
    requires IsRunEvent(a) && RunEventItem(a) == a && IsRunEvent(b) && RunEventItem(b) == b && a != b
    requires Run(c, START, labels) == Unstamped(log, 2, [0, 1], [], Page(0, [a], Window(0, 1)))
    ensures Run(c, START, more) == Unstamped(log, 2, [0, 1], [], Page(2, [a, b], Window(0, 1)))
  {
    more := ThenDeliver(c, labels, log, 2, [0, 1], [], Page(0, [a], Window(0, 1)));
    more := ThenDeliver(c, more, log, 2, [0, 1], [], Page(1, [a], Window(0, 1)));
    HearsAnother(c, [a], b);
  }

  /** A run in which the page polls run 1 and hears row 1, of run 2. */
  lemma NewerRunHeard(c: string, a: Event, b: Event) returns (labels: seq<Label>)
    requires IsRunEvent(a) && RunEventItem(a) == a && IsRunEvent(b) && RunEventItem(b) == b && a != b
    ensures Run(c, START, labels)
         == Unstamped([Row(c, a), Row(c, b)], 2, [0, 1], [], Page(2, [a, b], Window(0, 1)))
  {
    var log, polled := [Row(c, a), Row(c, b)], Page(0, [a], Window(0, 1));
    labels := PolledFirst(c, a);
    labels := SecondRun(c, labels, a, b);
    labels := ThenPublish(c, labels, log, [0, 1], [], polled, 2, 2);
    AllPublished(log, 2, [0, 1], [], polled);
    labels := HearsBoth(c, log, labels, a, b);
  }

  lemma NewerTimelines(at: int)
    ensures FinishOf(TimelineOf([Done("iac", at), Begun("brady", at + 1)]).checks, "iac") == Some(at)
    ensures FinishOf(TimelineOf([Begun("brady", at + 1)]).checks, "iac").None?
  {
    BegunDone("iac", at);
    var page := [Done("iac", at), Begun("brady", at + 1)];
    assert Completes(page[0], "iac") && !Completes(page[1], "iac");
    assert LastCompletion(page, "iac", 0);
    FinishSpec(page, "iac", 0);
    FinishSpec([Begun("brady", at + 1)], "iac", 0);
  }

  /** A new run begun between two polls: the page keeps a finished check of the old run. */
  lemma NewerRunKeepsOld(c: string, at: int) returns (labels: seq<Label>)
    ensures var s := Run(c, START, labels);
            && s.page.runs == [Done("iac", at), Begun("brady", at + 1)] && Latest(s) == Window(1, 2) && |s.log| == 2
            && FinishOf(TimelineOf(s.page.runs).checks, "iac") == Some(at)
            && FinishOf(TimelineOf(View(c, s.log, Latest(s))).checks, "iac").None?
  {
    BegunDone("iac", at);
    BegunDone("brady", at + 1);
    labels := NewerRunHeard(c, Done("iac", at), Begun("brady", at + 1));
    PollsOne(c, Run(c, START, labels).log, 1, Begun("brady", at + 1));
    NewerTimelines(at);
  }

  lemma AskedFirst(c: string, a: Event, b: Event, d: Event) returns (labels: seq<Label>)
    ensures Run(c, START, labels)
         == Unstamped([Row(c, a), Row(c, b), Row(c, d)], 0, [0], [Window(0, 1)], UNREAD)
  {
    labels := Fresh(c);
    labels := ThenBegin(c, labels, [], [], [], UNREAD);
    labels := ThenAppend(c, labels, [], [0], [], UNREAD, Row(c, a));
    labels := ThenAsk(c, labels, [Row(c, a)], [0], UNREAD);
    labels := ThenAppend(c, labels, [Row(c, a)], [0], [Window(0, 1)], UNREAD, Row(c, b));
    labels := ThenAppend(c, labels, [Row(c, a), Row(c, b)], [0], [Window(0, 1)], UNREAD, Row(c, d));
    assert [Row(c, a), Row(c, b)] + [Row(c, d)] == [Row(c, a), Row(c, b), Row(c, d)];
  }

  ghost predicate ThreeRunRows(c: string, log: seq<Row>, a: Event, b: Event, d: Event) {
    && |log| == 3 && log[0] == Row(c, a) && log[1] == Row(c, b) && log[2] == Row(c, d)
    && IsRunEvent(a) && RunEventItem(a) == a && IsRunEvent(b) && RunEventItem(b) == b
    && IsRunEvent(d) && RunEventItem(d) == d && a != b && a != d
  }

  lemma HearsTwo(c: string, log: seq<Row>, labels: seq<Label>, a: Event, b: Event, d: Event) returns (more: seq<Label>)
    requires ThreeRunRows(c, log, a, b, d)
    requires Run(c, START, labels) == Unstamped(log, 3, [0], [Window(0, 1)], UNREAD)
    ensures Run(c, START, more) == Unstamped(log, 3, [0], [Window(0, 1)], Page(2, [a, b], Window(0, 0)))
  {
    more := ThenDeliver(c, labels, log, 3, [0], [Window(0, 1)], UNREAD);
    HearsAnother(c, [], a);
    more := ThenDeliver(c, more, log, 3, [0], [Window(0, 1)], Page(1, [a], Window(0, 0)));
    HearsAnother(c, [a], b);
  }

  lemma IsAnswered(c: string, log: seq<Row>, before: seq<Label>, a: Event, b: Event, d: Event)
    returns (after: seq<Label>)
    requires ThreeRunRows(c, log, a, b, d)
    requires Run(c, START, before) == Unstamped(log, 3, [0], [Window(0, 1)], Page(2, [a, b], Window(0, 0)))
    ensures after == before + [Answer(0)] + [Deliver] && Run(c, START, before + [Answer(0)]).page.runs == [a]
    ensures Run(c, START, after) == Unstamped(log, 3, [0], [], Page(3, [a, d], Window(0, 1)))
  {
    after := ThenAnswer(c, before, log, 3, [0], Window(0, 1), Page(2, [a, b], Window(0, 0)));
    PollsOne(c, log, 0, a);
    after := ThenDeliver(c, after, log, 3, [0], [], Page(2, [a], Window(0, 1)));
    HearsAnother(c, [a], d);
  }

  /** A run in which a poll reads row 0, three rows are published and two heard before it is received. */
  lemma StalePollHeard(c: string, log: seq<Row>, a: Event, b: Event, d: Event)
    returns (before: seq<Label>, after: seq<Label>)
    requires ThreeRunRows(c, log, a, b, d)
    ensures after == before + [Answer(0)] + [Deliver]
    ensures Run(c, START, before).page.runs == [a, b] && Run(c, START, before + [Answer(0)]).page.runs == [a]
    ensures Run(c, START, after) == Unstamped(log, 3, [0], [], Page(3, [a, d], Window(0, 1)))
  {
    before := AskedFirst(c, a, b, d);
    assert log == [Row(c, a), Row(c, b), Row(c, d)];
    before := ThenPublish(c, before, log, [0], [Window(0, 1)], UNREAD, 3, 3);
    AllPublished(log, 3, [0], [Window(0, 1)], UNREAD);
    before := HearsTwo(c, log, before, a, b, d);
    after := IsAnswered(c, log, before, a, b, d);
  }

  /**
   * A poll read before a message and received after it: the answer takes the message's event
   * off a page that was right, and the next one leaves it without a finished check.
   */
  lemma LaggingPollLosesCheck(c: string, at: int) returns (before: seq<Label>, after: seq<Label>)
    ensures after == before + [Answer(0)] + [Deliver]
    ensures Run(c, START, before).page.runs == [Begun("iac", at), Done("iac", at + 1)]
    ensures Run(c, START, before + [Answer(0)]).page.runs == [Begun("iac", at)]
    ensures var s := Run(c, START, after);
            && s.page.runs == [Begun("iac", at), Begun("brady", at + 2)] && Latest(s) == Window(0, 3) && |s.log| == 3
            && FinishOf(TimelineOf(s.page.runs).checks, "iac").None?
            && FinishOf(TimelineOf(EventsOf(c, s.log)).checks, "iac") == Some(at + 1)
  {
    BegunDone("iac", at);
    BegunDone("iac", at + 1);
    BegunDone("brady", at + 2);
    var log := [Row(c, Begun("iac", at)), Row(c, Done("iac", at + 1)), Row(c, Begun("brady", at + 2))];
    before, after := StalePollHeard(c, log, Begun("iac", at), Done("iac", at + 1), Begun("brady", at + 2));
    ThreeRows(c, Begun("iac", at), Done("iac", at + 1), Begun("brady", at + 2));
    LaggingTimelines(at);
  }
}
