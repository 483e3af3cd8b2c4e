/**
 * The flood guard of packages/auth/sign-in-events.ts (lines 146 to 153) and the sign-in
 * rate limiter of packages/auth/auth-options.ts (lines 16 to 36). Instants are milliseconds.
 */
module SignInGuards {
  import opened Wrappers

  const ALERT_MAX_PER_HOUR := 20
  const HOUR := 3_600_000
  const RATE_LIMIT_MAX := 5
  const RATE_LIMIT_WINDOW_MS := 900_000

  /** Call times never run back. */
  ghost predicate Nondecreasing(calls: seq<int>) {
    forall j, k :: 0 <= j < k < |calls| ==> calls[j] <= calls[k]
  }

  function CountIn(times: seq<int>, from: int, to: int): nat {
    if times == [] then 0
    else CountIn(times[..|times| - 1], from, to) + if from <= times[|times| - 1] <= to then 1 else 0
  }

  lemma CountSnoc(times: seq<int>, t: int, from: int, to: int)
    ensures CountIn(times + [t], from, to) == CountIn(times, from, to) + if from <= t <= to then 1 else 0
  {
    assert (times + [t])[..|times|] == times;
  }

  lemma {:induction false} CountAppend(a: seq<int>, b: seq<int>, from: int, to: int)
    ensures CountIn(a + b, from, to) == CountIn(a, from, to) + CountIn(b, from, to)
  {
    if b == [] {
      assert a + b == a;
    } else {
      var n := |b| - 1;
      assert a + b == (a + b[..n]) + [b[n]];
      CountSnoc(a + b[..n], b[n], from, to);
      CountAppend(a, b[..n], from, to);
    }
  }

  lemma {:induction false} CountAtMost(times: seq<int>, from: int, to: int)
    ensures CountIn(times, from, to) <= |times|
    ensures (forall k :: 0 <= k < |times| ==> !(from <= times[k] <= to)) ==> CountIn(times, from, to) == 0
  {
    if times != [] {
      CountAtMost(times[..|times| - 1], from, to);
    }
  }

  // ---- The rolling-hour alert guard ----

  /** The timestamps less than an hour old. */
  function Recent(times: seq<int>, now: int): seq<int> {
    if times == [] then []
    else Recent(times[..|times| - 1], now) + if now - times[|times| - 1] < HOUR then [times[|times| - 1]] else []
  }

  class AlertGuard {
    var alertTimes: seq<int>

    constructor ()
      ensures alertTimes == []
    {
      alertTimes := [];
    }

    /** `alertAllowed`. */
    method AlertAllowed(now: int) returns (ok: bool)
      modifies this
      ensures ok <==> |Recent(old(alertTimes), now)| < ALERT_MAX_PER_HOUR
      ensures alertTimes == AfterAlert(old(alertTimes), now)
    {
      alertTimes := Recent(alertTimes, now);
      if |alertTimes| >= ALERT_MAX_PER_HOUR {
        return false;
      }
      alertTimes := alertTimes + [now];
      ok := true;
    }
  }

  function AfterAlert(times: seq<int>, now: int): seq<int> {
    if |Recent(times, now)| < ALERT_MAX_PER_HOUR then Recent(times, now) + [now] else Recent(times, now)
  }

  /** The guard's list after a sequence of calls. */
  function Held(calls: seq<int>): seq<int> {
    if calls == [] then [] else AfterAlert(Held(calls[..|calls| - 1]), calls[|calls| - 1])
  }

  /** The calls it allowed. */
  function Alerts(calls: seq<int>): seq<int> {
    if calls == [] then []
    else
      var n := |calls| - 1;
      Alerts(calls[..n]) + if |Recent(Held(calls[..n]), calls[n])| < ALERT_MAX_PER_HOUR then [calls[n]] else []
  }

  lemma RecentSnoc(times: seq<int>, t: int, now: int)
    ensures Recent(times + [t], now) == Recent(times, now) + if now - t < HOUR then [t] else []
  {
    assert (times + [t])[..|times|] == times;
  }

  lemma {:induction false} RecentTwice(times: seq<int>, earlier: int, now: int)
    requires earlier <= now
    ensures Recent(Recent(times, earlier), now) == Recent(times, now)
  {
    if times != [] {
      var n := |times| - 1;
      RecentTwice(times[..n], earlier, now);
      if earlier - times[n] < HOUR {
        RecentSnoc(Recent(times[..n], earlier), times[n], now);
      } else {
        assert Recent(times, earlier) == Recent(times[..n], earlier);
      }
    }
  }

  /** The list the guard keeps is always the allowed calls of the last hour. */
  lemma {:induction false} HeldIsRecent(calls: seq<int>, now: int)
    requires Nondecreasing(calls) && (calls != [] ==> calls[|calls| - 1] <= now)
    ensures Recent(Held(calls), now) == Recent(Alerts(calls), now)
  {
    if calls != [] {
      var n := |calls| - 1;
      var t := calls[n];
      HeldIsRecent(calls[..n], t);
      RecentTwice(Held(calls[..n]), t, now);
      RecentTwice(Alerts(calls[..n]), t, now);
      if |Recent(Held(calls[..n]), t)| < ALERT_MAX_PER_HOUR {
        RecentSnoc(Recent(Held(calls[..n]), t), t, now);
        RecentSnoc(Alerts(calls[..n]), t, now);
      } else {
        assert Alerts(calls) == Alerts(calls[..n]);
      }
    }
  }

  lemma {:induction false} RecentCounts(times: seq<int>, now: int)
    requires forall k :: 0 <= k < |times| ==> times[k] <= now
    ensures |Recent(times, now)| == CountIn(times, now - HOUR + 1, now)
  {
    if times != [] {
      RecentCounts(times[..|times| - 1], now);
    }
  }

  lemma {:induction false} AlertsAreCalls(calls: seq<int>, now: int)
    requires forall k :: 0 <= k < |calls| ==> calls[k] <= now
    ensures forall k :: 0 <= k < |Alerts(calls)| ==> Alerts(calls)[k] <= now
  {
    if calls != [] {
      AlertsAreCalls(calls[..|calls| - 1], now);
    }
  }

  lemma CallsUpTo(calls: seq<int>, now: int)
    requires Nondecreasing(calls) && (calls != [] ==> calls[|calls| - 1] <= now)
    ensures forall k :: 0 <= k < |calls| ==> calls[k] <= now
  {
  }

  /**
   * What the guard compares with twenty is the number of calls it allowed in the hour before: it
   * refuses exactly when that is full.
   */
  lemma RefusedExactly(calls: seq<int>, now: int)
    requires Nondecreasing(calls) && (calls != [] ==> calls[|calls| - 1] <= now)
    ensures |Recent(Held(calls), now)| == CountIn(Alerts(calls), now - HOUR + 1, now)
  {
    CallsUpTo(calls, now);
    HeldIsRecent(calls, now);
    AlertsAreCalls(calls, now);
    RecentCounts(Alerts(calls), now);
  }

  lemma {:induction false} NarrowerCount(times: seq<int>, from: int, to: int, from': int, to': int)
    requires from' <= from && (forall k :: 0 <= k < |times| ==> times[k] <= to')
    ensures CountIn(times, from, to) <= CountIn(times, from', to')
  {
    if times != [] {
      NarrowerCount(times[..|times| - 1], from, to, from', to');
    }
  }

  /** An allowed call leaves room in every hour that holds it. */
  lemma RoomForOneMore(calls: seq<int>, now: int, x: int)
    requires Nondecreasing(calls) && (calls != [] ==> calls[|calls| - 1] <= now)
    requires |Recent(Held(calls), now)| < ALERT_MAX_PER_HOUR && x <= now <= x + HOUR - 1
    ensures CountIn(Alerts(calls), x, x + HOUR - 1) < ALERT_MAX_PER_HOUR
  {
    var alerts := Alerts(calls);
    assert CountIn(alerts, now - HOUR + 1, now) < ALERT_MAX_PER_HOUR by {
      RefusedExactly(calls, now);
    }
    assert forall k :: 0 <= k < |alerts| ==> alerts[k] <= now by {
      CallsUpTo(calls, now);
      AlertsAreCalls(calls, now);
    }
    NarrowerCount(alerts, x, x + HOUR - 1, now - HOUR + 1, now);
  }

  /** No hour holds more than twenty allowed alerts. */
  lemma {:induction false} AtMostTwentyAnHour(calls: seq<int>, x: int)
    requires Nondecreasing(calls)
    ensures CountIn(Alerts(calls), x, x + HOUR - 1) <= ALERT_MAX_PER_HOUR
  {
    if calls != [] {
      var n := |calls| - 1;
      var now := calls[n];
      AtMostTwentyAnHour(calls[..n], x);
      if |Recent(Held(calls[..n]), now)| < ALERT_MAX_PER_HOUR {
        CountSnoc(Alerts(calls[..n]), now, x, x + HOUR - 1);
        if x <= now <= x + HOUR - 1 {
          RoomForOneMore(calls[..n], now, x);
        }
      } else {
        assert Alerts(calls) == Alerts(calls[..n]);
      }
    }
  }

  // ---- The fixed-window sign-in limiter ----

  datatype Entry = Entry(count: int, resetAt: int)

  function Lookup(m: map<string, Entry>, email: string): Option<Entry> {
    if email in m then Some(m[email]) else None
  }

  /** Whether an attempt is let through, given its address's entry. */
  predicate LetThrough(e: Option<Entry>, now: int) {
    e.None? || now > e.value.resetAt || e.value.count < RATE_LIMIT_MAX
  }

  function EntryAfter(e: Option<Entry>, now: int): Entry {
    if e.None? || now > e.value.resetAt then Entry(1, now + RATE_LIMIT_WINDOW_MS)
    else if e.value.count >= RATE_LIMIT_MAX then e.value
    else Entry(e.value.count + 1, e.value.resetAt)
  }

  /** The least number of whole minutes, but at least one, that covers the milliseconds. */
  predicate IsCeiling(minutes: int, millis: int) {
    minutes >= 1 && millis <= minutes * 60_000 && (minutes == 1 || (minutes - 1) * 60_000 < millis)
  }

  class RateLimiter {
    var entries: map<string, Entry>

    constructor ()
      ensures entries == map[]
    {
      entries := map[];
    }

    /** `checkRateLimit`: 0 when allowed, else whole minutes until the lock lifts. */
    method CheckRateLimit(email: string, now: int) returns (minutes: int)
      modifies this
      ensures entries == old(entries)[email := EntryAfter(Lookup(old(entries), email), now)]
      ensures minutes == 0 <==> LetThrough(Lookup(old(entries), email), now)
      ensures minutes != 0 ==> IsCeiling(minutes, old(entries)[email].resetAt - now)
    {
      if email !in entries || now > entries[email].resetAt {
        entries := entries[email := Entry(1, now + RATE_LIMIT_WINDOW_MS)];
        return 0;
      }
      var entry := entries[email];
      if entry.count >= RATE_LIMIT_MAX {
        assert entries == entries[email := entry];
        var whole := (entry.resetAt - now + 59_999) / 60_000;
        return if whole > 1 then whole else 1;
      }
      entries := entries[email := Entry(entry.count + 1, entry.resetAt)];
      return 0;
    }

    /** `clearRateLimit`. */
    method ClearRateLimit(email: string)
      modifies this
      ensures entries == old(entries) - {email}
    {
      entries := entries - {email};
    }
  }

  /** Attempts of one address without a clear: its entry, and the attempts let through by window, latest last. */
  datatype Windows = Windows(entry: Option<Entry>, older: seq<int>, previous: seq<int>, current: seq<int>)

  function NextWindows(w: Windows, now: int): Windows {
    var e := Some(EntryAfter(w.entry, now));
    if w.entry.None? || now > w.entry.value.resetAt then Windows(e, w.older + w.previous, w.current, [now])
    else if LetThrough(w.entry, now) then Windows(e, w.older, w.previous, w.current + [now])
    else Windows(e, w.older, w.previous, w.current)
  }

  function Attempts(calls: seq<int>): Windows {
    if calls == [] then Windows(None, [], [], []) else NextWindows(Attempts(calls[..|calls| - 1]), calls[|calls| - 1])
  }

  /** The attempts let through. */
  function Through(calls: seq<int>): seq<int> {
    if calls == [] then []
    else
      var n := |calls| - 1;
      Through(calls[..n]) + if LetThrough(Attempts(calls[..n]).entry, calls[n]) then [calls[n]] else []
  }

  ghost predicate Within(times: seq<int>, from: int, to: int) {
    forall k :: 0 <= k < |times| ==> from <= times[k] <= to
  }

  ghost predicate EarlierThan(times: seq<int>, t: int) {
    forall k :: 0 <= k < |times| ==> times[k] < t
  }

  /**
   * At most five per window. The current window began after the previous one, which began at
   * `before`, was over; older attempts came before that. `last` is the latest call.
   */
  ghost predicate Lawful(w: Windows, last: int, before: int) {
    && |w.current| <= RATE_LIMIT_MAX && |w.previous| <= RATE_LIMIT_MAX
    && w.entry.Some? && w.entry.value.count == |w.current|
    && var start := w.entry.value.resetAt - RATE_LIMIT_WINDOW_MS;
       && before + RATE_LIMIT_WINDOW_MS < start <= last
       && Within(w.current, start, last) && Within(w.current, start, w.entry.value.resetAt)
       && Within(w.previous, before, before + RATE_LIMIT_WINDOW_MS) && EarlierThan(w.older, before)
  }

  lemma WindowStep(w: Windows, last: int, before: int, now: int) returns (before': int)
    requires Lawful(w, last, before) && last <= now
    ensures Lawful(NextWindows(w, now), now, before')
  {
    before' := if now > w.entry.value.resetAt then w.entry.value.resetAt - RATE_LIMIT_WINDOW_MS else before;
  }

  lemma {:induction false} WindowLaw(calls: seq<int>) returns (before: int)
    requires Nondecreasing(calls) && calls != []
    ensures Lawful(Attempts(calls), calls[|calls| - 1], before)
  {
    var n := |calls| - 1;
    if n == 0 {
      before := calls[0] - RATE_LIMIT_WINDOW_MS - 1;
      assert Attempts(calls[..0]) == Windows(None, [], [], []);
    } else {
      before := WindowLaw(calls[..n]);
      before := WindowStep(Attempts(calls[..n]), calls[n - 1], before, calls[n]);
    }
  }

  /** The windows hold exactly the attempts let through, in order. */
  lemma {:induction false} WindowsHoldAll(calls: seq<int>)
    ensures var w := Attempts(calls); Through(calls) == w.older + w.previous + w.current
  {
    if calls != [] {
      var n := |calls| - 1;
      var w, now := Attempts(calls[..n]), calls[n];
      WindowsHoldAll(calls[..n]);
      assert w.older + w.previous + w.current + [now] == (w.older + w.previous) + w.current + [now];
      assert w.older + w.previous + w.current + [now] == w.older + w.previous + (w.current + [now]);
      if !LetThrough(w.entry, now) {
        assert Through(calls) == Through(calls[..n]);
      }
    }
  }

  /** Fifteen minutes that hold an attempt of the current window reach back into the previous one at most. */
  lemma TwoWindowsAtMost(w: Windows, last: int, before: int, x: int)
    requires Lawful(w, last, before) && w.entry.value.resetAt - RATE_LIMIT_WINDOW_MS <= x + RATE_LIMIT_WINDOW_MS
    ensures CountIn(w.older + w.previous + w.current, x, x + RATE_LIMIT_WINDOW_MS) <= 2 * RATE_LIMIT_MAX
  {
    var to := x + RATE_LIMIT_WINDOW_MS;
    CountAppend(w.older + w.previous, w.current, x, to);
    CountAppend(w.older, w.previous, x, to);
    CountAtMost(w.previous, x, to);
    CountAtMost(w.current, x, to);
    CountBefore(w.older, x, to);
  }

  lemma {:induction false} CountBefore(times: seq<int>, from: int, to: int)
    requires EarlierThan(times, from)
    ensures CountIn(times, from, to) == 0
  {
    if times != [] {
      CountBefore(times[..|times| - 1], from, to);
    }
  }

  /** At most ten attempts of an address are let through in any fifteen minutes, absent a clear. */
  lemma {:induction false} AtMostTenInFifteenMinutes(calls: seq<int>, x: int)
    requires Nondecreasing(calls)
    ensures CountIn(Through(calls), x, x + RATE_LIMIT_WINDOW_MS) <= 2 * RATE_LIMIT_MAX
  {
    if calls != [] {
      var n := |calls| - 1;
      var now := calls[n];
      AtMostTenInFifteenMinutes(calls[..n], x);
      if !LetThrough(Attempts(calls[..n]).entry, now) {
        assert Through(calls) == Through(calls[..n]);
      } else if x <= now <= x + RATE_LIMIT_WINDOW_MS {
        var before := WindowLaw(calls);
        WindowsHoldAll(calls);
        TwoWindowsAtMost(Attempts(calls), now, before, x);
      } else {
        CountSnoc(Through(calls[..n]), now, x, x + RATE_LIMIT_WINDOW_MS);
      }
    }
  }

  /** An attempt is refused exactly when its window is still open and five were let through in it. */
  lemma RefusedWhenFull(calls: seq<int>, now: int)
    requires Nondecreasing(calls) && calls != []
    ensures var w := Attempts(calls);
            |w.current| <= RATE_LIMIT_MAX
            && (!LetThrough(w.entry, now) <==> now <= w.entry.value.resetAt && |w.current| == RATE_LIMIT_MAX)
  {
    var before := WindowLaw(calls);
  }

  // ---- By the numbers ----

  lemma {:induction false} RecentOfOne(times: seq<int>, t: int, now: int)
    requires forall k :: 0 <= k < |times| ==> times[k] == t
    ensures Recent(times, now) == if now < t + 3_600_000 then times else []
  {
    if times != [] {
      var n := |times| - 1;
      RecentOfOne(times[..n], t, now);
      assert times == times[..n] + [times[n]];
    }
  }

  /** Twenty alerts at one instant: the next is refused until an hour later, and then allowed. */
  lemma TwentyAnHour(times: seq<int>, t: int, now: int)
    requires forall k :: 0 <= k < |times| ==> times[k] == t
    requires |times| <= 20 && t <= now
    ensures AfterAlert(times, now) ==
            if now >= t + 3_600_000 then [now] else if |times| < 20 then times + [now] else times
  {
    RecentOfOne(times, t, now);
  }

  /** Five attempts open and fill a quarter of an hour; the sixth waits for its end, and begins another. */
  lemma FiveInFifteenMinutes(e: Entry, now: int)
    ensures LetThrough(None, now) && EntryAfter(None, now) == Entry(1, now + 900_000)
    ensures now > e.resetAt ==> LetThrough(Some(e), now) && EntryAfter(Some(e), now) == Entry(1, now + 900_000)
    ensures now <= e.resetAt && e.count < 5 ==>
              LetThrough(Some(e), now) && EntryAfter(Some(e), now) == Entry(e.count + 1, e.resetAt)
    ensures now <= e.resetAt && e.count >= 5 ==> !LetThrough(Some(e), now) && EntryAfter(Some(e), now) == e
  {
  }
}
