/**
 * packages/database/flags.ts: the feature-flag cache. Module-level `snapshot` and
 * `inflight` are written by asynchronous segments that interleave freely with each other
 * and with table writes; a world records the tables at every instant, so that a cached
 * entry can be traced to the instant it was read.
 */
module Flags {
  import opened Wrappers

  const FLAG_CACHE_TTL_MS := 15_000

  type Global = map<string, bool>
  type Overrides = map<(string, string), bool>

  datatype Tables = Tables(global: Global, overrides: Overrides)

  datatype Snapshot = Snapshot(global: Global, overrides: Overrides, loadedAt: int)

  /** `effective`: the tenant's override, else the global value, else off. An empty tenant is none. */
  function Effective(global: Global, overrides: Overrides, key: string, tenant: Option<string>): bool {
    if tenant.Some? && tenant.value != "" && (key, tenant.value) in overrides then overrides[(key, tenant.value)]
    else if key in global then global[key] else false
  }

  // ---- The setters ----

  /** What a setter returns for the audit row. */
  datatype Change = Change(before: Option<bool>, after: Option<bool>)

  function OverrideOf(t: Tables, key: string, tenant: string): Option<bool> {
    if (key, tenant) in t.overrides then Some(t.overrides[(key, tenant)]) else None
  }

  /** `setFlag`; a key without a row is refused. */
  function SetFlag(t: Tables, key: string, enabled: bool): Option<(Tables, Change)> {
    if key in t.global
    then Some((Tables(t.global[key := enabled], t.overrides), Change(Some(t.global[key]), Some(enabled)))) else None
  }

  /** `setOverride`. */
  function SetOverride(t: Tables, key: string, tenant: string, enabled: bool): (Tables, Change) {
    (Tables(t.global, t.overrides[(key, tenant) := enabled]), Change(OverrideOf(t, key, tenant), Some(enabled)))
  }

  /** `clearOverride`. */
  function ClearOverride(t: Tables, key: string, tenant: string): (Tables, Change) {
    (Tables(t.global, t.overrides - {(key, tenant)}), Change(OverrideOf(t, key, tenant), None))
  }

  /** `isFlagOn`, uncached. */
  function IsFlagOn(t: Tables, key: string, tenant: Option<string>): bool {
    Effective(t.global, t.overrides, key, tenant)
  }

  /** An override decides for its tenant, whatever the global value; every other read is as before. */
  lemma OverrideWins(t: Tables, key: string, tenant: string, enabled: bool, k: string, who: Option<string>)
    ensures IsFlagOn(SetOverride(t, key, tenant, enabled).0, k, who)
         == if k == key && who == Some(tenant) && tenant != "" then enabled else IsFlagOn(t, k, who)
  {
  }

  /** A global value reaches just the reads of its key without an override; a key without a row is refused. */
  lemma GlobalReaches(t: Tables, key: string, enabled: bool, k: string, who: Option<string>)
    ensures SetFlag(t, key, enabled).None? <==> key !in t.global
    ensures SetFlag(t, key, enabled).Some? ==>
              IsFlagOn(SetFlag(t, key, enabled).value.0, k, who) ==
              if k == key && (who.None? || who == Some("") || OverrideOf(t, key, who.value).None?)
              then enabled else IsFlagOn(t, k, who)
  {
  }

  /** Clearing an override gives its tenant the global value back, and changes no other read. */
  lemma ClearGivesBack(t: Tables, key: string, tenant: string, k: string, who: Option<string>)
    ensures IsFlagOn(ClearOverride(t, key, tenant).0, k, who)
         == if k == key && who == Some(tenant) then IsFlagOn(t, key, None) else IsFlagOn(t, k, who)
  {
  }

  /** A read that names no tenant is the row's value; without one it is off. */
  lemma NoTenantReadsRow(t: Tables, key: string)
    ensures IsFlagOn(t, key, None) <==> key in t.global && t.global[key]
    ensures key !in t.global && (forall x: string :: (key, x) !in t.overrides) ==> forall w :: !IsFlagOn(t, key, w)
  {
  }

  /** The change a setter returns is what was there before and what is there after. */
  lemma ChangeReports(t: Tables, key: string, tenant: string, enabled: bool)
    ensures var (after, change) := SetOverride(t, key, tenant, enabled);
            && change.before == OverrideOf(t, key, tenant)
            && change.after == OverrideOf(after, key, tenant) == Some(enabled)
    ensures var (after, change) := ClearOverride(t, key, tenant);
            change.before == OverrideOf(t, key, tenant) && change.after == OverrideOf(after, key, tenant) == None
    ensures SetFlag(t, key, enabled).Some? ==>
              var (after, change) := SetFlag(t, key, enabled).value;
              change.before == Some(t.global[key]) && change.after == Some(after.global[key]) == Some(enabled)
  {
  }

  /** Undoing with what the setter returned: setting an override back, or clearing it, restores every read. */
  lemma ChangeUndoes(t: Tables, key: string, tenant: string, enabled: bool, k: string, who: Option<string>)
    ensures var (after, change) := SetOverride(t, key, tenant, enabled);
            var back := if change.before.Some? then SetOverride(after, key, tenant, change.before.value).0
                        else ClearOverride(after, key, tenant).0;
            IsFlagOn(back, k, who) == IsFlagOn(t, k, who)
  {
  }

  // ---- The cache ----

  predicate Fresh(s: Snapshot, now: int) {
    now - s.loadedAt < FLAG_CACHE_TTL_MS
  }

  /** What `getSnapshot` does before its first await: a hit, or the promise it waits for. */
  datatype Answer = Hit(snapshot: Snapshot) | Await(load: nat)

  /** The module-level state: the snapshot, the registered load, and the number of loads started. */
  datatype Cache = Cache(snapshot: Option<Snapshot>, inflight: Option<nat>, loads: nat)

  /**
   * `getSnapshot` up to its first await: a fresh snapshot is a hit, else the registered load or a
   * new one is awaited.
   */
  function AfterRead(c: Cache, now: int): (Cache, Answer) {
    if c.snapshot.Some? && Fresh(c.snapshot.value, now) then (c, Hit(c.snapshot.value))
    else if c.inflight.Some? then (c, Await(c.inflight.value))
    else (Cache(c.snapshot, Some(c.loads), c.loads + 1), Await(c.loads))
  }

  /** The module and its synchronous segments; EventsAreSegments ties them to the interleavings below. */
  class FlagCache {
    var snapshot: Option<Snapshot>
    var inflight: Option<nat>
    var loads: nat

    function State(): Cache
      reads this
    {
      Cache(snapshot, inflight, loads)
    }

    constructor ()
      ensures State() == Cache(None, None, 0)
    {
      snapshot, inflight, loads := None, None, 0;
    }

    /** `getSnapshot`: one load at a time, unless invalidation forgot one. */
    method GetSnapshot(now: int) returns (a: Answer)
      modifies this
      ensures (State(), a) == AfterRead(old(State()), now)
    {
      if snapshot.Some? && Fresh(snapshot.value, now) {
        return Hit(snapshot.value);
      }
      if inflight.None? {
        inflight := Some(loads);
        loads := loads + 1;
      }
      a := Await(inflight.value);
    }

    /** The load's `then`. */
    method Loaded(s: Snapshot)
      modifies this
      ensures State() == Cache(Some(s), old(inflight), old(loads))
    {
      snapshot := Some(s);
    }

    /** The load's `finally`: it clears whatever load is registered. */
    method Settled()
      modifies this
      ensures State() == Cache(old(snapshot), None, old(loads))
    {
      inflight := None;
    }

    /** `__invalidateFlagCache`. */
    method Invalidate()
      modifies this
      ensures State() == Cache(None, None, old(loads))
    {
      snapshot, inflight := None, None;
    }
  }

  // ---- Interleavings ----

  datatype Moment = Moment(time: int, tables: Tables)

  /** A part of a load: the rows read, and the moment they were read at. */
  datatype Part<T> = Part(rows: T, at: nat)

  /** A load: begun at a time; its two queries answer separately; then it has a result, and in the end it settles. */
  datatype Load = Load(begun: int, globals: Option<Part<Global>>, overrides: Option<Part<Overrides>>,
                       result: Option<Snapshot>, settled: bool)

  /** `snapshot` and `inflight` name the loads they came from. */
  datatype World = World(history: seq<Moment>, snapshot: Option<nat>, inflight: Option<nat>, loads: seq<Load>)

  datatype Event =
    | Write(tables: Tables)
    | InvalidateCache
    | Read
    | ReadGlobals(k: nat)
    | ReadOverrides(k: nat)
    | Finish(k: nat)
    | Store(k: nat)
    | Settle(k: nat)

  function Last(w: World): Moment
    requires w.history != []
  {
    w.history[|w.history| - 1]
  }

  /** The cached snapshot a read at `now` would use. */
  function CacheHit(w: World, now: int): Option<Snapshot> {
    if w.snapshot.Some? && w.snapshot.value < |w.loads| && w.loads[w.snapshot.value].result.Some?
       && Fresh(w.loads[w.snapshot.value].result.value, now)
    then w.loads[w.snapshot.value].result else None
  }

  /** Load `k` is still running. */
  predicate Running(w: World, k: nat) {
    k < |w.loads| && !w.loads[k].settled
  }

  /** What an event does once its moment is on record; an event that is not enabled does nothing more. */
  function Effect(w: World, e: Event): World
    requires w.history != []
  {
    var now, at := Last(w).time, |w.history| - 1;
    match e
    case Write(_) => w
    case InvalidateCache => World(w.history, None, None, w.loads)
    case Read =>
      if CacheHit(w, now).Some? || w.inflight.Some? then w
      else World(w.history, w.snapshot, Some(|w.loads|), w.loads + [Load(now, None, None, None, false)])
    case ReadGlobals(k) =>
      if Running(w, k) && w.loads[k].globals.None? then
        var l := w.loads[k];
        World(w.history, w.snapshot, w.inflight,
              w.loads[k := Load(l.begun, Some(Part(Last(w).tables.global, at)), l.overrides, l.result, false)])
      else w
    case ReadOverrides(k) =>
      if Running(w, k) && w.loads[k].overrides.None? then
        var l := w.loads[k];
        World(w.history, w.snapshot, w.inflight,
              w.loads[k := Load(l.begun, l.globals, Some(Part(Last(w).tables.overrides, at)), l.result, false)])
      else w
    case Finish(k) =>
      if Running(w, k) && w.loads[k].globals.Some? && w.loads[k].overrides.Some? && w.loads[k].result.None? then
        var l := w.loads[k];
        World(w.history, w.snapshot, w.inflight,
              w.loads[k := Load(l.begun, l.globals, l.overrides,
                                Some(Snapshot(l.globals.value.rows, l.overrides.value.rows, now)), false)])
      else w
    case Store(k) =>
      if Running(w, k) && w.loads[k].result.Some? then World(w.history, Some(k), w.inflight, w.loads) else w
    case Settle(k) =>
      // with a result or, when a query failed, without one
      if Running(w, k) then
        var l := w.loads[k];
        World(w.history, w.snapshot, None, w.loads[k := Load(l.begun, l.globals, l.overrides, l.result, true)])
      else w
  }

  /** One event at a time of the clock; only a write changes the tables. */
  function Step(w: World, e: Event, time: int): World
    requires w.history != []
  {
    Effect(World(w.history + [Moment(time, if e.Write? then e.tables else Last(w).tables)],
                 w.snapshot, w.inflight, w.loads), e)
  }

  /** The clock does not run back, and a load running at `time` began at most `limit` before. */
  ghost predicate InTime(w: World, time: int, limit: int)
    requires w.history != []
  {
    Last(w).time <= time && forall k :: 0 <= k < |w.loads| && !w.loads[k].settled ==> time - w.loads[k].begun <= limit
  }

  datatype Timed = Timed(event: Event, time: int)

  function Run(w: World, events: seq<Timed>): (r: World)
    requires w.history != []
    ensures r.history != []
  {
    if events == [] then w
    else
      var n := |events| - 1;
      Step(Run(w, events[..n]), events[n].event, events[n].time)
  }

  /** Every event of the run is in time. */
  ghost predicate RunInTime(w: World, events: seq<Timed>, limit: int)
    requires w.history != []
  {
    events == [] ||
    (RunInTime(w, events[..|events| - 1], limit)
     && InTime(Run(w, events[..|events| - 1]), events[|events| - 1].time, limit))
  }

  // ---- Where entries come from ----

  ghost predicate ReadAt<T>(w: World, p: Part<T>, begun: int) {
    p.at < |w.history| && begun <= w.history[p.at].time
  }

  /** A load's parts are the tables of moments since it began, and its result is made of them within the limit. */
  ghost predicate Traced(w: World, l: Load, limit: int) {
    && (l.globals.Some? ==>
          ReadAt(w, l.globals.value, l.begun)
          && w.history[l.globals.value.at].tables.global == l.globals.value.rows)
    && (l.overrides.Some? ==>
          ReadAt(w, l.overrides.value, l.begun)
          && w.history[l.overrides.value.at].tables.overrides == l.overrides.value.rows)
    && (l.result.Some? ==>
          l.globals.Some? && l.overrides.Some? && l.result.value.global == l.globals.value.rows
          && l.result.value.overrides == l.overrides.value.rows && l.result.value.loadedAt - l.begun <= limit)
  }

  ghost predicate Consistent(w: World, limit: int) {
    && w.history != []
    && (forall k :: 0 <= k < |w.loads| ==> Traced(w, w.loads[k], limit) && w.loads[k].begun <= Last(w).time)
    && (w.snapshot.Some? ==> w.snapshot.value < |w.loads| && w.loads[w.snapshot.value].result.Some?)
    && (w.inflight.Some? ==> Running(w, w.inflight.value))
  }

  lemma MomentRecorded(w: World, m: Moment, limit: int)
    requires Consistent(w, limit) && Last(w).time <= m.time
    ensures Consistent(World(w.history + [m], w.snapshot, w.inflight, w.loads), limit)
  {
  }

  /** Replacing one load by a traced continuation of it keeps the world consistent. */
  lemma LoadMoves(w: World, k: nat, l: Load, inflight: Option<nat>, limit: int)
    requires Consistent(w, limit) && k < |w.loads| && Traced(w, l, limit) && l.begun == w.loads[k].begun
    requires w.loads[k].result.Some? ==> l.result.Some?
    requires inflight.None? || (inflight == w.inflight && !l.settled)
    ensures Consistent(World(w.history, w.snapshot, inflight, w.loads[k := l]), limit)
  {
    var v := World(w.history, w.snapshot, inflight, w.loads[k := l]);
    forall j | 0 <= j < |v.loads|
      ensures Traced(v, v.loads[j], limit) && v.loads[j].begun <= Last(v).time
    {
      assert Traced(w, if j == k then l else w.loads[j], limit);
    }
  }

  lemma EffectKeeps(w: World, e: Event, limit: int)
    requires Consistent(w, limit) && InTime(w, Last(w).time, limit) && limit >= 0
    ensures Consistent(Effect(w, e), limit)
  {
    if Effect(w, e) != w {
      match e {
        case ReadGlobals(k) => LoadMoves(w, k, Effect(w, e).loads[k], w.inflight, limit);
        case ReadOverrides(k) => LoadMoves(w, k, Effect(w, e).loads[k], w.inflight, limit);
        case Finish(k) => LoadMoves(w, k, Effect(w, e).loads[k], w.inflight, limit);
        case Settle(k) => LoadMoves(w, k, Effect(w, e).loads[k], None, limit);
        case Read => LoadBegins(w, limit);
        case Store(k) =>
        case InvalidateCache =>
      }
    }
  }

  lemma LoadBegins(w: World, limit: int)
    requires Consistent(w, limit)
    ensures Consistent(World(w.history, w.snapshot, Some(|w.loads|),
                             w.loads + [Load(Last(w).time, None, None, None, false)]), limit)
  {
    var v := World(w.history, w.snapshot, Some(|w.loads|), w.loads + [Load(Last(w).time, None, None, None, false)]);
    forall j | 0 <= j < |w.loads|
      ensures Traced(v, v.loads[j], limit)
    {
      assert Traced(w, w.loads[j], limit);
    }
  }

  /** The module's state, as a world holds it. */
  function CacheOf(w: World): Cache {
    Cache(if w.snapshot.Some? && w.snapshot.value < |w.loads| then w.loads[w.snapshot.value].result else None,
          w.inflight, |w.loads|)
  }

  /** On the module's state each event does what the segment it stands for does, and the others nothing. */
  lemma EventsAreSegments(w: World, e: Event, limit: int)
    requires Consistent(w, limit)
    ensures var c, d := CacheOf(w), CacheOf(Effect(w, e));
            match e
            case Read => d == AfterRead(c, Last(w).time).0
            case InvalidateCache => d == Cache(None, None, c.loads)
            case Store(k) =>
              Running(w, k) && w.loads[k].result.Some? ==> d == Cache(w.loads[k].result, c.inflight, c.loads)
            case Settle(k) => Running(w, k) ==> d == Cache(c.snapshot, None, c.loads)
            case _ => d == c
  {
  }

  lemma StepKeeps(w: World, e: Event, time: int, limit: int)
    requires Consistent(w, limit) && InTime(w, time, limit) && limit >= 0
    ensures Consistent(Step(w, e, time), limit)
  {
    var m := Moment(time, if e.Write? then e.tables else Last(w).tables);
    MomentRecorded(w, m, limit);
    EffectKeeps(World(w.history + [m], w.snapshot, w.inflight, w.loads), e, limit);
  }

  lemma {:induction false} RunKeeps(w: World, events: seq<Timed>, limit: int)
    requires Consistent(w, limit) && limit >= 0 && RunInTime(w, events, limit)
    ensures Consistent(Run(w, events), limit)
  {
    if events != [] {
      var n := |events| - 1;
      RunKeeps(w, events[..n], limit);
      StepKeeps(Run(w, events[..n]), events[n].event, events[n].time, limit);
    }
  }

  /** A world before the first read. */
  function Start(time: int, tables: Tables): World {
    World([Moment(time, tables)], None, None, [])
  }

  ghost predicate GlobalWas(w: World, rows: Global, since: int) {
    exists i :: 0 <= i < |w.history| && w.history[i].tables.global == rows && w.history[i].time >= since
  }

  ghost predicate OverridesWere(w: World, rows: Overrides, since: int) {
    exists i :: 0 <= i < |w.history| && w.history[i].tables.overrides == rows && w.history[i].time >= since
  }

  /** A load that finishes has the maps its queries read, stamped with the time it finished. */
  lemma FinishStamps(w: World, k: nat)
    requires w.history != [] && Running(w, k) && w.loads[k].result.None?
    requires w.loads[k].globals.Some? && w.loads[k].overrides.Some?
    ensures var l := Effect(w, Finish(k)).loads[k];
            && l.result.Some? && l.result.value.loadedAt == Last(w).time
            && l.result.value.global == w.loads[k].globals.value.rows
            && l.result.value.overrides == w.loads[k].overrides.value.rows
  {
  }

  /** A read hits for 15 seconds after the snapshot's load ended, and no longer. */
  lemma HitsForTtl(w: World, now: int)
    ensures CacheHit(w, now).Some? <==>
              && w.snapshot.Some? && w.snapshot.value < |w.loads| && w.loads[w.snapshot.value].result.Some?
              && now < w.loads[w.snapshot.value].result.value.loadedAt + 15_000
    ensures CacheHit(w, now).Some? ==> CacheHit(w, now) == w.loads[w.snapshot.value].result
  {
  }

  /** A load's result was the tables' contents since it began. */
  lemma ResultIsRecent(w: World, k: nat, limit: int)
    requires Consistent(w, limit) && k < |w.loads| && w.loads[k].result.Some?
    ensures GlobalWas(w, w.loads[k].result.value.global, w.loads[k].begun)
    ensures OverridesWere(w, w.loads[k].result.value.overrides, w.loads[k].begun)
    ensures w.loads[k].result.value.loadedAt - w.loads[k].begun <= limit
  {
    var l := w.loads[k];
    assert Traced(w, l, limit);
    assert w.history[l.globals.value.at].tables.global == l.result.value.global;
    assert w.history[l.overrides.value.at].tables.overrides == l.result.value.overrides;
  }

  lemma WasEarlier(w: World, global: Global, overrides: Overrides, since: int, before: int)
    requires GlobalWas(w, global, since) && OverridesWere(w, overrides, since) && before <= since
    ensures GlobalWas(w, global, before) && OverridesWere(w, overrides, before)
  {
  }

  /**
   * Under any interleaving with loads of at most `limit`, the maps a cached read uses were the
   * tables' contents at instants no older than the TTL plus `limit`.
   */
  lemma ReadsAreRecent(start: int, tables: Tables, events: seq<Timed>, limit: int)
    requires limit >= 0 && RunInTime(Start(start, tables), events, limit)
    ensures var w := Run(Start(start, tables), events);
            var now := Last(w).time;
            var hit := CacheHit(w, now);
            hit.Some? ==> GlobalWas(w, hit.value.global, now - FLAG_CACHE_TTL_MS - limit)
                          && OverridesWere(w, hit.value.overrides, now - FLAG_CACHE_TTL_MS - limit)
  {
    RunKeeps(Start(start, tables), events, limit);
    var w := Run(Start(start, tables), events);
    var hit := CacheHit(w, Last(w).time);
    if hit.Some? {
      var k := w.snapshot.value;
      ResultIsRecent(w, k, limit);
      WasEarlier(w, hit.value.global, hit.value.overrides, w.loads[k].begun, Last(w).time - FLAG_CACHE_TTL_MS - limit);
    }
  }

  /** A read that waits for load `k` gets, if it gets it within the limit, tables no older than that. */
  lemma AwaitedReadsAreRecent(start: int, tables: Tables, events: seq<Timed>, limit: int, k: nat)
    requires limit >= 0 && RunInTime(Start(start, tables), events, limit)
    requires var w := Run(Start(start, tables), events);
             k < |w.loads| && w.loads[k].result.Some? && Last(w).time - w.loads[k].begun <= limit
    ensures var w := Run(Start(start, tables), events);
            GlobalWas(w, w.loads[k].result.value.global, Last(w).time - limit)
            && OverridesWere(w, w.loads[k].result.value.overrides, Last(w).time - limit)
  {
    RunKeeps(Start(start, tables), events, limit);
    var w := Run(Start(start, tables), events);
    var s := w.loads[k].result.value;
    ResultIsRecent(w, k, limit);
    WasEarlier(w, s.global, s.overrides, w.loads[k].begun, Last(w).time - limit);
  }

  /** Once the tables have been still for the TTL plus the limit, a cached read equals an uncached one. */
  lemma StillTablesReadTrue(start: int, tables: Tables, events: seq<Timed>, limit: int, key: string,
                            tenant: Option<string>)
    requires limit >= 0 && RunInTime(Start(start, tables), events, limit)
    requires var w := Run(Start(start, tables), events);
             CacheHit(w, Last(w).time).Some?
             && forall i :: 0 <= i < |w.history| && w.history[i].time >= Last(w).time - FLAG_CACHE_TTL_MS - limit
                  ==> w.history[i].tables == Last(w).tables
    ensures var w := Run(Start(start, tables), events);
            var hit := CacheHit(w, Last(w).time).value;
            Effective(hit.global, hit.overrides, key, tenant)
            == Effective(Last(w).tables.global, Last(w).tables.overrides, key, tenant)
  {
    ReadsAreRecent(start, tables, events, limit);
  }

  // ---- A read after a write ----

  /** The two tables; a setter writes one of them. */
  datatype Table = FlagTable | OverrideTable

  /** The moment a load read a table at. */
  function ReadMoment(l: Load, t: Table): Option<nat> {
    match t
    case FlagTable => if l.globals.Some? then Some(l.globals.value.at) else None
    case OverrideTable => if l.overrides.Some? then Some(l.overrides.value.at) else None
  }

  ghost predicate ReadSince(l: Load, t: Table, i: nat) {
    ReadMoment(l, t).Some? ==> ReadMoment(l, t).value >= i
  }

  /** From moment `i` on, every load that can still be read has read the table since `i`, if at all. */
  ghost predicate Since(w: World, t: Table, i: nat) {
    && i < |w.history|
    && (forall k :: 0 <= k < |w.loads| && !w.loads[k].settled ==> ReadSince(w.loads[k], t, i))
    && (w.snapshot.Some? && w.snapshot.value < |w.loads| ==> ReadSince(w.loads[w.snapshot.value], t, i))
  }

  lemma SinceKept(w: World, e: Event, time: int, t: Table, i: nat)
    requires w.history != [] && Since(w, t, i) && (w.snapshot.Some? ==> w.snapshot.value < |w.loads|)
    ensures Since(Step(w, e, time), t, i)
    ensures var v := Step(w, e, time); v.snapshot.Some? ==> v.snapshot.value < |v.loads|
  {
  }

  lemma {:induction false} SinceForever(w: World, events: seq<Timed>, t: Table, i: nat)
    requires w.history != [] && Since(w, t, i) && (w.snapshot.Some? ==> w.snapshot.value < |w.loads|)
    ensures Since(Run(w, events), t, i)
    ensures var v := Run(w, events); v.snapshot.Some? ==> v.snapshot.value < |v.loads|
  {
    if events != [] {
      var n := |events| - 1;
      SinceForever(w, events[..n], t, i);
      SinceKept(Run(w, events[..n]), events[n].event, events[n].time, t, i);
    }
  }

  /** A snapshot shows a table's contents of moment `i` or later. */
  ghost predicate ShowsSince(w: World, s: Snapshot, t: Table, i: nat) {
    match t
    case FlagTable => exists j :: i <= j < |w.history| && w.history[j].tables.global == s.global
    case OverrideTable => exists j :: i <= j < |w.history| && w.history[j].tables.overrides == s.overrides
  }

  /** The snapshot, and the result of the load a reader would join, show the table since moment `i`. */
  ghost predicate ServesSince(w: World, t: Table, i: nat) {
    && (w.snapshot.Some? && w.snapshot.value < |w.loads| && w.loads[w.snapshot.value].result.Some? ==>
          ShowsSince(w, w.loads[w.snapshot.value].result.value, t, i))
    && (w.inflight.Some? && w.inflight.value < |w.loads| && w.loads[w.inflight.value].result.Some? ==>
          ShowsSince(w, w.loads[w.inflight.value].result.value, t, i))
  }

  lemma SinceServes(w: World, t: Table, i: nat, limit: int)
    requires Consistent(w, limit) && Since(w, t, i)
    ensures ServesSince(w, t, i)
  {
    forall k: nat | k < |w.loads| && w.loads[k].result.Some? && ReadSince(w.loads[k], t, i)
      ensures ShowsSince(w, w.loads[k].result.value, t, i)
    {
      assert Traced(w, w.loads[k], limit);
    }
  }

  /** No running load has read the table before moment `i`. */
  ghost predicate NoneReadBefore(w: World, t: Table, i: nat) {
    forall k: nat :: Running(w, k) ==> ReadSince(w.loads[k], t, i)
  }

  /** Invalidated while no running load has read the table before moment `i`: nothing from before can be served. */
  lemma InvalidatedSince(w: World, time: int, t: Table, i: nat)
    requires w.history != [] && i <= |w.history| && NoneReadBefore(w, t, i)
    ensures Since(Step(w, InvalidateCache, time), t, i) && Step(w, InvalidateCache, time).snapshot.None?
  {
    forall k | 0 <= k < |w.loads| && !w.loads[k].settled
      ensures ReadSince(w.loads[k], t, i)
    {
      assert Running(w, k);
    }
  }

  /**
   * Write a table at moment `i` and invalidate later, while no running load has read the table
   * before the write; whatever happens after, every cached or joined read uses that table as
   * it was at the write or later.
   */
  lemma InvalidationIsSeen(start: int, tables: Tables, before: seq<Timed>, t: Table, i: nat,
                           time: int, after: seq<Timed>, limit: int)
    requires limit >= 0 && i <= |Run(Start(start, tables), before).history|
    requires NoneReadBefore(Run(Start(start, tables), before), t, i)
    requires RunInTime(Start(start, tables), before + [Timed(InvalidateCache, time)] + after, limit)
    ensures ServesSince(Run(Start(start, tables), before + [Timed(InvalidateCache, time)] + after), t, i)
  {
    var s := Start(start, tables);
    var w := Run(s, before);
    var mid := before + [Timed(InvalidateCache, time)];
    assert mid[..|mid| - 1] == before;
    InvalidatedSince(w, time, t, i);
    SinceForever(Run(s, mid), after, t, i);
    RunAppend(s, mid, after);
    RunKeeps(s, mid + after, limit);
    SinceServes(Run(s, mid + after), t, i, limit);
  }

  /** The stored snapshot has the table as read at moment `i` or later. */
  ghost predicate StoredSince(w: World, t: Table, i: nat) {
    w.snapshot.Some? && w.snapshot.value < |w.loads| ==> ReadSince(w.loads[w.snapshot.value], t, i)
  }

  /** Load `k` goes on at `time`, within the limit, and has the parts `l` had. */
  ghost predicate GoesOn(v: World, l: Load, k: nat, time: int, limit: int) {
    && v.history != [] && Last(v).time == time && InTime(v, time, limit)
    && Running(v, k) && Keeps(v.loads[k], l)
  }

  ghost predicate Keeps(m: Load, l: Load) {
    (l.globals.Some? ==> m.globals == l.globals) && (l.overrides.Some? ==> m.overrides == l.overrides)
  }

  predicate Loaded(l: Load) {
    l.globals.Some? && l.overrides.Some?
  }

  lemma GlobalsAnswer(v: World, l: Load, k: nat, time: int, limit: int)
    requires GoesOn(v, l, k, time, limit)
    ensures var a := Step(v, ReadGlobals(k), time); GoesOn(a, l, k, time, limit) && a.loads[k].globals.Some?
  {
  }

  lemma OverridesAnswer(v: World, l: Load, k: nat, time: int, limit: int)
    requires GoesOn(v, l, k, time, limit) && v.loads[k].globals.Some?
    ensures var a := Step(v, ReadOverrides(k), time); GoesOn(a, l, k, time, limit) && Loaded(a.loads[k])
  {
  }

  lemma Finishes(v: World, l: Load, k: nat, time: int, limit: int)
    requires GoesOn(v, l, k, time, limit) && Loaded(v.loads[k])
    ensures var a := Step(v, Finish(k), time); GoesOn(a, l, k, time, limit) && a.loads[k].result.Some?
  {
  }

  lemma LoadCompletes(w: World, k: nat, time: int, limit: int) returns (after: seq<Timed>)
    requires w.history != [] && Last(w).time == time && InTime(w, time, limit) && Running(w, k)
    ensures RunInTime(w, after, limit)
    ensures var v := Run(w, after); GoesOn(v, w.loads[k], k, time, limit) && v.loads[k].result.Some?
  {
    var l := w.loads[k];
    after := [];
    InTimeSnoc(w, after, Timed(ReadGlobals(k), time), limit);
    GlobalsAnswer(w, l, k, time, limit);
    after := after + [Timed(ReadGlobals(k), time)];
    InTimeSnoc(w, after, Timed(ReadOverrides(k), time), limit);
    OverridesAnswer(Run(w, after), l, k, time, limit);
    after := after + [Timed(ReadOverrides(k), time)];
    InTimeSnoc(w, after, Timed(Finish(k), time), limit);
    Finishes(Run(w, after), l, k, time, limit);
    after := after + [Timed(Finish(k), time)];
  }

  /** What a load has read it keeps until it is stored. */
  lemma StaleLoadIsStored(w: World, k: nat, time: int, limit: int) returns (after: seq<Timed>)
    requires w.history != [] && Last(w).time == time && InTime(w, time, limit) && Running(w, k)
    ensures RunInTime(w, after, limit)
    ensures var v := Run(w, after); v.snapshot == Some(k) && k < |v.loads| && Keeps(v.loads[k], w.loads[k])
  {
    var done := LoadCompletes(w, k, time, limit);
    after := done + [Timed(Store(k), time)];
    InTimeSnoc(w, done, Timed(Store(k), time), limit);
  }

  lemma InTimeSnoc(w: World, events: seq<Timed>, e: Timed, limit: int)
    requires w.history != [] && RunInTime(w, events, limit) && InTime(Run(w, events), e.time, limit)
    ensures RunInTime(w, events + [e], limit)
    ensures Run(w, events + [e]) == Step(Run(w, events), e.event, e.time)
  {
    assert (events + [e])[..|events|] == events;
  }

  lemma InTimeAfterInvalidation(w: World, time: int, limit: int)
    requires w.history != [] && InTime(w, time, limit)
    ensures var v := Step(w, InvalidateCache, time);
            Last(v).time == time && InTime(v, time, limit) && v.loads == w.loads
  {
  }

  /**
   * Exactly when a write can be lost. A write of a table at moment `i` is kept by the
   * invalidation after it, whatever follows, if and only if no load still running has read
   * that table before the write. (Such a load can store what it read.)
   */
  lemma InvalidationIsExact(start: int, tables: Tables, before: seq<Timed>, t: Table, i: nat, time: int, limit: int)
    requires limit >= 0 && RunInTime(Start(start, tables), before, limit)
    requires InTime(Run(Start(start, tables), before), time, limit)
    requires i <= |Run(Start(start, tables), before).history|
    ensures var w := Run(Start(start, tables), before); var v := Step(w, InvalidateCache, time);
            NoneReadBefore(w, t, i) <==>
              forall after :: RunInTime(v, after, limit) ==> StoredSince(Run(v, after), t, i)
  {
    var w := Run(Start(start, tables), before);
    var v := Step(w, InvalidateCache, time);
    if NoneReadBefore(w, t, i) {
      InvalidatedSince(w, time, t, i);
      forall after | RunInTime(v, after, limit)
        ensures StoredSince(Run(v, after), t, i)
      {
        SinceForever(v, after, t, i);
      }
    } else {
      var k: nat :| Running(w, k) && !ReadSince(w.loads[k], t, i);
      InTimeAfterInvalidation(w, time, limit);
      var after := StaleLoadIsStored(v, k, time, limit);
      assert !StoredSince(Run(v, after), t, i);
    }
  }

  /** A read begins a load, and its two queries answer. */
  function LoadInFlight(was: Tables): World {
    Step(Step(Step(Start(0, was), Read, 0), ReadGlobals(0), 0), ReadOverrides(0), 0)
  }

  lemma LoadInFlightIs(was: Tables)
    ensures var a := Moment(0, was);
            LoadInFlight(was) == World([a, a, a, a], None, Some(0),
                                       [Load(0, Some(Part(was.global, 2)), Some(Part(was.overrides, 3)), None, false)])
  {
    var a := Moment(0, was);
    assert Step(Start(0, was), Read, 0) == World([a, a], None, Some(0), [Load(0, None, None, None, false)]);
  }

  /** With a load in flight the write can be lost: the old load's snapshot is stored after the invalidation. */
  lemma LoadInFlightHidesWrite(was: Tables, becomes: Tables)
    ensures var written := Step(Step(LoadInFlight(was), Write(becomes), 1), InvalidateCache, 1);
            var w := Step(Step(written, Finish(0), 2), Store(0), 2);
            CacheHit(w, 2) == Some(Snapshot(was.global, was.overrides, 2)) && Last(w).tables == becomes
  {
    LoadInFlightIs(was);
    var written := Step(Step(LoadInFlight(was), Write(becomes), 1), InvalidateCache, 1);
    assert Last(written) == Moment(1, becomes) && written.loads == LoadInFlight(was).loads;
    var done := Step(written, Finish(0), 2);
    assert done.loads[0].result == Some(Snapshot(was.global, was.overrides, 2)) && Last(done) == Moment(2, becomes);
  }

  lemma {:induction false} RunAppend(w: World, a: seq<Timed>, b: seq<Timed>)
    requires w.history != []
    ensures Run(w, a + b) == Run(Run(w, a), b)
  {
    if b == [] {
      assert a + b == a;
    } else {
      var n := |b| - 1;
      assert (a + b)[..|a + b| - 1] == a + b[..n];
      RunAppend(w, a, b[..n]);
    }
  }
}
