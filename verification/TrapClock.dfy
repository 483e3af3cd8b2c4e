/**
 * packages/case-lifecycle/trap/clock.ts: one pass over the vector table, filling two maps
 * as it goes, against a specification that looks every step up on its own.
 */
module TrapClock {
  import opened Wrappers
  import opened WorkDays
  import opened Rule41
  import opened TrapChain

  datatype Status = Done | Open | Missed | NotYet

  datatype Step = Step(id: VectorId, family: Family, due: Option<int>, rawDue: Option<int>, status: Status,
                       filedAt: Option<int>, late: bool, jurisdictional: bool, isExtension: bool, optional: bool)

  /** `TrapClockInputs`; the fields given are the keys of `given`. */
  datatype Inputs = Inputs(vehicle: Vehicle, judgmentSigned: Option<int>, given: map<Field, int>, today: int)

  datatype Next = Next(id: VectorId, due: int, daysLeft: int)

  datatype Clock = Clock(steps: seq<Step>, nextDue: Option<Next>, missedJurisdictional: bool)

  /** What the table is run against: the dates with the sentencing fallback, the modes and today. */
  datatype Env = Env(dates: map<Field, int>, modes: Modes, today: int)

  function Lookup<K, V>(m: map<K, V>, k: K): Option<V> {
    if k in m then Some(m[k]) else None
  }

  function DatesOf(i: Inputs): map<Field, int> {
    if SentenceImposed !in i.given && i.judgmentSigned.Some?
    then i.given[SentenceImposed := i.judgmentSigned.value]
    else i.given
  }

  /** A motion for new trial counts when filed within 30 days of sentencing (TRAP 21.4). */
  predicate TimelyMotion(dates: map<Field, int>) {
    && MotionForNewTrialFiled in dates && SentenceImposed in dates
    && dates[MotionForNewTrialFiled] <= Due(dates[SentenceImposed], 30)
  }

  /** A rehearing moves the PDR trigger unless its motion was filed over 15 days after the judgment (TRAP 49.1). */
  predicate RehearingCounts(dates: map<Field, int>) {
    && (RehearingFiled in dates || RehearingDenied in dates)
    && !(RehearingFiled in dates && CoaJudgment in dates && dates[RehearingFiled] > Due(dates[CoaJudgment], 15))
  }

  function EnvOf(i: Inputs): Env {
    var dates := DatesOf(i);
    Env(dates, Modes(TimelyMotion(dates), RehearingCounts(dates)), i.today)
  }

  // ---- One step ----

  function NotYetStep(v: Vector): Step {
    Step(v.id, v.family, None, None, NotYet, None, false, v.jurisdictional, v.extensionOf.Some?, v.optional)
  }

  /** The step of a vector whose trigger date is known; none for an optional act that expired unfiled. */
  function DatedStep(v: Vector, trigger: int, e: Env): Option<Step> {
    var due := Due(trigger, v.days);
    var filedAt := Lookup(e.dates, v.filed);
    if filedAt.Some? then
      var late := filedAt.value > due;
      Some(Step(v.id, v.family, Some(due), Some(trigger + v.days), if v.extensionOf.Some? && late then Missed else Done,
                filedAt, late, v.jurisdictional, v.extensionOf.Some?, v.optional))
    else if due < e.today && v.optional then None
    else
      Some(Step(v.id, v.family, Some(due), Some(trigger + v.days), if due < e.today then Missed else Open,
                None, false, v.jurisdictional, v.extensionOf.Some?, v.optional))
  }

  // ---- Specification: each step looked up on its own ----

  /** The trigger date of a vector: an input, or the due date of a family's base vector. */
  function TriggerDate(v: Vector, e: Env): Option<int> {
    match v.trigger
    case OnInput(field) => Lookup(e.dates, field)
    case OnDue(f) =>
      var b := VectorById(BaseOf(f, e.modes));
      match b.trigger
      case OnInput(field) => if field in e.dates then Some(Due(e.dates[field], b.days)) else None
      case OnDue(_) => None
  }

  /** The base step of a family, when its trigger is known and it has not been dropped. */
  function BaseStep(f: Family, e: Env): Option<Step> {
    var b := VectorById(BaseOf(f, e.modes));
    match TriggerDate(b, e)
    case Some(t) => DatedStep(b, t, e)
    case None => None
  }

  /** An extension window matters while its base is open, missed or filed late. */
  predicate WindowMatters(base: Option<Step>) {
    base.Some? && base.value.status != NotYet && !(base.value.status == Done && !base.value.late)
  }

  function StepOf(v: Vector, e: Env): Option<Step> {
    if !Applies(v, e.modes) then None
    else if v.extensionOf.Some? && !WindowMatters(BaseStep(v.extensionOf.value, e)) then None
    else
      match TriggerDate(v, e)
      case Some(t) => DatedStep(v, t, e)
      case None => Some(NotYetStep(v))
  }

  function StepsOf(chain: seq<VectorId>, e: Env): seq<Step> {
    if chain == [] then []
    else
      var last := StepOf(VectorById(chain[|chain| - 1]), e);
      StepsOf(chain[..|chain| - 1], e) + if last.Some? then [last.value] else []
  }

  /** The first open step with the earliest due date, as the stable sort leaves it in front. */
  ghost predicate IsEarliestOpen(steps: seq<Step>, k: int) {
    && 0 <= k < |steps| && IsOpen(steps[k])
    && forall j :: 0 <= j < |steps| && IsOpen(steps[j]) ==>
         steps[k].due.value <= steps[j].due.value && (steps[j].due.value == steps[k].due.value ==> k <= j)
  }

  predicate IsOpen(s: Step) {
    s.status == Open && s.due.Some?
  }

  ghost predicate IsNext(next: Option<Next>, steps: seq<Step>, today: int) {
    if next.None? then forall j :: 0 <= j < |steps| ==> !IsOpen(steps[j])
    else exists k :: IsEarliestOpen(steps, k)
                     && next.value == Next(steps[k].id, steps[k].due.value, steps[k].due.value - today)
  }

  predicate ExtensionMet(steps: seq<Step>, f: Family) {
    exists k :: 0 <= k < |steps| && steps[k].isExtension && steps[k].family == f && steps[k].status == Done
  }

  predicate CountsAsMissed(steps: seq<Step>, s: Step) {
    && s.jurisdictional
    && (s.status == Missed || (s.status == Done && s.late && !s.isExtension && !ExtensionMet(steps, s.family)))
  }

  predicate SomeMissed(steps: seq<Step>) {
    exists k :: 0 <= k < |steps| && CountsAsMissed(steps, steps[k])
  }

  ghost predicate IsClockOf(c: Clock, i: Inputs) {
    && c.steps == StepsOf(VectorsFor(i.vehicle), EnvOf(i))
    && IsNext(c.nextDue, c.steps, i.today)
    && c.missedJurisdictional == SomeMissed(c.steps)
  }

  // ---- The pass ----

  /** What the due-date map holds after the vectors of `seen`. */
  ghost predicate DuesSoFar(m: map<Family, int>, seen: seq<VectorId>, e: Env) {
    forall f: Family ::
      Lookup(m, f) == var b := VectorById(BaseOf(f, e.modes));
                      if BaseOf(f, e.modes) in seen && TriggerDate(b, e).Some?
                      then Some(Due(TriggerDate(b, e).value, b.days)) else None
  }

  /** What the base-step map holds after the vectors of `seen`. */
  ghost predicate BasesSoFar(m: map<Family, Step>, seen: seq<VectorId>, e: Env) {
    forall f: Family :: Lookup(m, f) == if BaseOf(f, e.modes) in seen then BaseStep(f, e) else None
  }

  /** References looked up in the maps are the references looked up in the table. */
  ghost predicate MapsAgree(v: Vector, dues: map<Family, int>, bases: map<Family, Step>, e: Env) {
    && (v.trigger.OnDue? ==> Lookup(dues, v.trigger.family) == TriggerDate(v, e))
    && (v.extensionOf.Some? ==> Lookup(bases, v.extensionOf.value) == BaseStep(v.extensionOf.value, e))
    && (v.extensionOf.None? && Applies(v, e.modes) ==> VectorById(BaseOf(v.family, e.modes)) == v)
  }

  lemma ReferenceSeen(vehicle: Vehicle, k: nat, m: Modes)
    requires k < |VectorsFor(vehicle)|
    requires VectorById(VectorsFor(vehicle)[k]).trigger.OnDue?
    ensures BaseOf(VectorById(VectorsFor(vehicle)[k]).trigger.family, m) in VectorsFor(vehicle)[..k]
  {
    var chain := VectorsFor(vehicle);
    var u := BaseOf(VectorById(chain[k]).trigger.family, m);
    ReferencesPointBack(chain[k], m);
    ReferencesStayInChain(chain[k], m, vehicle);
    TablesOrdered(vehicle);
    var j :| 0 <= j < |chain| && chain[j] == u;
    assert j < k;
    assert chain[..k][j] == u;
  }

  lemma MapsAgreeInOrder(vehicle: Vehicle, k: nat, dues: map<Family, int>, bases: map<Family, Step>, e: Env)
    requires k < |VectorsFor(vehicle)|
    requires DuesSoFar(dues, VectorsFor(vehicle)[..k], e) && BasesSoFar(bases, VectorsFor(vehicle)[..k], e)
    ensures MapsAgree(VectorById(VectorsFor(vehicle)[k]), dues, bases, e)
  {
    var id := VectorsFor(vehicle)[k];
    if VectorById(id).trigger.OnDue? {
      ReferenceSeen(vehicle, k, e.modes);
      ReferencesPointBack(id, e.modes);
    }
    if VectorById(id).extensionOf.Some? {
      ExtensionsExtendTheirFamily(id);
    }
    OneBasePerFamily(id, VectorById(id).family, e.modes);
  }

  lemma NotSeenBefore(vehicle: Vehicle, k: nat)
    requires k < |VectorsFor(vehicle)|
    ensures VectorsFor(vehicle)[k] !in VectorsFor(vehicle)[..k]
  {
    TablesOrdered(vehicle);
  }

  /** The pass after `k` vectors. */
  ghost predicate Walked(vehicle: Vehicle, k: nat, e: Env, steps: seq<Step>, dues: map<Family, int>,
                         bases: map<Family, Step>) {
    && k <= |VectorsFor(vehicle)|
    && steps == StepsOf(VectorsFor(vehicle)[..k], e)
    && DuesSoFar(dues, VectorsFor(vehicle)[..k], e) && BasesSoFar(bases, VectorsFor(vehicle)[..k], e)
  }

  lemma WalkOn(vehicle: Vehicle, k: nat, e: Env, steps: seq<Step>, dues: map<Family, int>, bases: map<Family, Step>)
    requires Walked(vehicle, k, e, steps, dues, bases) && k < |VectorsFor(vehicle)|
    ensures var v := VectorById(VectorsFor(vehicle)[k]);
            Walked(vehicle, k + 1, e, steps + if StepOf(v, e).Some? then [StepOf(v, e).value] else [],
                   Put(dues, v.family, DueWritten(v, e)), Put(bases, v.family, BaseWritten(v, e)))
  {
    var chain := VectorsFor(vehicle);
    assert chain[..k + 1] == chain[..k] + [chain[k]];
    StepsOfSnoc(chain, k, e);
    NotSeenBefore(vehicle, k);
    TableStands(chain[k], e.modes);
    DuesGrow(chain[..k], chain[k], VectorById(chain[k]), e, dues);
    BasesGrow(chain[..k], chain[k], VectorById(chain[k]), e, bases);
  }

  /** `computeTrapClock`. */
  method ComputeTrapClock(i: Inputs) returns (c: Clock)
    ensures IsClockOf(c, i)
  {
    var e := EnvOf(i);
    var chain := VectorsFor(i.vehicle);
    var steps: seq<Step> := [];
    var dueByFamily: map<Family, int> := map[];
    var baseByFamily: map<Family, Step> := map[];
    var k := 0;
    while k < |chain|
      invariant 0 <= k <= |chain|
      invariant Walked(i.vehicle, k, e, steps, dueByFamily, baseByFamily)
    {
      MapsAgreeInOrder(i.vehicle, k, dueByFamily, baseByFamily, e);
      WalkOn(i.vehicle, k, e, steps, dueByFamily, baseByFamily);
      var v := VectorById(chain[k]);
      var emitted, due, base := RunVector(v, e, dueByFamily, baseByFamily);
      steps := steps + if emitted.Some? then [emitted.value] else [];
      dueByFamily := Put(dueByFamily, v.family, due);
      baseByFamily := Put(baseByFamily, v.family, base);
      k := k + 1;
    }
    assert chain[..|chain|] == chain;
    var next := EarliestOpen(steps, i.today);
    c := Clock(steps, next, SomeMissed(steps));
  }

  /** What the loop writes to the due-date map for a vector. */
  function DueWritten(v: Vector, e: Env): Option<int> {
    if v.extensionOf.None? && Applies(v, e.modes) && TriggerDate(v, e).Some?
    then Some(Due(TriggerDate(v, e).value, v.days)) else None
  }

  /** What the loop writes to the base-step map for a vector. */
  function BaseWritten(v: Vector, e: Env): Option<Step> {
    if v.extensionOf.None? && Applies(v, e.modes) && TriggerDate(v, e).Some?
    then DatedStep(v, TriggerDate(v, e).value, e) else None
  }

  /** The loop's body for one vector: the step it pushes and what it writes to the two maps. */
  method RunVector(v: Vector, e: Env, dueByFamily: map<Family, int>, baseByFamily: map<Family, Step>)
    returns (emitted: Option<Step>, due: Option<int>, base: Option<Step>)
    requires MapsAgree(v, dueByFamily, baseByFamily, e)
    ensures emitted == StepOf(v, e) && due == DueWritten(v, e) && base == BaseWritten(v, e)
  {
    emitted, due, base := None, None, None;
    if !Applies(v, e.modes) {
      return;
    }
    if v.extensionOf.Some? {
      var parent := Lookup(baseByFamily, v.extensionOf.value);
      if parent.None? || parent.value.status == NotYet || (parent.value.status == Done && !parent.value.late) {
        return;
      }
    }
    var trigger := if v.trigger.OnInput? then Lookup(e.dates, v.trigger.field)
                   else Lookup(dueByFamily, v.trigger.family);
    if trigger.None? {
      emitted := Some(NotYetStep(v));
      return;
    }
    if v.extensionOf.None? {
      due := Some(Due(trigger.value, v.days));
    }
    emitted := DatedStep(v, trigger.value, e);
    if v.extensionOf.None? {
      base := emitted;
    }
  }

  function Put<K, V>(m: map<K, V>, k: K, v: Option<V>): map<K, V> {
    if v.Some? then m[k := v.value] else m
  }

  /** `v` is the vector of `id` and the base of its family if it is a base at all. */
  ghost predicate Stands(v: Vector, id: VectorId, m: Modes) {
    forall f: Family ::
      (BaseOf(f, m) == id <==> IsBase(v, f, m)) && (BaseOf(f, m) == id ==> VectorById(BaseOf(f, m)) == v)
  }

  lemma TableStands(id: VectorId, m: Modes)
    ensures Stands(VectorById(id), id, m)
  {
    forall f: Family
      ensures BaseOf(f, m) == id <==> IsBase(VectorById(id), f, m)
    {
      OneBasePerFamily(id, f, m);
    }
  }

  lemma DuesGrow(seen: seq<VectorId>, id: VectorId, v: Vector, e: Env, dues: map<Family, int>)
    requires DuesSoFar(dues, seen, e) && id !in seen && Stands(v, id, e.modes)
    ensures DuesSoFar(Put(dues, v.family, DueWritten(v, e)), seen + [id], e)
  {
    forall f: Family
      ensures BaseOf(f, e.modes) in seen + [id] <==> BaseOf(f, e.modes) in seen || BaseOf(f, e.modes) == id
    {
    }
  }

  lemma BasesGrow(seen: seq<VectorId>, id: VectorId, v: Vector, e: Env, bases: map<Family, Step>)
    requires BasesSoFar(bases, seen, e) && id !in seen && Stands(v, id, e.modes)
    ensures BasesSoFar(Put(bases, v.family, BaseWritten(v, e)), seen + [id], e)
  {
    forall f: Family
      ensures BaseOf(f, e.modes) in seen + [id] <==> BaseOf(f, e.modes) in seen || BaseOf(f, e.modes) == id
    {
    }
  }

  lemma StepsOfSnoc(chain: seq<VectorId>, k: nat, e: Env)
    requires k < |chain|
    ensures var last := StepOf(VectorById(chain[k]), e);
            StepsOf(chain[..k + 1], e) == StepsOf(chain[..k], e) + if last.Some? then [last.value] else []
  {
    assert chain[..k + 1][..k] == chain[..k];
  }

  /** The head of the open steps sorted by due date. */
  method EarliestOpen(steps: seq<Step>, today: int) returns (next: Option<Next>)
    ensures IsNext(next, steps, today)
  {
    next := None;
    ghost var best := 0;
    for k := 0 to |steps|
      invariant next.None? ==> forall j :: 0 <= j < k ==> !IsOpen(steps[j])
      invariant next.Some? ==> IsEarliestOpen(steps[..k], best)
      invariant next.Some? ==> next.value == Next(steps[best].id, steps[best].due.value, steps[best].due.value - today)
    {
      if IsOpen(steps[k]) && (next.None? || steps[k].due.value < next.value.due) {
        best := k;
        next := Some(Next(steps[k].id, steps[k].due.value, steps[k].due.value - today));
      }
    }
    assert steps[..|steps|] == steps;
  }
}
