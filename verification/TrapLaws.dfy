/** What the TRAP clock promises of its steps, whatever dates it is given. */
module TrapLaws {
  import opened Wrappers
  import opened WorkDays
  import opened Rule41
  import opened TrapChain
  import opened TrapClock

  // ---- Where a step comes from ----

  ghost predicate Emits(chain: seq<VectorId>, e: Env, id: VectorId, s: Step) {
    id in chain && StepOf(VectorById(id), e) == Some(s)
  }

  lemma {:induction false} StepOrigin(chain: seq<VectorId>, e: Env, s: Step)
    ensures s in StepsOf(chain, e) <==> exists id :: Emits(chain, e, id, s)
  {
    if chain == [] {
    } else {
      var n := |chain| - 1;
      StepOrigin(chain[..n], e, s);
      assert chain == chain[..n] + [chain[n]];
      if id :| Emits(chain[..n], e, id, s) {
        assert Emits(chain, e, id, s);
      }
      if id :| Emits(chain, e, id, s) {
        assert id == chain[n] || Emits(chain[..n], e, id, s);
      }
      if StepOf(VectorById(chain[n]), e) == Some(s) {
        assert Emits(chain, e, chain[n], s);
      }
    }
  }

  /** A step carries its vector's identity. */
  lemma StepIdentity(id: VectorId, e: Env, s: Step)
    requires StepOf(VectorById(id), e) == Some(s)
    ensures var v := VectorById(id);
            v.id == id && s.id == id && s.family == v.family && s.isExtension == v.extensionOf.Some?
            && s.jurisdictional == v.jurisdictional && s.optional == v.optional && Applies(v, e.modes)
  {
    RowId(id);
  }

  lemma RowId(id: VectorId)
    ensures VectorById(id).id == id
  {
  }

  ghost predicate InOrder(steps: seq<Step>) {
    forall j, k :: 0 <= j < k < |steps| ==> Position(steps[j].id) < Position(steps[k].id)
  }

  ghost predicate FromChain(steps: seq<Step>, chain: seq<VectorId>) {
    forall k :: 0 <= k < |steps| ==> steps[k].id in chain
  }

  lemma {:induction false} StepsInOrder(chain: seq<VectorId>, e: Env)
    requires Ordered(chain)
    ensures InOrder(StepsOf(chain, e)) && FromChain(StepsOf(chain, e), chain)
  {
    if chain != [] {
      var n := |chain| - 1;
      var steps, last := StepsOf(chain[..n], e), StepOf(VectorById(chain[n]), e);
      StepsInOrder(chain[..n], e);
      forall k | 0 <= k < |steps|
        ensures steps[k].id in chain && Position(steps[k].id) < Position(chain[n])
      {
        assert steps[k].id in chain[..n];
        var j :| 0 <= j < n && chain[..n][j] == steps[k].id;
        assert chain[j] == steps[k].id;
      }
      if last.Some? {
        StepIdentity(chain[n], e, last.value);
        assert StepsOf(chain, e) == steps + [last.value];
      }
    }
  }

  lemma StepHasOrigin(chain: seq<VectorId>, e: Env, k: nat)
    requires k < |StepsOf(chain, e)|
    ensures var s := StepsOf(chain, e)[k]; Emits(chain, e, s.id, s)
  {
    var s := StepsOf(chain, e)[k];
    StepOrigin(chain, e, s);
    var id :| Emits(chain, e, id, s);
    StepIdentity(id, e, s);
  }

  /** At most one base step per family. */
  lemma OneBaseStepPerFamily(vehicle: Vehicle, e: Env, j: nat, k: nat)
    requires j < k < |StepsOf(VectorsFor(vehicle), e)|
    ensures var steps := StepsOf(VectorsFor(vehicle), e);
            !steps[j].isExtension && !steps[k].isExtension ==> steps[j].family != steps[k].family
  {
    var chain := VectorsFor(vehicle);
    var steps := StepsOf(chain, e);
    TablesOrdered(vehicle);
    StepsInOrder(chain, e);
    StepHasOrigin(chain, e, j);
    StepHasOrigin(chain, e, k);
    StepIdentity(steps[j].id, e, steps[j]);
    StepIdentity(steps[k].id, e, steps[k]);
    OneBasePerFamily(steps[j].id, steps[j].family, e.modes);
    OneBasePerFamily(steps[k].id, steps[k].family, e.modes);
  }

  /** An extension step appears exactly when its family's base step is listed and open, missed or filed late. */
  lemma ExtensionOnlyWhileItMatters(vehicle: Vehicle, e: Env, x: VectorId)
    requires x in VectorsFor(vehicle) && VectorById(x).extensionOf.Some?
    ensures (exists s :: Emits(VectorsFor(vehicle), e, x, s))
       <==> exists b :: b in StepsOf(VectorsFor(vehicle), e) && !b.isExtension && b.family == VectorById(x).family
                        && (b.status == Open || b.status == Missed || (b.status == Done && b.late))
  {
    var chain := VectorsFor(vehicle);
    var v := VectorById(x);
    var f := v.family;
    ExtensionsExtendTheirFamily(x);
    ReferencesStayInChain(x, e.modes, vehicle);
    ReferencesPointBack(x, e.modes);
    var u := BaseOf(f, e.modes);
    OneBasePerFamily(u, f, e.modes);
    ExtensionRunsWithBase(x, e);
    if WindowMatters(BaseStep(f, e)) {
      var b := BaseStep(f, e).value;
      assert Emits(chain, e, u, b);
      StepOrigin(chain, e, b);
      assert Emits(chain, e, x, StepOf(v, e).value);
    }
    if b :| b in StepsOf(chain, e) && !b.isExtension && b.family == f
            && (b.status == Open || b.status == Missed || (b.status == Done && b.late)) {
      StepOrigin(chain, e, b);
      var id :| Emits(chain, e, id, b);
      StepIdentity(id, e, b);
      OneBasePerFamily(id, f, e.modes);
      assert BaseStep(f, e) == Some(b);
    }
  }

  function ExtensionOf(f: Family): VectorId
    requires f == Noa || f == Pdr
  {
    if f == Noa then IdNoaExt else IdPdrExt
  }

  lemma ExtensionIds(id: VectorId)
    requires VectorById(id).extensionOf.Some?
    ensures (VectorById(id).family == Noa || VectorById(id).family == Pdr) && id == ExtensionOf(VectorById(id).family)
  {
  }

  /** When its base has a step, the extension's trigger is that step's due date. */
  lemma ExtensionRunsWithBase(x: VectorId, e: Env)
    requires VectorById(x).extensionOf.Some?
    ensures var v := VectorById(x);
            StepOf(v, e).Some? <==> WindowMatters(BaseStep(v.family, e))
    ensures var v := VectorById(x);
            BaseStep(v.family, e).Some? ==> TriggerDate(v, e) == BaseStep(v.family, e).value.due
                                             && BaseStep(v.family, e).value.due.Some?
  {
    ExtensionIds(x);
    if x == IdNoaExt {
      assert VectorById(BaseOf(Noa, e.modes)).trigger == OnInput(SentenceImposed);
    } else {
      assert VectorById(BaseOf(Pdr, e.modes)).trigger.OnInput?;
    }
  }

  // ---- missedJurisdictional ----

  /** TRAP 26.2: 30 days from sentencing, 90 with a timely motion for new trial. */
  function NoticeDue(e: Env): Option<int> {
    if SentenceImposed in e.dates then Some(Due(e.dates[SentenceImposed], if e.modes.mnt then 90 else 30)) else None
  }

  /** TRAP 68.2(a): 30 days from the judgment, or from the overruling of a rehearing that counts. */
  function PetitionDue(e: Env): Option<int> {
    var from := Lookup(e.dates, if e.modes.rehearing then RehearingDenied else CoaJudgment);
    if from.Some? then Some(Due(from.value, 30)) else None
  }

  /** Unfiled past the due date, or filed after the 15-day extension window. */
  predicate OutOfTime(due: Option<int>, filed: Option<int>, today: int) {
    due.Some? && if filed.Some? then filed.value > Due(due.value, 15) else due.value < today
  }

  predicate NoticeOutOfTime(e: Env) {
    OutOfTime(NoticeDue(e), Lookup(e.dates, NoticeOfAppealFiled), e.today)
  }

  predicate PetitionOutOfTime(e: Env) {
    OutOfTime(PetitionDue(e), Lookup(e.dates, PdrFiled), e.today)
  }

  function FamilyDue(f: Family, e: Env): Option<int> {
    var b := VectorById(BaseOf(f, e.modes));
    match TriggerDate(b, e)
    case Some(t) => Some(Due(t, b.days))
    case None => None
  }

  predicate FamilyOutOfTime(f: Family, e: Env)
    requires f == Noa || f == Pdr
  {
    OutOfTime(FamilyDue(f, e), Lookup(e.dates, VectorById(BaseOf(f, e.modes)).filed), e.today)
  }

  lemma FamilyDues(e: Env)
    ensures FamilyDue(Noa, e) == NoticeDue(e) && FamilyDue(Pdr, e) == PetitionDue(e)
    ensures FamilyOutOfTime(Noa, e) <==> NoticeOutOfTime(e)
    ensures FamilyOutOfTime(Pdr, e) <==> PetitionOutOfTime(e)
  {
  }

  /** A filing against a due date: done, perhaps late; or missed; or open. */
  predicate StatusFor(s: Step, due: int, filed: Option<int>, today: int, extension: bool) {
    if filed.Some? then s.late == (filed.value > due) && s.status == (if extension && s.late then Missed else Done)
    else s.status == if due < today then Missed else Open
  }

  lemma BaseVerdict(f: Family, e: Env)
    requires f == Noa || f == Pdr
    ensures BaseStep(f, e).Some? <==> FamilyDue(f, e).Some?
    ensures FamilyDue(f, e).Some? ==>
              StatusFor(BaseStep(f, e).value, FamilyDue(f, e).value,
                        Lookup(e.dates, VectorById(BaseOf(f, e.modes)).filed), e.today, false)
  {
  }

  lemma ExtensionVerdict(f: Family, e: Env)
    requires f == Noa || f == Pdr
    requires FamilyDue(f, e).Some?
    ensures var x := StepOf(VectorById(ExtensionOf(f)), e);
            (x.Some? <==> WindowMatters(BaseStep(f, e)))
            && (x.Some? ==> StatusFor(x.value, Due(FamilyDue(f, e).value, 15),
                                      Lookup(e.dates, VectorById(BaseOf(f, e.modes)).filed), e.today, true))
  {
    if f == Noa {
    } else {
    }
  }

  /** The two steps a jurisdictional family can have, and when one of them counts. */
  lemma FamilyVerdict(f: Family, e: Env)
    requires f == Noa || f == Pdr
    ensures var b, x := BaseStep(f, e), StepOf(VectorById(ExtensionOf(f)), e);
            var met := x.Some? && x.value.status == Done;
            FamilyOutOfTime(f, e) <==>
              || (b.Some? && (b.value.status == Missed || (b.value.status == Done && b.value.late && !met)))
              || (x.Some? && x.value.status == Missed)
  {
    BaseVerdict(f, e);
    if FamilyDue(f, e).Some? {
      ExtensionVerdict(f, e);
      RollIsLeast(FamilyDue(f, e).value + 15);
    } else {
      ExtensionRunsWithBase(ExtensionOf(f), e);
    }
  }

  ghost predicate FamilyMissed(steps: seq<Step>, f: Family) {
    exists k :: 0 <= k < |steps| && steps[k].family == f && CountsAsMissed(steps, steps[k])
  }

  lemma JurisdictionalIds(id: VectorId, m: Modes)
    requires VectorById(id).jurisdictional && Applies(VectorById(id), m)
    ensures var f := VectorById(id).family;
            (f == Noa || f == Pdr) && (id == BaseOf(f, m) || id == ExtensionOf(f))
            && (VectorById(id).extensionOf.Some? <==> id == ExtensionOf(f))
  {
  }

  lemma MetIsExtensionDone(vehicle: Vehicle, e: Env, f: Family)
    requires f == Noa || f == Pdr
    requires ExtensionOf(f) in VectorsFor(vehicle)
    ensures var x := StepOf(VectorById(ExtensionOf(f)), e);
            ExtensionMet(StepsOf(VectorsFor(vehicle), e), f) <==> x.Some? && x.value.status == Done
  {
    var steps := StepsOf(VectorsFor(vehicle), e);
    var x := StepOf(VectorById(ExtensionOf(f)), e);
    if ExtensionMet(steps, f) {
      var k :| 0 <= k < |steps| && steps[k].isExtension && steps[k].family == f && steps[k].status == Done;
      ExtensionStepOf(vehicle, e, k);
    }
    if x.Some? && x.value.status == Done {
      Listed(VectorsFor(vehicle), e, ExtensionOf(f), x.value);
    }
  }

  /** The one extension step of a family comes from its extension vector. */
  lemma ExtensionStepOf(vehicle: Vehicle, e: Env, k: nat)
    requires k < |StepsOf(VectorsFor(vehicle), e)| && StepsOf(VectorsFor(vehicle), e)[k].isExtension
    ensures var s := StepsOf(VectorsFor(vehicle), e)[k];
            (s.family == Noa || s.family == Pdr) && StepOf(VectorById(ExtensionOf(s.family)), e) == Some(s)
  {
    var s := StepsOf(VectorsFor(vehicle), e)[k];
    StepHasOrigin(VectorsFor(vehicle), e, k);
    StepIdentity(s.id, e, s);
    ExtensionIds(s.id);
  }

  lemma FamilyMissedExactly(vehicle: Vehicle, e: Env, f: Family)
    requires f == Noa || f == Pdr
    requires ExtensionOf(f) in VectorsFor(vehicle)
    ensures FamilyMissed(StepsOf(VectorsFor(vehicle), e), f) <==> FamilyOutOfTime(f, e)
  {
    FamilyVerdict(f, e);
    MetIsExtensionDone(vehicle, e, f);
    if FamilyMissed(StepsOf(VectorsFor(vehicle), e), f) {
      MissedStepIsOneOfTwo(vehicle, e, f);
    }
    if FamilyOutOfTime(f, e) {
      OneOfTwoIsListed(vehicle, e, f);
    }
  }

  lemma MissedStepIsOneOfTwo(vehicle: Vehicle, e: Env, f: Family)
    requires f == Noa || f == Pdr
    requires FamilyMissed(StepsOf(VectorsFor(vehicle), e), f)
    ensures var b, x := BaseStep(f, e), StepOf(VectorById(ExtensionOf(f)), e);
            || (b.Some? && !b.value.isExtension && b.value.family == f
                && CountsAsMissed(StepsOf(VectorsFor(vehicle), e), b.value))
            || (x.Some? && x.value.isExtension && CountsAsMissed(StepsOf(VectorsFor(vehicle), e), x.value))
  {
    var chain := VectorsFor(vehicle);
    var steps := StepsOf(chain, e);
    var k :| 0 <= k < |steps| && steps[k].family == f && CountsAsMissed(steps, steps[k]);
    StepHasOrigin(chain, e, k);
    StepIdentity(steps[k].id, e, steps[k]);
    JurisdictionalIds(steps[k].id, e.modes);
  }

  lemma OneOfTwoIsListed(vehicle: Vehicle, e: Env, f: Family)
    requires f == Noa || f == Pdr
    requires ExtensionOf(f) in VectorsFor(vehicle)
    ensures var b, x := BaseStep(f, e), StepOf(VectorById(ExtensionOf(f)), e);
            var steps := StepsOf(VectorsFor(vehicle), e);
            (b.Some? && CountsAsMissed(steps, b.value) ==> FamilyMissed(steps, f))
            && (x.Some? && CountsAsMissed(steps, x.value) ==> FamilyMissed(steps, f))
            && (b.Some? ==> b.value.jurisdictional && !b.value.isExtension && b.value.family == f)
            && (x.Some? ==> x.value.jurisdictional)
  {
    var chain := VectorsFor(vehicle);
    var b, x := BaseStep(f, e), StepOf(VectorById(ExtensionOf(f)), e);
    if x.Some? {
      Listed(chain, e, ExtensionOf(f), x.value);
    }
    if b.Some? {
      ReferencesStayInChain(ExtensionOf(f), e.modes, vehicle);
      OneBasePerFamily(BaseOf(f, e.modes), f, e.modes);
      assert StepOf(VectorById(BaseOf(f, e.modes)), e) == b;
      Listed(chain, e, BaseOf(f, e.modes), b.value);
    }
  }

  lemma Listed(chain: seq<VectorId>, e: Env, id: VectorId, s: Step)
    requires Emits(chain, e, id, s)
    ensures exists k :: 0 <= k < |StepsOf(chain, e)| && StepsOf(chain, e)[k] == s
    ensures s.family == VectorById(id).family && s.jurisdictional == VectorById(id).jurisdictional
    ensures s.isExtension == VectorById(id).extensionOf.Some?
  {
    StepOrigin(chain, e, s);
    StepIdentity(id, e, s);
  }

  /**
   * `missedJurisdictional` holds exactly when the notice of appeal or the petition for
   * discretionary review is out of time, on the clocks that list them.
   */
  lemma MissedExactly(vehicle: Vehicle, e: Env)
    ensures SomeMissed(StepsOf(VectorsFor(vehicle), e)) <==>
              || (vehicle == DirectAppeal && NoticeOutOfTime(e))
              || ((vehicle == DirectAppeal || vehicle == PdrClock) && PetitionOutOfTime(e))
  {
    FamilyDues(e);
    MissedByFamily(vehicle, e);
    if IdNoaExt in VectorsFor(vehicle) {
      FamilyMissedExactly(vehicle, e, Noa);
    }
    if IdPdrExt in VectorsFor(vehicle) {
      FamilyMissedExactly(vehicle, e, Pdr);
    }
  }

  lemma MissedByFamily(vehicle: Vehicle, e: Env)
    ensures var steps := StepsOf(VectorsFor(vehicle), e);
            SomeMissed(steps) <==>
              || (IdNoaExt in VectorsFor(vehicle) && FamilyMissed(steps, Noa))
              || (IdPdrExt in VectorsFor(vehicle) && FamilyMissed(steps, Pdr))
  {
    var chain := VectorsFor(vehicle);
    var steps := StepsOf(chain, e);
    if SomeMissed(steps) {
      var k :| 0 <= k < |steps| && CountsAsMissed(steps, steps[k]);
      StepHasOrigin(chain, e, k);
      StepIdentity(steps[k].id, e, steps[k]);
      JurisdictionalIds(steps[k].id, e.modes);
      JurisdictionalChains(vehicle, steps[k].id);
      assert FamilyMissed(steps, steps[k].family);
    }
  }

  lemma JurisdictionalChains(vehicle: Vehicle, id: VectorId)
    requires id in VectorsFor(vehicle) && VectorById(id).jurisdictional
    ensures var f := VectorById(id).family; (f == Noa || f == Pdr) && ExtensionOf(f) in VectorsFor(vehicle)
  {
  }

  // ---- ... over the dates given ----

  /** The table's own step: with motion and judgment known, a rehearing counts exactly when filed and not late. */
  lemma RehearingAgrees(i: Inputs)
    requires RehearingFiled in DatesOf(i) && CoaJudgment in DatesOf(i)
    ensures var s := StepOf(VectorById(IdRehearing), EnvOf(i));
            EnvOf(i).modes.rehearing <==> s.Some? && s.value.status == Done && !s.value.late
  {
  }

  /** A denial or a motion known counts unless the motion was filed late; with neither, none does. */
  lemma RehearingKnown(i: Inputs)
    ensures var d := DatesOf(i);
            && (RehearingFiled !in d && RehearingDenied !in d ==> !EnvOf(i).modes.rehearing)
            && (RehearingDenied in d && RehearingFiled !in d ==> EnvOf(i).modes.rehearing)
            && (RehearingFiled in d && CoaJudgment !in d ==> EnvOf(i).modes.rehearing)
            && (RehearingFiled in d && CoaJudgment in d ==>
                  (EnvOf(i).modes.rehearing <==> d[RehearingFiled] <= Roll(d[CoaJudgment] + 15)))
  {
  }

  /** The day sentence was imposed, or else the judgment was signed. */
  function SentenceDay(i: Inputs): Option<int> {
    if SentenceImposed in i.given then Some(i.given[SentenceImposed]) else i.judgmentSigned
  }

  /** TRAP 26.2: 30 days from sentence, or 90 with a motion for new trial filed within 30; rolled. */
  function NoticeDay(i: Inputs): Option<int> {
    match SentenceDay(i)
    case None => None
    case Some(day) =>
      if MotionForNewTrialFiled in i.given && i.given[MotionForNewTrialFiled] <= Roll(day + 30)
      then Some(Roll(day + 90)) else Some(Roll(day + 30))
  }

  /** TRAP 68.2: 30 days from the judgment, unless a rehearing not moved for too late is overruled; rolled. */
  function PetitionDay(i: Inputs): Option<int> {
    var tooLate := RehearingFiled in i.given && CoaJudgment in i.given
                   && Roll(i.given[CoaJudgment] + 15) < i.given[RehearingFiled];
    if !tooLate && RehearingDenied in i.given then Some(Roll(i.given[RehearingDenied] + 30))
    else if !tooLate && RehearingFiled in i.given then None
    else if CoaJudgment in i.given then Some(Roll(i.given[CoaJudgment] + 30))
    else None
  }

  /** Unfiled past the day, or filed past the 15 days' extension. */
  predicate Forfeited(day: Option<int>, filed: Field, i: Inputs) {
    day.Some? && if filed in i.given then Roll(day.value + 15) < i.given[filed] else day.value < i.today
  }

  /** The clock's flag, from the dates given alone. */
  lemma MissedFromDates(c: Clock, i: Inputs)
    requires IsClockOf(c, i)
    ensures c.missedJurisdictional <==>
              || (i.vehicle == DirectAppeal && Forfeited(NoticeDay(i), NoticeOfAppealFiled, i))
              || ((i.vehicle == DirectAppeal || i.vehicle == PdrClock) && Forfeited(PetitionDay(i), PdrFiled, i))
  {
    MissedExactly(i.vehicle, EnvOf(i));
    NoticeFromDates(i);
    PetitionFromDates(i);
  }

  lemma NoticeFromDates(i: Inputs)
    ensures NoticeDue(EnvOf(i)) == NoticeDay(i)
    ensures NoticeOutOfTime(EnvOf(i)) <==> Forfeited(NoticeDay(i), NoticeOfAppealFiled, i)
  {
  }

  lemma PetitionFromDates(i: Inputs)
    ensures PetitionDue(EnvOf(i)) == PetitionDay(i)
    ensures PetitionOutOfTime(EnvOf(i)) <==> Forfeited(PetitionDay(i), PdrFiled, i)
  {
    RehearingKnown(i);
  }

  /** A step that cannot be dated yet says nothing but that. */
  lemma NotYetExactly(v: Vector, e: Env, s: Step)
    requires StepOf(v, e) == Some(s)
    ensures s.status == NotYet <==> TriggerDate(v, e).None?
    ensures s.status == NotYet ==> s.due.None? && s.rawDue.None? && s.filedAt.None? && !s.late
    ensures s.status != NotYet ==> s.due.Some? && s.rawDue.Some? && s.due.value == Roll(s.rawDue.value)
  {
  }

  // ---- The other deadlines ----

  /** The act that satisfies a family, and the days it has from what. */
  datatype Deadline = Deadline(act: Field, days: int, from: Trigger)

  /** TRAP 21.4, 26.2, 35.2, 38.6, 49.1, 68.2, 48.4 and 73, and Article 11.07. */
  function DeadlineOf(f: Family, m: Modes): Deadline {
    match f
    case Mnt => Deadline(MotionForNewTrialFiled, 30, OnInput(SentenceImposed))
    case Noa => Deadline(NoticeOfAppealFiled, if m.mnt then 90 else 30, OnInput(SentenceImposed))
    case Record => Deadline(RecordFiled, if m.mnt then 120 else 60, OnInput(SentenceImposed))
    case Brief => Deadline(BriefFiled, 30, OnInput(RecordFiled))
    case StateBrief => Deadline(StateBriefFiled, 30, OnInput(BriefFiled))
    case ReplyBrief => Deadline(ReplyBriefFiled, 20, OnInput(StateBriefFiled))
    case Rehearing => Deadline(RehearingFiled, 15, OnInput(CoaJudgment))
    case Pdr => Deadline(PdrFiled, 30, OnInput(if m.rehearing then RehearingDenied else CoaJudgment))
    case PostAffirmance => Deadline(PostAffirmanceLetterFiled, 5, OnInput(CoaJudgment))
    case StateAnswer => Deadline(StateAnswerFiled, 15, OnInput(ApplicationReceivedByState))
    case Designation => Deadline(DesignationOrder, 20, OnDue(StateAnswer))
    case Resolution180 => Deadline(FindingsEntered, 180, OnInput(ApplicationReceivedByState))
    case Transmittal181 => Deadline(RecordTransmitted, 181, OnInput(ApplicationReceivedByState))
  }

  /** What a family's step says, given its deadline: nothing more, and nothing of an optional act that has lapsed. */
  ghost predicate Says(s: Step, d: Deadline, trigger: int, e: Env) {
    && s.rawDue == Some(trigger + d.days) && s.due == Some(Roll(trigger + d.days))
    && s.filedAt == Lookup(e.dates, d.act) && StatusFor(s, Roll(trigger + d.days), s.filedAt, e.today, false)
    && (s.filedAt.None? ==> !s.late)
  }

  function TriggerOf(t: Trigger, e: Env): Option<int> {
    match t
    case OnInput(field) => Lookup(e.dates, field)
    case OnDue(_) =>
      if ApplicationReceivedByState in e.dates then Some(Roll(e.dates[ApplicationReceivedByState] + 15)) else None
  }

  /** The base step of every family: due on its deadline, rolled; only lapsed optional acts are left out. */
  lemma BaseStepFromDates(f: Family, e: Env)
    ensures var d := DeadlineOf(f, e.modes); var t, s := TriggerOf(d.from, e), BaseStep(f, e);
            && (s.Some? ==> t.Some? && Says(s.value, d, t.value, e) && s.value.family == f && !s.value.isExtension
                            && (s.value.jurisdictional <==> f == Noa || f == Pdr))
            && (t.Some? && s.None? <==>
                  t.Some? && (f == Mnt || f == StateBrief || f == ReplyBrief || f == Rehearing)
                  && d.act !in e.dates && Roll(t.value + d.days) < e.today)
  {
    RowFromDates(f, e.modes);
    TriggerFromDates(f, e);
    if TriggerOf(DeadlineOf(f, e.modes).from, e).Some? {
      var d := DeadlineOf(f, e.modes);
      DatedSays(VectorById(BaseOf(f, e.modes)), d, TriggerOf(d.from, e).value, e);
    }
  }

  lemma TriggerFromDates(f: Family, e: Env)
    ensures TriggerDate(VectorById(BaseOf(f, e.modes)), e) == TriggerOf(DeadlineOf(f, e.modes).from, e)
  {
    RowFromDates(f, e.modes);
  }

  lemma DatedSays(v: Vector, d: Deadline, t: int, e: Env)
    requires v.filed == d.act && v.days == d.days && v.extensionOf.None?
    ensures var s := DatedStep(v, t, e);
            && (s.None? <==> v.optional && d.act !in e.dates && Roll(t + d.days) < e.today)
            && (s.Some? ==> Says(s.value, d, t, e) && s.value.family == v.family && !s.value.isExtension
                            && s.value.jurisdictional == v.jurisdictional)
  {
  }

  lemma RowFromDates(f: Family, m: Modes)
    ensures var d, v := DeadlineOf(f, m), VectorById(BaseOf(f, m));
            && v.filed == d.act && v.days == d.days && v.trigger == d.from && v.family == f && v.extensionOf.None?
            && (v.optional <==> f == Mnt || f == StateBrief || f == ReplyBrief || f == Rehearing)
            && (v.jurisdictional <==> f == Noa || f == Pdr)
  {
  }

  // ---- As today advances ----

  /** The same matter on a later day. */
  ghost predicate Later(e: Env, l: Env) {
    l.dates == e.dates && l.modes == e.modes && e.today <= l.today
  }

  /** The only ways a step may change: an open one becomes missed, an open optional one disappears. */
  predicate StepMoves(s: Option<Step>, t: Option<Step>) {
    if s.None? then t.None?
    else if t.None? then s.value.status == Open && s.value.optional
    else
      || t == s
      || (s.value.status == Open && !s.value.optional
          && t.value == Step(s.value.id, s.value.family, s.value.due, s.value.rawDue, Missed, s.value.filedAt,
                             s.value.late, s.value.jurisdictional, s.value.isExtension, s.value.optional))
  }

  /** As today advances, a step stays, goes from open to missed, or, if optional, disappears. */
  lemma StepAdvances(id: VectorId, e: Env, l: Env)
    requires Later(e, l)
    ensures StepMoves(StepOf(VectorById(id), e), StepOf(VectorById(id), l))
  {
    var v := VectorById(id);
    assert TriggerDate(v, e) == TriggerDate(v, l);
    if v.extensionOf.Some? {
      BaseAdvances(id, e, l);
      ExtensionRunsWithBase(id, e);
      ExtensionRunsWithBase(id, l);
    }
  }

  lemma BaseAdvances(x: VectorId, e: Env, l: Env)
    requires Later(e, l) && VectorById(x).extensionOf.Some?
    ensures WindowMatters(BaseStep(VectorById(x).family, e)) <==> WindowMatters(BaseStep(VectorById(x).family, l))
    ensures !VectorById(x).optional
  {
    ReferencesPointBack(x, e.modes);
    ExtensionsExtendTheirFamily(x);
  }

  /** `missedJurisdictional` never returns to false. */
  lemma MissedForGood(vehicle: Vehicle, e: Env, l: Env)
    requires Later(e, l) && SomeMissed(StepsOf(VectorsFor(vehicle), e))
    ensures SomeMissed(StepsOf(VectorsFor(vehicle), l))
  {
    MissedExactly(vehicle, e);
    MissedExactly(vehicle, l);
  }

  lemma OpenIsNotPast(id: VectorId, e: Env, s: Step)
    requires StepOf(VectorById(id), e) == Some(s) && s.status == Open
    ensures s.due.Some? && s.due.value >= e.today
  {
  }

  /** The next due date is never in the past, and as today advances it never moves earlier nor comes back. */
  lemma NextDueAdvances(i: Inputs, today: int, c: Clock, d: Clock)
    requires i.today <= today
    requires IsClockOf(c, i) && IsClockOf(d, Inputs(i.vehicle, i.judgmentSigned, i.given, today))
    ensures c.nextDue.Some? ==> c.nextDue.value.due >= i.today && c.nextDue.value.daysLeft >= 0
    ensures d.nextDue.Some? ==> c.nextDue.Some? && c.nextDue.value.due <= d.nextDue.value.due
  {
    var chain := VectorsFor(i.vehicle);
    var e, l := EnvOf(i), EnvOf(Inputs(i.vehicle, i.judgmentSigned, i.given, today));
    if c.nextDue.Some? {
      var k :| IsEarliestOpen(c.steps, k) && c.nextDue.value.due == c.steps[k].due.value
               && c.nextDue.value.daysLeft == c.steps[k].due.value - i.today;
      StepHasOrigin(chain, e, k);
      OpenIsNotPast(c.steps[k].id, e, c.steps[k]);
    }
    if d.nextDue.Some? {
      var k :| IsEarliestOpen(d.steps, k) && d.nextDue.value.due == d.steps[k].due.value;
      var t := d.steps[k];
      StepHasOrigin(chain, l, k);
      StepAdvances(t.id, e, l);
      assert Emits(chain, e, t.id, t);
      StepOrigin(chain, e, t);
      var j :| 0 <= j < |c.steps| && c.steps[j] == t;
      assert IsOpen(c.steps[j]);
    }
  }

  // ---- The motion for new trial ----

  /**
   * The clock's own timeliness test agrees with the table's `mnt` step: timely exactly when that
   * step is filed and not late.
   */
  lemma TimelinessAgrees(i: Inputs)
    ensures var s := StepOf(VectorById(IdMnt), EnvOf(i));
            TimelyMotion(DatesOf(i)) <==> s.Some? && s.value.status == Done && !s.value.late
  {
  }

  lemma NoticeAndRecordDue(e: Env)
    ensures FamilyDue(Noa, e) == NoticeDue(e)
    ensures FamilyDue(Record, e) == if SentenceImposed in e.dates
                                    then Some(Due(e.dates[SentenceImposed], if e.modes.mnt then 120 else 60)) else None
  {
  }

  /** A timely motion never brings the notice-of-appeal or the record deadline forward (TRAP 26.2, 35.2). */
  lemma TimelyMotionNeverHurts(dates: map<Field, int>, rehearing: bool, today: int, f: Family)
    requires f == Noa || f == Record
    ensures var without := FamilyDue(f, Env(dates, Modes(false, rehearing), today));
            var with := FamilyDue(f, Env(dates, Modes(true, rehearing), today));
            (without.Some? <==> with.Some?) && (with.Some? ==> without.value <= with.value)
  {
    NoticeAndRecordDue(Env(dates, Modes(false, rehearing), today));
    NoticeAndRecordDue(Env(dates, Modes(true, rehearing), today));
    if SentenceImposed in dates {
      DueGrows(dates[SentenceImposed], 30, 90);
      DueGrows(dates[SentenceImposed], 60, 120);
    }
  }
}
