/**
 * packages/case-lifecycle/trap/trap-chain.ts: the TRAP vector table, and the facts about
 * its shape that the clock's single pass relies on.
 */
module TrapChain {
  import opened Wrappers

  datatype Family = Mnt | Noa | Record | Brief | StateBrief | ReplyBrief | Rehearing | Pdr | PostAffirmance
                  | StateAnswer | Designation | Resolution180 | Transmittal181

  datatype VectorId = IdMnt | IdNoa | IdNoaMnt | IdNoaExt | IdRecord | IdRecordMnt
                    | IdBrief | IdStateBrief | IdReplyBrief
                    | IdRehearing | IdPdr | IdPdrAfterRehearing | IdPdrExt | IdPostAffirmance
                    | IdStateAnswer | IdDesignation | IdResolution180 | IdTransmittal181

  datatype Field = SentenceImposed | MotionForNewTrialFiled | NoticeOfAppealFiled | RecordFiled | BriefFiled
                 | StateBriefFiled | ReplyBriefFiled | CoaJudgment | RehearingFiled | RehearingDenied | PdrFiled
                 | PostAffirmanceLetterFiled | ApplicationReceivedByState | StateAnswerFiled | DesignationOrder
                 | FindingsEntered | RecordTransmitted

  /** A date given on the matter, or the due date of an earlier vector. */
  datatype Trigger = OnInput(field: Field) | OnDue(family: Family)

  /** `mnt` and `rehearing` restrict a vector to one mode: Some(true) is 'timely' or 'filed'. */
  datatype Vector = Vector(id: VectorId, family: Family, trigger: Trigger, days: int, extensionOf: Option<Family>,
                           filed: Field, mnt: Option<bool>, rehearing: Option<bool>, optional: bool,
                           jurisdictional: bool, pdrClock: bool)

  /**
   * `vectorById`: the rows of the table, as family, trigger, days, family extended, filing
   * field, new-trial mode, rehearing mode, optional, jurisdictional, on the PDR clock.
   */
  function VectorById(id: VectorId): Vector {
    match id
    case IdMnt =>
      Vector(id, Mnt, OnInput(SentenceImposed), 30, None, MotionForNewTrialFiled, None, None, true, false, false)
    case IdNoa =>
      Vector(id, Noa, OnInput(SentenceImposed), 30, None, NoticeOfAppealFiled, Some(false), None, false, true, false)
    case IdNoaMnt =>
      Vector(id, Noa, OnInput(SentenceImposed), 90, None, NoticeOfAppealFiled, Some(true), None, false, true, false)
    case IdNoaExt => Vector(id, Noa, OnDue(Noa), 15, Some(Noa), NoticeOfAppealFiled, None, None, false, true, false)
    case IdRecord =>
      Vector(id, Record, OnInput(SentenceImposed), 60, None, RecordFiled, Some(false), None, false, false, false)
    case IdRecordMnt =>
      Vector(id, Record, OnInput(SentenceImposed), 120, None, RecordFiled, Some(true), None, false, false, false)
    case IdBrief => Vector(id, Brief, OnInput(RecordFiled), 30, None, BriefFiled, None, None, false, false, false)
    case IdStateBrief =>
      Vector(id, StateBrief, OnInput(BriefFiled), 30, None, StateBriefFiled, None, None, true, false, false)
    case IdReplyBrief =>
      Vector(id, ReplyBrief, OnInput(StateBriefFiled), 20, None, ReplyBriefFiled, None, None, true, false, false)
    case IdRehearing =>
      Vector(id, Rehearing, OnInput(CoaJudgment), 15, None, RehearingFiled, None, None, true, false, true)
    case IdPdr => Vector(id, Pdr, OnInput(CoaJudgment), 30, None, PdrFiled, None, Some(false), false, true, true)
    case IdPdrAfterRehearing =>
      Vector(id, Pdr, OnInput(RehearingDenied), 30, None, PdrFiled, None, Some(true), false, true, true)
    case IdPdrExt => Vector(id, Pdr, OnDue(Pdr), 15, Some(Pdr), PdrFiled, None, None, false, true, true)
    case IdPostAffirmance =>
      Vector(id, PostAffirmance, OnInput(CoaJudgment), 5, None,
             PostAffirmanceLetterFiled, None, None, false, false, true)
    case IdStateAnswer =>
      Vector(id, StateAnswer, OnInput(ApplicationReceivedByState), 15, None,
             StateAnswerFiled, None, None, false, false, false)
    case IdDesignation =>
      Vector(id, Designation, OnDue(StateAnswer), 20, None, DesignationOrder, None, None, false, false, false)
    case IdResolution180 =>
      Vector(id, Resolution180, OnInput(ApplicationReceivedByState), 180, None,
             FindingsEntered, None, None, false, false, false)
    case IdTransmittal181 =>
      Vector(id, Transmittal181, OnInput(ApplicationReceivedByState), 181, None,
             RecordTransmitted, None, None, false, false, false)
  }

  const DIRECT_APPEAL_CHAIN: seq<VectorId> := [
    IdMnt, IdNoa, IdNoaMnt, IdNoaExt, IdRecord, IdRecordMnt, IdBrief, IdStateBrief, IdReplyBrief,
    IdRehearing, IdPdr, IdPdrAfterRehearing, IdPdrExt, IdPostAffirmance
  ]

  const WRIT_11_07_CHAIN: seq<VectorId> := [IdStateAnswer, IdDesignation, IdResolution180, IdTransmittal181]

  datatype Vehicle = DirectAppeal | PdrClock | Art1107 | Art11071 | Art11072 | Art1109 | Federal2254

  /** The direct-appeal vectors flagged for the PDR-only clock, in table order (PdrChainIsFilter). */
  const PDR_CHAIN: seq<VectorId> := [IdRehearing, IdPdr, IdPdrAfterRehearing, IdPdrExt, IdPostAffirmance]

  /** `vectorsFor`; a refused vehicle and a vehicle without a table run no vectors. */
  function VectorsFor(vehicle: Vehicle): seq<VectorId> {
    match vehicle
    case DirectAppeal => DIRECT_APPEAL_CHAIN
    case PdrClock => PDR_CHAIN
    case Art1107 => WRIT_11_07_CHAIN
    case _ => []
  }

  /** Whether the motion for new trial was timely, and whether a rehearing moves the PDR trigger. */
  datatype Modes = Modes(mnt: bool, rehearing: bool)

  predicate Applies(v: Vector, m: Modes) {
    && (v.mnt.Some? ==> v.mnt.value == m.mnt)
    && (v.rehearing.Some? ==> v.rehearing.value == m.rehearing)
  }

  predicate IsBase(v: Vector, family: Family, m: Modes) {
    v.extensionOf.None? && v.family == family && Applies(v, m)
  }

  // ---- Why one pass over a chain is enough ----

  /** Where a vector stands in its table. */
  function Position(id: VectorId): nat {
    match id
    case IdMnt => 0 case IdNoa => 1 case IdNoaMnt => 2 case IdNoaExt => 3 case IdRecord => 4 case IdRecordMnt => 5
    case IdBrief => 6 case IdStateBrief => 7 case IdReplyBrief => 8 case IdRehearing => 9 case IdPdr => 10
    case IdPdrAfterRehearing => 11 case IdPdrExt => 12 case IdPostAffirmance => 13
    case IdStateAnswer => 0 case IdDesignation => 1 case IdResolution180 => 2 case IdTransmittal181 => 3
  }

  /** The one base vector of a family that applies in a mode. */
  function BaseOf(f: Family, m: Modes): VectorId {
    match f
    case Mnt => IdMnt
    case Noa => if m.mnt then IdNoaMnt else IdNoa
    case Record => if m.mnt then IdRecordMnt else IdRecord
    case Brief => IdBrief
    case StateBrief => IdStateBrief
    case ReplyBrief => IdReplyBrief
    case Rehearing => IdRehearing
    case Pdr => if m.rehearing then IdPdrAfterRehearing else IdPdr
    case PostAffirmance => IdPostAffirmance
    case StateAnswer => IdStateAnswer
    case Designation => IdDesignation
    case Resolution180 => IdResolution180
    case Transmittal181 => IdTransmittal181
  }

  /** A family has exactly one applicable base vector. */
  lemma OneBasePerFamily(u: VectorId, f: Family, m: Modes)
    ensures IsBase(VectorById(u), f, m) <==> u == BaseOf(f, m)
  {
  }

  /**
   * What a vector runs from comes earlier in its table, runs from an input, and is no optional act
   * if it can be extended.
   */
  lemma ReferencesPointBack(v: VectorId, m: Modes)
    requires VectorById(v).trigger.OnDue?
    ensures var u := BaseOf(VectorById(v).trigger.family, m);
            Position(u) < Position(v) && VectorById(u).trigger.OnInput?
            && (VectorById(v).extensionOf.Some? ==> !VectorById(u).optional)
  {
  }

  /** ... and is in every chain that has the vector. */
  lemma ReferencesStayInChain(v: VectorId, m: Modes, vehicle: Vehicle)
    requires VectorById(v).trigger.OnDue? && v in VectorsFor(vehicle)
    ensures BaseOf(VectorById(v).trigger.family, m) in VectorsFor(vehicle)
  {
  }

  /** An extension belongs to the family it extends and runs from its due date. */
  lemma ExtensionsExtendTheirFamily(v: VectorId)
    requires VectorById(v).extensionOf.Some?
    ensures VectorById(v).extensionOf.value == VectorById(v).family
    ensures VectorById(v).trigger == OnDue(VectorById(v).family) && !VectorById(v).optional
  {
  }

  ghost predicate Ordered(chain: seq<VectorId>) {
    forall j, k :: 0 <= j < k < |chain| ==> Position(chain[j]) < Position(chain[k])
  }

  lemma DirectPositions(k: nat)
    requires k < |DIRECT_APPEAL_CHAIN|
    ensures Position(DIRECT_APPEAL_CHAIN[k]) == k
  {
  }

  lemma TablesOrdered(vehicle: Vehicle)
    ensures Ordered(VectorsFor(vehicle))
  {
    var chain := VectorsFor(vehicle);
    forall j, k | 0 <= j < k < |chain|
      ensures Position(chain[j]) < Position(chain[k])
    {
      if vehicle.DirectAppeal? {
        DirectPositions(j);
        DirectPositions(k);
      }
    }
  }

  /** The PDR clock runs exactly the direct-appeal vectors flagged for it. */
  lemma PdrChainIsFilter(id: VectorId)
    ensures id in VectorsFor(PdrClock) <==> id in VectorsFor(DirectAppeal) && VectorById(id).pdrClock
  {
  }

  // ---- Which vehicle's clock lists a vector ----

  predicate OfWrit(f: Family) {
    f == StateAnswer || f == Designation || f == Resolution180 || f == Transmittal181
  }

  /** The writ's clock lists every vector of Article 11.07, and only these. */
  lemma WritListsAll(id: VectorId)
    ensures id in VectorsFor(Art1107) <==> OfWrit(VectorById(id).family)
  {
    if OfWrit(VectorById(id).family) {
      assert WRIT_11_07_CHAIN[Position(id)] == id;
    }
  }

  /** The direct appeal's lists every other. */
  lemma DirectAppealListsAll(id: VectorId)
    ensures id in VectorsFor(DirectAppeal) <==> !OfWrit(VectorById(id).family)
  {
    if !OfWrit(VectorById(id).family) {
      assert DIRECT_APPEAL_CHAIN[Position(id)] == id;
    }
  }

  /** The PDR clock's are the steps after the court of appeals' judgment; the other vehicles have no clock. */
  lemma OtherClocks(id: VectorId)
    ensures var f := VectorById(id).family;
            id in VectorsFor(PdrClock) <==> f == Rehearing || f == Pdr || f == PostAffirmance
    ensures VectorsFor(Art11071) == [] && VectorsFor(Art11072) == []
    ensures VectorsFor(Art1109) == [] && VectorsFor(Federal2254) == []
  {
  }
}
