/** packages/case-lifecycle/machine.ts: statuses, holds and the legal transitions. */
module CaseMachine {
  datatype Status = DRAFT | AWAITING_DOCS | DOCS_COMPLETE | QUOTED | DIGITIZING | ANALYZING | ADJUDICATING
                  | QA_REVIEW | QA_REJECTED | READY | DELIVERED | REFUNDED | DELETED

  datatype Hold = OCR_HALT | DELAY_OURS | SUBSEQUENT_WRIT_MODE

  function Forward(from: Status): set<Status> {
    match from
    case DRAFT => {AWAITING_DOCS}
    case AWAITING_DOCS => {DOCS_COMPLETE}
    case DOCS_COMPLETE => {DIGITIZING, QUOTED}
    case QUOTED => {DIGITIZING}
    case DIGITIZING => {ANALYZING}
    case ANALYZING => {ADJUDICATING}
    case ADJUDICATING => {QA_REVIEW}
    case QA_REVIEW => {QA_REJECTED, READY}
    case QA_REJECTED => {ANALYZING, QA_REVIEW}
    case READY => {DELIVERED, AWAITING_DOCS}
    case DELIVERED => {AWAITING_DOCS}
    case REFUNDED => {}
    case DELETED => {}
  }

  /** `legalTransitions`: refunds from anything not refunded or deleted, deletion from anything not deleted. */
  function LegalTransitions(from: Status): set<Status> {
    Forward(from)
    + (if from != DELETED && from != REFUNDED then {REFUNDED} else {})
    + (if from != DELETED then {DELETED} else {})
  }

  predicate IsLegal(from: Status, to: Status) {
    to in LegalTransitions(from)
  }

  /** By target: the only statuses each can be entered from. */
  lemma EnteredFrom(from: Status, to: Status)
    ensures IsLegal(from, to) <==>
              match to
              case DRAFT => false
              case AWAITING_DOCS => from == DRAFT || from == READY || from == DELIVERED
              case DOCS_COMPLETE => from == AWAITING_DOCS
              case QUOTED => from == DOCS_COMPLETE
              case DIGITIZING => from == DOCS_COMPLETE || from == QUOTED
              case ANALYZING => from == DIGITIZING || from == QA_REJECTED
              case ADJUDICATING => from == ANALYZING
              case QA_REVIEW => from == ADJUDICATING || from == QA_REJECTED
              case QA_REJECTED => from == QA_REVIEW
              case READY => from == QA_REVIEW
              case DELIVERED => from == READY
              case REFUNDED => from != REFUNDED && from != DELETED
              case DELETED => from != DELETED
  {
  }

  ghost predicate LegalPath(path: seq<Status>) {
    path != [] && forall k :: 0 < k < |path| ==> IsLegal(path[k - 1], path[k])
  }

  /** How far a status is from delivery. */
  function StepsLeft(s: Status): nat {
    match s
    case DRAFT => 8 case AWAITING_DOCS => 7 case DOCS_COMPLETE => 6 case QUOTED => 6 case DIGITIZING => 5
    case ANALYZING => 4 case ADJUDICATING => 3 case QA_REVIEW => 2 case QA_REJECTED => 3 case READY => 1
    case DELIVERED => 0 case REFUNDED => 0 case DELETED => 0
  }

  lemma NextStep(s: Status) returns (t: Status)
    requires s != REFUNDED && s != DELETED && s != DELIVERED
    ensures IsLegal(s, t) && StepsLeft(t) < StepsLeft(s) && t != REFUNDED && t != DELETED
  {
    t := match s
      case DRAFT => AWAITING_DOCS
      case AWAITING_DOCS => DOCS_COMPLETE
      case DOCS_COMPLETE => DIGITIZING
      case QUOTED => DIGITIZING
      case DIGITIZING => ANALYZING
      case ANALYZING => ADJUDICATING
      case ADJUDICATING => QA_REVIEW
      case QA_REVIEW => READY
      case QA_REJECTED => QA_REVIEW
      case _ => DELIVERED;
  }

  /** Every case neither refunded nor deleted can still be delivered. */
  lemma {:induction false} CanBeDelivered(s: Status) returns (path: seq<Status>)
    requires s != REFUNDED && s != DELETED
    ensures LegalPath(path) && path[0] == s && path[|path| - 1] == DELIVERED
    decreases StepsLeft(s)
  {
    if s == DELIVERED {
      path := [s];
    } else {
      var t := NextStep(s);
      var rest := CanBeDelivered(t);
      path := [s] + rest;
      assert path[1..] == rest;
      forall k | 0 < k < |path|
        ensures IsLegal(path[k - 1], path[k])
      {
        if k > 1 {
          assert path[k - 1] == rest[k - 2] && path[k] == rest[k - 1];
        }
      }
    }
  }
}
