/** Agent sessions: the lifecycle table and the per-session record the host keeps. */
module Sessions {
  import opened Actions

  type SessionId = nat
  type RequestId = nat

  datatype SessionState =
    | Created | Ready | Thinking | Planning | WaitingApproval
    | Executing | Observing | Completed | Failed | Cancelled

  predicate IsTerminal(s: SessionState) {
    s == Completed || s == Failed || s == Cancelled
  }

  predicate CanTransition(from: SessionState, to: SessionState) {
    match from
    case Created => to == Ready
    case Ready => to == Thinking
    case Thinking => to == Planning
    case Planning => to == Executing || to == WaitingApproval
    case WaitingApproval => to == Executing || to == Cancelled
    case Executing => to == Observing || to == Failed
    case Observing => to == Completed || to == Thinking || to == Failed
    case _ => false
  }

  /** The lifecycle seen from where a session arrives: the states each state can be entered from. */
  lemma EnteredFrom(from: SessionState, to: SessionState)
    ensures CanTransition(from, to) <==>
              match to
              case Created => false
              case Ready => from == Created
              case Thinking => from == Ready || from == Observing
              case Planning => from == Thinking
              case WaitingApproval => from == Planning
              case Executing => from == Planning || from == WaitingApproval
              case Observing => from == Executing
              case Completed => from == Observing
              case Failed => from == Executing || from == Observing
              case Cancelled => from == WaitingApproval
  {
  }

  /** `tokens` holds the ids of actions that were started and not yet cancelled. */
  datatype Session = Session(
    state: SessionState,
    cancelled: bool,
    ordinal: nat,
    requests: seq<RequestId>,
    tokens: set<ActionId>,
    requestCount: nat,
    actionCount: nat,
    observationCount: nat,
    errorCount: nat)

  function NewSession(ordinal: nat): Session {
    Session(Created, false, ordinal, [], {}, 0, 0, 0, 0)
  }
}
